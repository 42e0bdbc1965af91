/** `splay_` in jni/v8core/v8/benchmarks/splay.js: top-down splaying, in place on the nodes of a tree. */
module Splaying {
  import opened SplayNodes
  import opened SplayDepths

  /** The last node of a sorted chain is nowhere else in it. */
  lemma LastOnce<V>(s: Spine<V>)
    requires |s| > 0 && (Sorted(LeftNodes(s)) || Sorted(RightNodes(s)))
    ensures var m := |s| - 1; s[m].0 !in SpineOwn(s[..m]) && s[m].0 !in Own(s[m].1) && SpineOwn(s[..m]) !! Own(s[m].1)
    ensures var m := |s| - 1;
      && (Sorted(LeftNodes(s)) ==> Sorted(LeftNodes(s[..m])))
      && (Sorted(RightNodes(s)) ==> Sorted(RightNodes(s[..m])))
  {
    var m := |s| - 1;
    var n, o := s[m].0, Nodes(s[m].1);
    if Sorted(LeftNodes(s)) {
      SortedConcat(LeftNodes(s[..m]) + o, [n]);
      SortedConcat(LeftNodes(s[..m]), o);
    }
    if Sorted(RightNodes(s)) {
      SortedConcat([n] + o, RightNodes(s[..m]));
      SortedConcat([n], o);
    }
    assert n in [n];
    SpineOwnIs(s[..m], n);
    OwnIs(s[m].1, n);
    forall x | x in SpineOwn(s[..m]) ensures x !in Own(s[m].1) {
      SpineOwnIs(s[..m], x);
      OwnIs(s[m].1, x);
    }
  }

  /** The chains, the tree between them and the dummy have no node in common. */
  ghost predicate Apart<V>(dummy: Node<V>, L: Spine<V>, R: Spine<V>, t: Shape<V>) {
    && SpineOwn(L) !! Own(t) && SpineOwn(R) !! Own(t) && SpineOwn(L) !! SpineOwn(R)
    && dummy !in SpineOwn(L) && dummy !in SpineOwn(R) && dummy !in Own(t)
    && Sorted(LeftNodes(L)) && Sorted(Nodes(t)) && Sorted(RightNodes(R))
  }

  ghost function Members<V>(s: seq<Node<V>>): set<Node<V>> {
    set x | x in s
  }

  /** Where the loop is: in order, the chains and the tree are all the nodes, the key is between. */
  ghost predicate Between<V>(L: Spine<V>, t: Shape<V>, R: Spine<V>, all: seq<Node<V>>, key: int) {
    && LeftNodes(L) + Nodes(t) + RightNodes(R) == all
    && AllBelow(LeftNodes(L), key) && AllAbove(RightNodes(R), key)
  }

  /** A node above the key joins the chain on the right with its right subtree. */
  lemma BetweenRight<V>(L: Spine<V>, t: Shape<V>, R: Spine<V>, all: seq<Node<V>>, key: int)
    requires Between(L, t, R, all, key) && t.Branch? && key < t.node.key && Sorted(Nodes(t))
    ensures Between(L, t.left, R + [(t.node, t.right)], all, key)
  {
    var s, a, b, c := R + [(t.node, t.right)], Nodes(t.left), Nodes(t.right), RightNodes(R);
    assert s[..|R|] == R;
    assert RightNodes(s) == [t.node] + b + c;
    BranchApart(t);
    RegroupRight(LeftNodes(L), a, [t.node], b, c);
  }

  lemma RegroupLeft<X>(a: seq<X>, b: seq<X>, n: seq<X>, c: seq<X>, r: seq<X>)
    ensures a + (b + n + c) + r == a + b + n + c + r
  {
  }

  lemma RegroupRight<X>(l: seq<X>, a: seq<X>, n: seq<X>, b: seq<X>, c: seq<X>)
    ensures l + (a + n + b) + c == l + a + (n + b + c)
  {
  }

  /** And a node below it the chain on the left. */
  lemma BetweenLeft<V>(L: Spine<V>, t: Shape<V>, R: Spine<V>, all: seq<Node<V>>, key: int)
    requires Between(L, t, R, all, key) && t.Branch? && t.node.key < key && Sorted(Nodes(t))
    ensures Between(L + [(t.node, t.left)], t.right, R, all, key)
  {
    var s, a, b, c := L + [(t.node, t.left)], LeftNodes(L), Nodes(t.left), Nodes(t.right);
    assert s[..|L|] == L;
    assert LeftNodes(s) == a + b + [t.node];
    BranchApart(t);
    RegroupLeft(a, b, [t.node], c, RightNodes(R));
  }

  lemma BetweenApart<V>(dummy: Node<V>, L: Spine<V>, t: Shape<V>, R: Spine<V>, all: seq<Node<V>>, key: int)
    requires Between(L, t, R, all, key) && Sorted(all) && dummy !in all
    ensures Apart(dummy, L, R, t)
    ensures SpineOwn(L) <= Members(all) && Own(t) <= Members(all) && SpineOwn(R) <= Members(all)
  {
    LeftMembers(L);
    RightMembers(R);
    OwnMembers(t);
    MembersApart(LeftNodes(L), Nodes(t), RightNodes(R), dummy);
  }

  lemma MembersConcat<V>(a: seq<Node<V>>, b: seq<Node<V>>)
    ensures Members(a + b) == Members(a) + Members(b)
  {
  }

  lemma {:induction false} OwnMembers<V>(t: Shape<V>)
    ensures Own(t) == Members(Nodes(t))
    decreases t
  {
    if t.Branch? {
      OwnMembers(t.left);
      OwnMembers(t.right);
      MembersConcat(Nodes(t.left), [t.node]);
      MembersConcat(Nodes(t.left) + [t.node], Nodes(t.right));
      assert Members([t.node]) == {t.node};
    }
  }

  lemma {:induction false} LeftMembers<V>(s: Spine<V>)
    ensures SpineOwn(s) == Members(LeftNodes(s))
    decreases |s|
  {
    if |s| > 0 {
      var m := |s| - 1;
      LeftMembers(s[..m]);
      OwnMembers(s[m].1);
      MembersConcat(LeftNodes(s[..m]), Nodes(s[m].1));
      MembersConcat(LeftNodes(s[..m]) + Nodes(s[m].1), [s[m].0]);
      assert Members([s[m].0]) == {s[m].0};
    }
  }

  lemma {:induction false} RightMembers<V>(s: Spine<V>)
    ensures SpineOwn(s) == Members(RightNodes(s))
    decreases |s|
  {
    if |s| > 0 {
      var m := |s| - 1;
      RightMembers(s[..m]);
      OwnMembers(s[m].1);
      MembersConcat([s[m].0], Nodes(s[m].1));
      MembersConcat([s[m].0] + Nodes(s[m].1), RightNodes(s[..m]));
      assert Members([s[m].0]) == {s[m].0};
    }
  }

  lemma MembersApart<V>(a: seq<Node<V>>, b: seq<Node<V>>, c: seq<Node<V>>, dummy: Node<V>)
    requires Sorted(a + b + c) && dummy !in a + b + c
    ensures var A, M, C, all := Members(a), Members(b), Members(c), Members(a + b + c);
      && A !! M && C !! M && A !! C && dummy !in A && dummy !in M && dummy !in C
      && A <= all && M <= all && C <= all
    ensures Sorted(a) && Sorted(b) && Sorted(c)
  {
    SortedTriple(a, b, c);
  }

  lemma SortedTriple<V>(a: seq<Node<V>>, b: seq<Node<V>>, c: seq<Node<V>>)
    requires Sorted(a + b + c)
    ensures Sorted(a) && Sorted(b) && Sorted(c)
    ensures forall x :: !(x in a && x in b) && !(x in b && x in c) && !(x in a && x in c)
  {
    SortedConcat(a + b, c);
    SortedConcat(a, b);
    assert forall x :: x in a || x in b ==> x in a + b;
  }

  /** Rotate right. */
  method RotateRight<V>(current: Node<V>, ghost t: Shape<V>) returns (tmp: Node<V>, ghost t': Shape<V>)
    requires Is(current, t) && t.Branch? && t.left.Branch? && Sorted(Nodes(t))
    modifies t.node, t.left.node
    ensures t' == Branch(t.left.left, t.left.node, Branch(t.left.right, t.node, t.right))
    ensures Is(tmp, t') && Nodes(t') == Nodes(t) && Own(t') == Own(t)
  {
    BranchApart(t);
    BranchApart(t.left);
    tmp := current.left;
    current.left := tmp.right;
    tmp.right := current;
    t' := Branch(t.left.left, t.left.node, Branch(t.left.right, t.node, t.right));
  }

  /** Rotate left. */
  method RotateLeft<V>(current: Node<V>, ghost t: Shape<V>) returns (tmp: Node<V>, ghost t': Shape<V>)
    requires Is(current, t) && t.Branch? && t.right.Branch? && Sorted(Nodes(t))
    modifies t.node, t.right.node
    ensures t' == Branch(Branch(t.left, t.node, t.right.left), t.right.node, t.right.right)
    ensures Is(tmp, t') && Nodes(t') == Nodes(t) && Own(t') == Own(t)
  {
    BranchApart(t);
    BranchApart(t.right);
    tmp := current.right;
    current.right := tmp.left;
    tmp.left := current;
    t' := Branch(Branch(t.left, t.node, t.right.left), t.right.node, t.right.right);
  }

  /** Link right: the current node joins the chain on the right, with its right subtree. */
  method LinkRight<V>(dummy: Node<V>, right: Node<V>, current: Node<V>, ghost L: Spine<V>, ghost R: Spine<V>,
      ghost t: Shape<V>)
    requires t.Branch? && Is(current, t) && LeftSpine(dummy, L) && RightSpine(dummy, R) && right == Last(dummy, R)
    requires Apart(dummy, L, R, t)
    modifies right`left
    ensures LeftSpine(dummy, L) && RightSpine(dummy, R + [(current, t.right)]) && Is(current.left, t.left)
    ensures current == Last(dummy, R + [(current, t.right)])
  {
    ghost var s, m := R + [(current, t.right)], |R|;
    assert s[..m] == R;
    if m > 0 { LastOnce(R); }
    right.left := current;
    if m > 0 { assert RightSpine(dummy, R[..m - 1]); }
  }

  /** Link left. */
  method LinkLeft<V>(dummy: Node<V>, left: Node<V>, current: Node<V>, ghost L: Spine<V>, ghost R: Spine<V>,
      ghost t: Shape<V>)
    requires t.Branch? && Is(current, t) && LeftSpine(dummy, L) && RightSpine(dummy, R) && left == Last(dummy, L)
    requires Apart(dummy, L, R, t)
    modifies left`right
    ensures RightSpine(dummy, R) && LeftSpine(dummy, L + [(current, t.left)]) && Is(current.right, t.right)
    ensures current == Last(dummy, L + [(current, t.left)])
  {
    ghost var s, m := L + [(current, t.left)], |L|;
    assert s[..m] == L;
    if m > 0 { LastOnce(L); }
    left.right := current;
    if m > 0 { assert LeftSpine(dummy, L[..m - 1]); }
  }

  /** Of the nodes, those before the root are below the key unless the root is, and those after it above. */
  ghost predicate Closest<V>(t: Shape<V>, key: int) {
    && t.Branch?
    && (t.node.key >= key ==> AllBelow(Nodes(t.left), key))
    && (t.node.key <= key ==> AllAbove(Nodes(t.right), key))
  }

  /** What the loop holds between its steps. */
  ghost predicate Looping<V>(dummy: Node<V>, L: Spine<V>, R: Spine<V>, current: Node<V>, t: Shape<V>,
      all: seq<Node<V>>, key: int)
    reads dummy, SpineOwn(L), SpineOwn(R), Own(t)
  {
    && t.Branch? && Is(current, t) && LeftSpine(dummy, L) && RightSpine(dummy, R)
    && Between(L, t, R, all, key) && Apart(dummy, L, R, t)
    && SpineOwn(L) <= Members(all) && Own(t) <= Members(all) && SpineOwn(R) <= Members(all)
  }

  /** A rotation leaves the chains alone. */
  method TurnRight<V>(dummy: Node<V>, ghost L: Spine<V>, ghost R: Spine<V>, current0: Node<V>, ghost t0: Shape<V>,
      ghost all: seq<Node<V>>, ghost key: int) returns (current: Node<V>, ghost t: Shape<V>)
    requires Looping(dummy, L, R, current0, t0, all, key) && t0.left.Branch?
    modifies Own(t0)
    ensures Looping(dummy, L, R, current, t, all, key) && t == RotatedRight(t0) && Nodes(t) == Nodes(t0)
    ensures Own(t) == Own(t0)
  {
    assert t0.node in Own(t0) && t0.left.node in Own(t0);
    SpineAllocated(L);
    SpineAllocated(R);
    current, t := RotateRight(current0, t0);
    assert LeftSpine(dummy, L) == old(LeftSpine(dummy, L));
    assert RightSpine(dummy, R) == old(RightSpine(dummy, R));
  }

  method TurnLeft<V>(dummy: Node<V>, ghost L: Spine<V>, ghost R: Spine<V>, current0: Node<V>, ghost t0: Shape<V>,
      ghost all: seq<Node<V>>, ghost key: int) returns (current: Node<V>, ghost t: Shape<V>)
    requires Looping(dummy, L, R, current0, t0, all, key) && t0.right.Branch?
    modifies Own(t0)
    ensures Looping(dummy, L, R, current, t, all, key) && t == RotatedLeft(t0) && Nodes(t) == Nodes(t0)
    ensures Own(t) == Own(t0)
  {
    assert t0.node in Own(t0) && t0.right.node in Own(t0);
    SpineAllocated(L);
    SpineAllocated(R);
    current, t := RotateLeft(current0, t0);
    assert LeftSpine(dummy, L) == old(LeftSpine(dummy, L));
    assert RightSpine(dummy, R) == old(RightSpine(dummy, R));
  }

  /** The half of the loop body for a key below the current one; done when there is nothing further left. */
  method GoLeft<V>(dummy: Node<V>, right0: Node<V>, current0: Node<V>, key: int, ghost L: Spine<V>, ghost R0: Spine<V>,
      ghost t0: Shape<V>, ghost all: seq<Node<V>>, ghost path: seq<Node<V>>, ghost c: nat)
    returns (done: bool, right: Node<V>, current: Node<V>, ghost R: Spine<V>, ghost t: Shape<V>, ghost c': nat)
    requires Looping(dummy, L, R0, current0, t0, all, key) && Sorted(all) && dummy !in all
    requires right0 == Last(dummy, R0) && key < current0.key && Halving(path, c, L, R0, t0, key)
    modifies right0`left, Own(t0)
    ensures if done then Ended(path, L, R, t) else Halving(path, c', L, R, t, key)
    ensures Looping(dummy, L, R, current, t, all, key) && right == Last(dummy, R)
    ensures done ==> t.left.Leaf? && key < t.node.key
    ensures !done ==> |Nodes(t)| < |Nodes(t0)|
  {
    done, right, current, R, t, c' := true, right0, current0, R0, t0, c + 1;
    RootIs(current.left, t.left);
    if current.left == null {
      EndedAt(path, c, L, R, t, key);
      return;
    }
    if key < current.left.key {
      current, t := TurnRight(dummy, L, R, current, t, all, key);
      RootIs(current.left, t.left);
      RotatedEnds(path, c, L, R, t0, key);
      if current.left == null { return; }
      TwoLinkedRight(path, c, L, R, t0, key);
      c' := c + 2;
    } else {
      OneLinked(path, c, L, R, t, key);
    }
    right, current, R, t := StepRight(dummy, right, current, key, L, R, t, all);
    done := false;
  }

  /** The link, and on to the left. */
  method StepRight<V>(dummy: Node<V>, right0: Node<V>, current0: Node<V>, key: int, ghost L: Spine<V>,
      ghost R0: Spine<V>,
      ghost t0: Shape<V>, ghost all: seq<Node<V>>)
    returns (right: Node<V>, current: Node<V>, ghost R: Spine<V>, ghost t: Shape<V>)
    requires Looping(dummy, L, R0, current0, t0, all, key) && Sorted(all) && dummy !in all
    requires right0 == Last(dummy, R0) && key < current0.key && t0.left.Branch?
    modifies right0`left
    ensures Looping(dummy, L, R, current, t, all, key) && right == Last(dummy, R)
    ensures R == R0 + [(t0.node, t0.right)] && t == t0.left
    ensures |Nodes(t)| < |Nodes(t0)|
  {
    BetweenRight(L, t0, R0, all, key);
    LinkRight(dummy, right0, current0, L, R0, t0);
    right, current := current0, current0.left;
    R, t := R0 + [(current0, t0.right)], t0.left;
    BetweenApart(dummy, L, t, R, all, key);
  }

  /** The half of the loop body for a key above the current one. */
  method GoRight<V>(dummy: Node<V>, left0: Node<V>, current0: Node<V>, key: int, ghost L0: Spine<V>, ghost R: Spine<V>,
      ghost t0: Shape<V>, ghost all: seq<Node<V>>, ghost path: seq<Node<V>>, ghost c: nat)
    returns (done: bool, left: Node<V>, current: Node<V>, ghost L: Spine<V>, ghost t: Shape<V>, ghost c': nat)
    requires Looping(dummy, L0, R, current0, t0, all, key) && Sorted(all) && dummy !in all
    requires left0 == Last(dummy, L0) && current0.key < key && Halving(path, c, L0, R, t0, key)
    modifies left0`right, Own(t0)
    ensures if done then Ended(path, L, R, t) else Halving(path, c', L, R, t, key)
    ensures Looping(dummy, L, R, current, t, all, key) && left == Last(dummy, L)
    ensures done ==> t.right.Leaf? && t.node.key < key
    ensures !done ==> |Nodes(t)| < |Nodes(t0)|
  {
    done, left, current, L, t, c' := true, left0, current0, L0, t0, c + 1;
    RootIs(current.right, t.right);
    if current.right == null {
      EndedAt(path, c, L, R, t, key);
      return;
    }
    if key > current.right.key {
      current, t := TurnLeft(dummy, L, R, current, t, all, key);
      RootIs(current.right, t.right);
      RotatedEnds(path, c, L, R, t0, key);
      if current.right == null { return; }
      TwoLinkedLeft(path, c, L, R, t0, key);
      c' := c + 2;
    } else {
      OneLinked(path, c, L, R, t, key);
    }
    left, current, L, t := StepLeft(dummy, left, current, key, L, R, t, all);
    done := false;
  }

  method StepLeft<V>(dummy: Node<V>, left0: Node<V>, current0: Node<V>, key: int, ghost L0: Spine<V>, ghost R: Spine<V>,
      ghost t0: Shape<V>, ghost all: seq<Node<V>>)
    returns (left: Node<V>, current: Node<V>, ghost L: Spine<V>, ghost t: Shape<V>)
    requires Looping(dummy, L0, R, current0, t0, all, key) && Sorted(all) && dummy !in all
    requires left0 == Last(dummy, L0) && current0.key < key && t0.right.Branch?
    modifies left0`right
    ensures Looping(dummy, L, R, current, t, all, key) && left == Last(dummy, L)
    ensures L == L0 + [(t0.node, t0.left)] && t == t0.right
    ensures |Nodes(t)| < |Nodes(t0)|
  {
    BetweenLeft(L0, t0, R, all, key);
    LinkLeft(dummy, left0, current0, L0, R, t0);
    left, current := current0, current0.right;
    L, t := L0 + [(current0, t0.left)], t0.right;
    BetweenApart(dummy, L, t, R, all, key);
  }

  /** left.right = current.left: the chain on the left is closed. */
  method CloseLeft<V>(dummy: Node<V>, left: Node<V>, current: Node<V>, ghost L: Spine<V>, ghost R: Spine<V>,
      ghost t: Shape<V>)
    requires t.Branch? && Is(current, t) && LeftSpine(dummy, L) && RightSpine(dummy, R) && left == Last(dummy, L)
    requires Apart(dummy, L, R, t)
    modifies left`right
    ensures RightSpine(dummy, R) && Is(current.right, t.right)
    ensures Is(dummy.right, FoldLeft(L, t.left))
  {
    if |L| > 0 { LastOnce(L); }
    left.right := current.left;
    if |L| > 0 { assert LeftSpine(dummy, L[..|L| - 1]); }
    FoldLeftIs(dummy, L, t.left);
  }

  /** right.left = current.right */
  method CloseRight<V>(dummy: Node<V>, right: Node<V>, current: Node<V>, ghost f: Shape<V>, ghost R: Spine<V>,
      ghost t: Shape<V>)
    requires t.Branch? && current == t.node && Is(current.right, t.right) && RightSpine(dummy, R) &&
      right == Last(dummy, R)
    requires Is(dummy.right, f) && Apart(dummy, [], R, t) && Own(f) !! SpineOwn(R) && dummy !in Own(f)
    modifies right`left
    ensures Is(dummy.right, f)
    ensures Is(dummy.left, FoldRight(R, t.right))
  {
    if |R| > 0 { LastOnce(R); }
    right.left := current.right;
    if |R| > 0 { assert RightSpine(dummy, R[..|R| - 1]); }
    FoldRightIs(dummy, R, t.right);
  }

  /** Assemble. */
  method Assemble<V>(dummy: Node<V>, left: Node<V>, right: Node<V>, current: Node<V>, key: int, ghost L: Spine<V>,
      ghost R: Spine<V>, ghost t: Shape<V>, ghost all: seq<Node<V>>) returns (ghost t': Shape<V>)
    requires Looping(dummy, L, R, current, t, all, key) && left == Last(dummy, L) && right == Last(dummy, R)
    modifies left`right, right`left, current
    ensures Is(current, t') && Nodes(t') == all
    ensures t' == Branch(FoldLeft(L, t.left), t.node, FoldRight(R, t.right))
    ensures t'.Branch? && t'.node == current && Nodes(t'.left) == LeftNodes(L) + Nodes(t.left)
    ensures Nodes(t'.right) == Nodes(t.right) + RightNodes(R)
  {
    BranchApart(t);
    ghost var f, g := FoldLeft(L, t.left), FoldRight(R, t.right);
    FoldOwn(L, t.left);
    FoldOwn(R, t.right);
    FoldLeftNodes(L, t.left);
    FoldRightNodes(R, t.right);
    CloseLeft(dummy, left, current, L, R, t);
    CloseRight(dummy, right, current, f, R, t);
    t' := Hang(dummy, current, f, g);
    AllNodes(L, t, R, t');
  }

  /** current.left = dummy.right; current.right = dummy.left; */
  method Hang<V>(dummy: Node<V>, current: Node<V>, ghost f: Shape<V>, ghost g: Shape<V>) returns (ghost t: Shape<V>)
    requires Is(dummy.right, f) && Is(dummy.left, g) && dummy != current
    requires current !in Own(f) && current !in Own(g)
    modifies current
    ensures t == Branch(f, current, g) && Is(current, t)
  {
    current.left := dummy.right;
    current.right := dummy.left;
    t := Branch(f, current, g);
  }

  lemma AllNodes<V>(L: Spine<V>, t: Shape<V>, R: Spine<V>, t': Shape<V>)
    requires t.Branch? && t'.Branch? && t'.node == t.node
    requires Nodes(t'.left) == LeftNodes(L) + Nodes(t.left) && Nodes(t'.right) == Nodes(t.right) + RightNodes(R)
    ensures Nodes(t') == LeftNodes(L) + Nodes(t) + RightNodes(R)
  {
    Regroup(LeftNodes(L), Nodes(t.left), [t.node], Nodes(t.right), RightNodes(R));
  }

  lemma Regroup<X>(a: seq<X>, b: seq<X>, n: seq<X>, c: seq<X>, d: seq<X>)
    ensures a + b + n + (c + d) == a + (b + n + c) + d
  {
  }

  /** The loop has come to the key, or to where it would be. */
  ghost predicate AtKey<V>(t: Shape<V>, key: int) {
    && t.Branch? && (key < t.node.key ==> t.left.Leaf?) && (t.node.key < key ==> t.right.Leaf?)
  }

  lemma ClosestThen<V>(L: Spine<V>, t: Shape<V>, R: Spine<V>, t': Shape<V>, all: seq<Node<V>>, key: int)
    requires Between(L, t, R, all, key) && AtKey(t, key) && Sorted(Nodes(t)) && t'.Branch? && t'.node == t.node
    requires Nodes(t'.left) == LeftNodes(L) + Nodes(t.left) && Nodes(t'.right) == Nodes(t.right) + RightNodes(R)
    ensures Closest(t', key)
  {
    BranchApart(t);
  }

  lemma StartBetween<V>(dummy: Node<V>, t: Shape<V>, key: int)
    requires Sorted(Nodes(t)) && dummy !in Own(t)
    ensures Between([], t, [], Nodes(t), key) && Apart(dummy, [], [], t) && dummy !in Nodes(t)
    ensures Members(Nodes(t)) == Own(t)
  {
    OwnMembers(t);
  }

  /** `splay_`: the nodes stay in order, the root is the node of the key or one next to its place, and the nodes that
      the search has met lie at most at half their depth and two more. */
  method Splay<V>(root: Node<V>, key: int, ghost t0: Shape<V>) returns (current: Node<V>, ghost t: Shape<V>)
    requires Is(root, t0) && Sorted(Nodes(t0))
    modifies Own(t0)
    ensures Is(current, t) && Nodes(t) == Nodes(t0) && Own(t) == Own(t0) && Closest(t, key)
    ensures Halved(Path(t0, key), t)
  {
    OwnAllocated(t0);
    var dummy := new Node<V>(root.key, root.value);
    var left, right := dummy, dummy;
    current, t := root, t0;
    ghost var L: Spine<V>, R: Spine<V> := [], [];
    ghost var all, path, c := Nodes(t0), Path(t0, key), 0;
    StartBetween(dummy, t0, key);
    StartHalving(t0, key);
    while true
      invariant Looping(dummy, L, R, current, t, all, key) && left == Last(dummy, L) && right == Last(dummy, R)
      invariant fresh(dummy) && Halving(path, c, L, R, t, key)
      decreases |Nodes(t)|
    {
      var done;
      if key < current.key {
        done, right, current, R, t, c := GoLeft(dummy, right, current, key, L, R, t, all, path, c);
        if done { break; }
      } else if key > current.key {
        done, left, current, L, t, c := GoRight(dummy, left, current, key, L, R, t, all, path, c);
        if done { break; }
      } else {
        EndedAt(path, c, L, R, t, key);
        break;
      }
    }
    ThenHalved(path, L, R, t);
    ghost var t1 := t;
    t := Assemble(dummy, left, right, current, key, L, R, t1, all);
    ClosestThen(L, t1, R, t, all, key);
    OwnMembers(t0);
    OwnMembers(t);
  }
}
