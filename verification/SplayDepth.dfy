/** How deep the nodes on the search path lie before and after splaying, in jni/v8core/v8/benchmarks/splay.js. */
module SplayDepths {
  import opened SplayNodes

  /** The nodes that a search for the key meets. */
  ghost function Path<V>(t: Shape<V>, key: int): seq<Node<V>> {
    if t.Leaf? then []
    else [t.node] + if key < t.node.key then Path(t.left, key) else if key > t.node.key then Path(t.right, key) else []
  }

  ghost predicate AtDepth<V>(t: Shape<V>, n: Node<V>, d: nat)
    decreases t
  {
    t.Branch? && if d == 0 then t.node == n else AtDepth(t.left, n, d - 1) || AtDepth(t.right, n, d - 1)
  }

  /** No deeper than d. */
  ghost predicate Within<V>(t: Shape<V>, n: Node<V>, d: nat) {
    exists e: nat :: e <= d && AtDepth(t, n, e)
  }

  /** Every node on the path is at most at half its depth and two more. */
  ghost predicate Halved<V>(path: seq<Node<V>>, t: Shape<V>) {
    forall k {:trigger path[k]} :: 0 <= k < |path| ==> Within(t, path[k], k / 2 + 2)
  }

  ghost predicate IsRoot<V>(t: Shape<V>, n: Node<V>) {
    t.Branch? && t.node == n
  }

  /** The node is in link i of the chain, or the root of the subtree there. */
  ghost predicate InLink<V>(s: Spine<V>, n: Node<V>, i: nat) {
    i < |s| && (s[i].0 == n || IsRoot(s[i].1, n))
  }

  /** The node that was at depth k is in a chain, no further down than k / 2. */
  ghost predicate Linked<V>(L: Spine<V>, R: Spine<V>, n: Node<V>, k: nat) {
    exists i: nat :: 2 * i <= k && (InLink(L, n, i) || InLink(R, n, i))
  }

  /** c nodes of the path have been linked. A chain grows by one link for two nodes; and if it has one more, the other
      chain grows next. */
  ghost predicate Halving<V>(path: seq<Node<V>>, c: nat, L: Spine<V>, R: Spine<V>, t: Shape<V>, key: int) {
    && c <= |path| && Path(t, key) == path[c..]
    && (forall k: nat {:trigger path[k]} :: k < c ==> Linked(L, R, path[k], k))
    && 2 * |R| <= c + 1 && (2 * |R| == c + 1 && t.Branch? ==> key >= t.node.key)
    && 2 * |L| <= c + 1 && (2 * |L| == c + 1 && t.Branch? ==> key <= t.node.key)
  }

  /** The loop has come to its end: a last node may have been rotated below the root. */
  ghost predicate Ended<V>(path: seq<Node<V>>, L: Spine<V>, R: Spine<V>, t: Shape<V>) {
    forall k: nat {:trigger path[k]} :: k < |path| ==>
      || Linked(L, R, path[k], k) || IsRoot(t, path[k])
      || (t.Branch? && IsRoot(t.right, path[k]) && 2 * |R| <= k + 1)
      || (t.Branch? && IsRoot(t.left, path[k]) && 2 * |L| <= k + 1)
  }

  lemma StartHalving<V>(t: Shape<V>, key: int)
    ensures Halving(Path(t, key), 0, [], [], t, key)
  {
  }

  /** One more link leaves the others where they are. */
  lemma StillLinked<V>(L: Spine<V>, R: Spine<V>, L': Spine<V>, R': Spine<V>, n: Node<V>, k: nat)
    requires Linked(L, R, n, k) && L <= L' && R <= R'
    ensures Linked(L', R', n, k)
  {
    var i: nat :| 2 * i <= k && (InLink(L, n, i) || InLink(R, n, i));
    assert InLink(L, n, i) ==> L'[i] == L[i];
    assert InLink(R, n, i) ==> R'[i] == R[i];
    assert InLink(L', n, i) || InLink(R', n, i);
  }

  /** The current node is linked. */
  lemma OneLinked<V>(path: seq<Node<V>>, c: nat, L: Spine<V>, R: Spine<V>, t: Shape<V>, key: int)
    requires Halving(path, c, L, R, t, key) && t.Branch?
    ensures key < t.node.key && t.left.Branch? && key >= t.left.node.key ==>
      Halving(path, c + 1, L, R + [(t.node, t.right)], t.left, key)
    ensures key > t.node.key && t.right.Branch? && key <= t.right.node.key ==>
      Halving(path, c + 1, L + [(t.node, t.left)], R, t.right, key)
  {
    assert path[c..][0] == path[c] && path[c..][1..] == path[c + 1..];
    if key < t.node.key {
      var R' := R + [(t.node, t.right)];
      assert InLink(R', t.node, |R|) && Linked(L, R', path[c], c);
      forall k: nat | k < c ensures Linked(L, R', path[k], k) { StillLinked(L, R, L, R', path[k], k); }
    } else if key > t.node.key {
      var L' := L + [(t.node, t.left)];
      assert InLink(L', t.node, |L|) && Linked(L', R, path[c], c);
      forall k: nat | k < c ensures Linked(L', R, path[k], k) { StillLinked(L, R, L', R, path[k], k); }
    }
  }

  ghost function RotatedRight<V>(t: Shape<V>): Shape<V>
    requires t.Branch? && t.left.Branch?
  {
    Branch(t.left.left, t.left.node, Branch(t.left.right, t.node, t.right))
  }

  ghost function RotatedLeft<V>(t: Shape<V>): Shape<V>
    requires t.Branch? && t.right.Branch?
  {
    Branch(Branch(t.left, t.node, t.right.left), t.right.node, t.right.right)
  }

  lemma PathTwo<V>(path: seq<Node<V>>, c: nat, t: Shape<V>, u: Shape<V>, v: Shape<V>, key: int)
    requires c <= |path| && Path(t, key) == path[c..] && t.Branch? && u.Branch?
    requires Path(t, key) == [t.node] + Path(u, key) && Path(u, key) == [u.node] + Path(v, key)
    ensures c + 2 <= |path| && path[c] == t.node && path[c + 1] == u.node && Path(v, key) == path[c + 2..]
  {
    assert path[c..][0] == path[c] && path[c..][1] == path[c + 1] && path[c..][2..] == path[c + 2..];
    assert Path(t, key)[2..] == Path(v, key);
  }

  lemma PairLinked<V>(path: seq<Node<V>>, c: nat, L: Spine<V>, R: Spine<V>, L': Spine<V>, R': Spine<V>, i: nat)
    requires c + 2 <= |path| && 2 * i <= c && L <= L' && R <= R'
    requires forall k: nat {:trigger path[k]} :: k < c ==> Linked(L, R, path[k], k)
    requires InLink(L', path[c], i) || InLink(R', path[c], i)
    requires InLink(L', path[c + 1], i) || InLink(R', path[c + 1], i)
    ensures forall k: nat {:trigger path[k]} :: k < c + 2 ==> Linked(L', R', path[k], k)
  {
    forall k: nat | k < c + 2 ensures Linked(L', R', path[k], k) {
      if k < c { StillLinked(L, R, L', R', path[k], k); }
    }
  }

  /** Two nodes are linked as one, after a rotation. */
  lemma TwoLinkedRight<V>(path: seq<Node<V>>, c: nat, L: Spine<V>, R: Spine<V>, t: Shape<V>, key: int)
    requires Halving(path, c, L, R, t, key) && t.Branch? && t.left.Branch? && key < t.node.key && key < t.left.node.key
    requires t.left.left.Branch?
    ensures var u := RotatedRight(t); Halving(path, c + 2, L, R + [(u.node, u.right)], u.left, key)
  {
    var u := RotatedRight(t);
    var R' := R + [(u.node, u.right)];
    PathTwo(path, c, t, t.left, t.left.left, key);
    assert R'[|R|] == (u.node, u.right);
    PairLinked(path, c, L, R, L, R', |R|);
  }

  lemma TwoLinkedLeft<V>(path: seq<Node<V>>, c: nat, L: Spine<V>, R: Spine<V>, t: Shape<V>, key: int)
    requires Halving(path, c, L, R, t, key) && t.Branch? && t.right.Branch?
    requires key > t.node.key && key > t.right.node.key
    requires t.right.right.Branch?
    ensures var u := RotatedLeft(t); Halving(path, c + 2, L + [(u.node, u.left)], R, u.right, key)
  {
    var u := RotatedLeft(t);
    var L' := L + [(u.node, u.left)];
    PathTwo(path, c, t, t.right, t.right.right, key);
    assert L'[|L|] == (u.node, u.left);
    PairLinked(path, c, L, R, L', R, |L|);
  }

  /** The rotation was the last step. */
  lemma RotatedEnds<V>(path: seq<Node<V>>, c: nat, L: Spine<V>, R: Spine<V>, t: Shape<V>, key: int)
    requires Halving(path, c, L, R, t, key) && t.Branch?
    ensures t.left.Branch? && key < t.node.key && key < t.left.node.key && t.left.left.Leaf? ==>
      Ended(path, L, R, RotatedRight(t))
    ensures t.right.Branch? && key > t.node.key && key > t.right.node.key && t.right.right.Leaf? ==>
      Ended(path, L, R, RotatedLeft(t))
  {
    if t.left.Branch? && key < t.node.key && key < t.left.node.key && t.left.left.Leaf? {
      PathTwo(path, c, t, t.left, t.left.left, key);
    } else if t.right.Branch? && key > t.node.key && key > t.right.node.key && t.right.right.Leaf? {
      PathTwo(path, c, t, t.right, t.right.right, key);
    }
  }

  /** The search ends at the current node. */
  lemma EndedAt<V>(path: seq<Node<V>>, c: nat, L: Spine<V>, R: Spine<V>, t: Shape<V>, key: int)
    requires Halving(path, c, L, R, t, key) && t.Branch? && (key < t.node.key ==> t.left.Leaf?)
    requires key > t.node.key ==> t.right.Leaf?
    ensures Ended(path, L, R, t)
  {
    assert Path(t, key) == [t.node];
    assert path[c..][0] == path[c];
  }

  lemma {:induction false} FoldDepth<V>(s: Spine<V>, t: Shape<V>, n: Node<V>, d: nat)
    requires AtDepth(t, n, d)
    ensures AtDepth(FoldLeft(s, t), n, |s| + d) && AtDepth(FoldRight(s, t), n, |s| + d)
    decreases |s|
  {
    if |s| > 0 {
      var m := |s| - 1;
      FoldDepth(s[..m], Branch(s[m].1, s[m].0, t), n, d + 1);
      FoldDepth(s[..m], Branch(t, s[m].0, s[m].1), n, d + 1);
    }
  }

  lemma {:induction false} LinkDepth<V>(s: Spine<V>, t: Shape<V>, n: Node<V>, i: nat)
    requires InLink(s, n, i)
    ensures Within(FoldLeft(s, t), n, i + 1) && Within(FoldRight(s, t), n, i + 1)
    decreases |s|
  {
    var m := |s| - 1;
    var u, v := Branch(s[m].1, s[m].0, t), Branch(t, s[m].0, s[m].1);
    if i < m {
      assert InLink(s[..m], n, i);
      LinkDepth(s[..m], u, n, i);
      LinkDepth(s[..m], v, n, i);
    } else {
      var d := if s[m].0 == n then 0 else 1;
      assert d == 1 ==> AtDepth(s[m].1, n, 0);
      assert AtDepth(u, n, d) && AtDepth(v, n, d);
      FoldDepth(s[..m], u, n, d);
      FoldDepth(s[..m], v, n, d);
    }
  }

  lemma BranchWithin<V>(l: Shape<V>, n0: Node<V>, r: Shape<V>, n: Node<V>, d: nat)
    requires Within(l, n, d) || Within(r, n, d)
    ensures Within(Branch(l, n0, r), n, d + 1)
  {
    var e: nat :| e <= d && (AtDepth(l, n, e) || AtDepth(r, n, e));
    assert AtDepth(Branch(l, n0, r), n, e + 1);
  }

  /** The chains closed, the path has been halved. */
  lemma ThenHalved<V>(path: seq<Node<V>>, L: Spine<V>, R: Spine<V>, t: Shape<V>)
    requires Ended(path, L, R, t) && t.Branch?
    ensures Halved(path, Branch(FoldLeft(L, t.left), t.node, FoldRight(R, t.right)))
  {
    var f, g := FoldLeft(L, t.left), FoldRight(R, t.right);
    forall k: nat | k < |path| ensures Within(Branch(f, t.node, g), path[k], k / 2 + 2) {
      if Linked(L, R, path[k], k) {
        var i: nat :| 2 * i <= k && (InLink(L, path[k], i) || InLink(R, path[k], i));
        if InLink(L, path[k], i) { LinkDepth(L, t.left, path[k], i); } else { LinkDepth(R, t.right, path[k], i); }
        BranchWithin(f, t.node, g, path[k], i + 1);
      } else if IsRoot(t, path[k]) {
        assert AtDepth(Branch(f, t.node, g), path[k], 0);
      } else if IsRoot(t.right, path[k]) && 2 * |R| <= k + 1 {
        FoldDepth(R, t.right, path[k], 0);
        BranchWithin(f, t.node, g, path[k], |R|);
      } else {
        FoldDepth(L, t.left, path[k], 0);
        BranchWithin(f, t.node, g, path[k], |L|);
      }
    }
  }
}
