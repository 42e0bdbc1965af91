/**
  The nodes of the splay tree in jni/v8core/v8/benchmarks/splay.js, and what they form in memory.

  A `Shape` is a tree as a value, with the node objects in it; `Is` says that the fields of those
  objects link them up that way.
*/
module SplayNodes {

  class Node<V> {
    const key: int
    const value: V
    var left: Node?<V>
    var right: Node?<V>

    constructor (key: int, value: V)
      ensures this.key == key && this.value == value && left == null && right == null
    {
      this.key, this.value := key, value;
      left, right := null, null;
    }
  }

  datatype Shape<V> = Leaf | Branch(left: Shape<V>, node: Node<V>, right: Shape<V>)

  /** The nodes from left to right. */
  ghost function Nodes<V>(t: Shape<V>): seq<Node<V>> {
    if t.Leaf? then [] else Nodes(t.left) + [t.node] + Nodes(t.right)
  }

  /** The same as a set. */
  ghost function Own<V>(t: Shape<V>): set<Node<V>> {
    if t.Leaf? then {} else Own(t.left) + {t.node} + Own(t.right)
  }

  lemma {:induction false} OwnIs<V>(t: Shape<V>, n: Node<V>)
    ensures n in Own(t) <==> n in Nodes(t)
    decreases t
  {
    if t.Branch? {
      OwnIs(t.left, n);
      OwnIs(t.right, n);
    }
  }

  /** In memory, n is the root of t. */
  ghost predicate Is<V>(n: Node?<V>, t: Shape<V>)
    reads Own(t)
  {
    if t.Leaf? then n == null else n == t.node && Is(t.node.left, t.left) && Is(t.node.right, t.right)
  }

  lemma RootIs<V>(n: Node?<V>, t: Shape<V>)
    requires Is(n, t)
    ensures if t.Leaf? then n == null else n == t.node && n in Own(t)
  {
  }

  /** Keys strictly increasing, so that no node is there twice. */
  ghost predicate Sorted<V>(s: seq<Node<V>>) {
    forall i, j :: 0 <= i < j < |s| ==> s[i].key < s[j].key
  }

  ghost predicate AllBelow<V>(s: seq<Node<V>>, key: int) {
    forall i :: 0 <= i < |s| ==> s[i].key < key
  }

  ghost predicate AllAbove<V>(s: seq<Node<V>>, key: int) {
    forall i :: 0 <= i < |s| ==> key < s[i].key
  }

  ghost predicate Before<V>(a: seq<Node<V>>, b: seq<Node<V>>) {
    forall i, j :: 0 <= i < |a| && 0 <= j < |b| ==> a[i].key < b[j].key
  }

  lemma SortedConcat<V>(a: seq<Node<V>>, b: seq<Node<V>>)
    ensures Sorted(a + b) <==> Sorted(a) && Sorted(b) && Before(a, b)
    ensures Sorted(a + b) ==> forall n :: n in a ==> n !in b
  {
    var s := a + b;
    if Sorted(s) {
      assert forall i :: 0 <= i < |a| ==> a[i] == s[i];
      assert forall i :: 0 <= i < |b| ==> b[i] == s[|a| + i];
    }
    if Sorted(a) && Sorted(b) && Before(a, b) {
      forall i, j | 0 <= i < j < |s| ensures s[i].key < s[j].key {
        assert s[i] == if i < |a| then a[i] else b[i - |a|];
        assert s[j] == if j < |a| then a[j] else b[j - |a|];
      }
    }
  }

  /** What sortedness means around a node. */
  lemma SortedParts<V>(a: seq<Node<V>>, n: Node<V>, b: seq<Node<V>>)
    ensures Sorted(a + [n] + b) <==> Sorted(a) && Sorted(b) && AllBelow(a, n.key) && AllAbove(b, n.key)
    ensures Sorted(a + [n] + b) ==> n !in a && n !in b && forall m :: m in a ==> m !in b
  {
    SortedConcat(a + [n], b);
    SortedConcat(a, [n]);
    assert [n][0] == n && (a + [n])[|a|] == n;
    if Before(a, [n]) {
      assert forall i :: 0 <= i < |a| ==> a[i].key < [n][0].key;
    }
    if Before(a + [n], b) {
      assert forall j :: 0 <= j < |b| ==> (a + [n])[|a|].key < b[j].key;
    }
    if Sorted(a + [n] + b) {
      assert n in a + [n] && forall m :: m in a ==> m in a + [n];
      assert n in [n];
    }
  }

  /** The node of a sorted branch is in neither subtree, and nothing is in both. */
  lemma BranchApart<V>(t: Shape<V>)
    requires t.Branch? && Sorted(Nodes(t))
    ensures t.node !in Own(t.left) && t.node !in Own(t.right) && Own(t.left) !! Own(t.right)
    ensures Sorted(Nodes(t.left)) && Sorted(Nodes(t.right))
    ensures AllBelow(Nodes(t.left), t.node.key) && AllAbove(Nodes(t.right), t.node.key)
  {
    SortedParts(Nodes(t.left), t.node, Nodes(t.right));
    OwnIs(t.left, t.node);
    OwnIs(t.right, t.node);
    forall n | n in Own(t.left) ensures n !in Own(t.right) {
      OwnIs(t.left, n);
      OwnIs(t.right, n);
    }
  }

  /** A chain of nodes hanging from a dummy: each with the subtree on its outer side. */
  type Spine<V> = seq<(Node<V>, Shape<V>)>

  ghost function Last<V>(dummy: Node<V>, s: Spine<V>): Node<V> {
    if |s| == 0 then dummy else s[|s| - 1].0
  }

  /** The nodes of the chain on the left, from left to right. */
  ghost function LeftNodes<V>(s: Spine<V>): seq<Node<V>> {
    if |s| == 0 then [] else LeftNodes(s[..|s| - 1]) + Nodes(s[|s| - 1].1) + [s[|s| - 1].0]
  }

  /** And of the one on the right. */
  ghost function RightNodes<V>(s: Spine<V>): seq<Node<V>> {
    if |s| == 0 then [] else [s[|s| - 1].0] + Nodes(s[|s| - 1].1) + RightNodes(s[..|s| - 1])
  }

  ghost function SpineOwn<V>(s: Spine<V>): (r: set<Node<V>>)
    ensures |s| > 0 ==> s[|s| - 1].0 in r
  {
    if |s| == 0 then {} else SpineOwn(s[..|s| - 1]) + Own(s[|s| - 1].1) + {s[|s| - 1].0}
  }

  lemma {:induction false} SpineOwnIs<V>(s: Spine<V>, n: Node<V>)
    ensures n in SpineOwn(s) <==> n in LeftNodes(s)
    ensures n in SpineOwn(s) <==> n in RightNodes(s)
    decreases |s|
  {
    if |s| > 0 {
      SpineOwnIs(s[..|s| - 1], n);
      OwnIs(s[|s| - 1].1, n);
    }
  }

  lemma {:induction false} OwnAllocated<V>(t: Shape<V>)
    ensures forall n :: n in Own(t) ==> allocated(n)
    decreases t
  {
    if t.Branch? {
      OwnAllocated(t.left);
      OwnAllocated(t.right);
    }
  }

  lemma {:induction false} SpineAllocated<V>(s: Spine<V>)
    ensures forall n :: n in SpineOwn(s) ==> allocated(n)
    decreases |s|
  {
    if |s| > 0 {
      SpineAllocated(s[..|s| - 1]);
      OwnAllocated(s[|s| - 1].1);
    }
  }

  /** The chain on the left is linked by `right`, its subtrees are on the left; the last link is open. */
  ghost predicate LeftSpine<V>(dummy: Node<V>, s: Spine<V>)
    reads dummy`right, SpineOwn(s)
  {
    |s| > 0 ==>
      var m := |s| - 1;
      && Last(dummy, s[..m]).right == s[m].0
      && Is(s[m].0.left, s[m].1)
      && LeftSpine(dummy, s[..m])
  }

  ghost predicate RightSpine<V>(dummy: Node<V>, s: Spine<V>)
    reads dummy`left, SpineOwn(s)
  {
    |s| > 0 ==>
      var m := |s| - 1;
      && Last(dummy, s[..m]).left == s[m].0
      && Is(s[m].0.right, s[m].1)
      && RightSpine(dummy, s[..m])
  }

  /** The tree that a chain becomes when t is put at its open end. */
  ghost function FoldLeft<V>(s: Spine<V>, t: Shape<V>): Shape<V> {
    if |s| == 0 then t else FoldLeft(s[..|s| - 1], Branch(s[|s| - 1].1, s[|s| - 1].0, t))
  }

  ghost function FoldRight<V>(s: Spine<V>, t: Shape<V>): Shape<V> {
    if |s| == 0 then t else FoldRight(s[..|s| - 1], Branch(t, s[|s| - 1].0, s[|s| - 1].1))
  }

  lemma {:induction false} FoldLeftIs<V>(dummy: Node<V>, s: Spine<V>, t: Shape<V>)
    requires LeftSpine(dummy, s) && Is(Last(dummy, s).right, t)
    ensures Is(dummy.right, FoldLeft(s, t))
    decreases |s|
  {
    if |s| > 0 {
      var m := |s| - 1;
      FoldLeftIs(dummy, s[..m], Branch(s[m].1, s[m].0, t));
    }
  }

  lemma {:induction false} FoldRightIs<V>(dummy: Node<V>, s: Spine<V>, t: Shape<V>)
    requires RightSpine(dummy, s) && Is(Last(dummy, s).left, t)
    ensures Is(dummy.left, FoldRight(s, t))
    decreases |s|
  {
    if |s| > 0 {
      var m := |s| - 1;
      FoldRightIs(dummy, s[..m], Branch(t, s[m].0, s[m].1));
    }
  }

  lemma {:induction false} FoldLeftNodes<V>(s: Spine<V>, t: Shape<V>)
    ensures Nodes(FoldLeft(s, t)) == LeftNodes(s) + Nodes(t)
    decreases |s|
  {
    if |s| > 0 {
      var m := |s| - 1;
      var u := Branch(s[m].1, s[m].0, t);
      FoldLeftNodes(s[..m], u);
      assert Nodes(u) == Nodes(s[m].1) + [s[m].0] + Nodes(t);
    }
  }

  lemma {:induction false} FoldRightNodes<V>(s: Spine<V>, t: Shape<V>)
    ensures Nodes(FoldRight(s, t)) == Nodes(t) + RightNodes(s)
    decreases |s|
  {
    if |s| > 0 {
      var m := |s| - 1;
      var u := Branch(t, s[m].0, s[m].1);
      FoldRightNodes(s[..m], u);
      assert Nodes(u) == Nodes(t) + [s[m].0] + Nodes(s[m].1);
    }
  }

  lemma {:induction false} FoldOwn<V>(s: Spine<V>, t: Shape<V>)
    ensures Own(FoldLeft(s, t)) == SpineOwn(s) + Own(t) && Own(FoldRight(s, t)) == SpineOwn(s) + Own(t)
    decreases |s|
  {
    if |s| > 0 {
      var m := |s| - 1;
      FoldOwn(s[..m], Branch(s[m].1, s[m].0, t));
      FoldOwn(s[..m], Branch(t, s[m].0, s[m].1));
    }
  }
}
