/** The tree bins of malloc.c as values: bitwise tries keyed on chunk sizes. */

/**
  * A node stands for one size and keeps the chunks of that size in a ring: the
  * first is the tree node itself, the others hang off its fd pointer, newest
  * first. The sizes below a node lie in one range of 2^k numbers; the upper
  * half of the range is on the right. The node's own size may be any in it.
  */
module Trie {
  import opened Digits

  datatype Tree = Nil | Node(size: nat, ring: seq<int>, left: Tree, right: Tree)

  /** Some node has this size. */
  predicate HasSize(t: Tree, s: nat) {
    t.Node? && (t.size == s || HasSize(t.left, s) || HasSize(t.right, s))
  }

  /** The chunk c is kept for size s. */
  predicate Has(t: Tree, c: int, s: nat) {
    t.Node? && ((t.size == s && c in t.ring) || Has(t.left, c, s) || Has(t.right, c, s))
  }

  ghost predicate Holds(t: Tree, c: int) {
    exists s :: Has(t, c, s)
  }

  ghost predicate NoRepeats(ring: seq<int>) {
    forall i, j :: 0 <= i < j < |ring| ==> ring[i] != ring[j]
  }

  /** do_check_tree: every size lies in [lo, lo + 2^k) on the side its bits say, and in one node only. */
  ghost predicate Ordered(t: Tree, lo: nat, k: nat) {
    t.Node? ==>
      && lo <= t.size < lo + Pow2(k) && |t.ring| > 0 && NoRepeats(t.ring)
      && if k == 0 then t.left.Nil? && t.right.Nil? else
        && Ordered(t.left, lo, k - 1) && Ordered(t.right, lo + Pow2(k - 1), k - 1)
        && !HasSize(t.left, t.size) && !HasSize(t.right, t.size)
  }

  /** The side a size goes to. */
  predicate Right(s: nat, lo: nat, k: nat)
    requires k > 0
  {
    s >= lo + Pow2(k - 1)
  }

  /** insert_large_chunk below a root that covers [lo, lo + 2^k) */
  function Insert(t: Tree, x: int, s: nat, lo: nat, k: nat): Tree
    decreases k
  {
    if t.Nil? then Node(s, [x], Nil, Nil)
    else if t.size == s && |t.ring| > 0 then t.(ring := [t.ring[0], x] + t.ring[1..])
    else if k == 0 then t
    else if Right(s, lo, k) then t.(right := Insert(t.right, x, s, lo + Pow2(k - 1), k - 1))
    else t.(left := Insert(t.left, x, s, lo, k - 1))
  }

  lemma {:induction false} SizeInRange(t: Tree, s: nat, lo: nat, k: nat)
    requires Ordered(t, lo, k) && HasSize(t, s)
    ensures lo <= s < lo + Pow2(k)
    decreases t
  {
    if t.size != s {
      if HasSize(t.left, s) {
        SizeInRange(t.left, s, lo, k - 1);
      } else {
        SizeInRange(t.right, s, lo + Pow2(k - 1), k - 1);
      }
    }
  }

  lemma {:induction false} HasHasSize(t: Tree, c: int, s: nat)
    requires Has(t, c, s)
    ensures HasSize(t, s)
  {
    if Has(t.left, c, s) { HasHasSize(t.left, c, s); }
    if Has(t.right, c, s) { HasHasSize(t.right, c, s); }
  }

  lemma {:induction false} InsertSizes(t: Tree, x: int, s: nat, lo: nat, k: nat, z: nat)
    requires Ordered(t, lo, k) && lo <= s < lo + Pow2(k)
    ensures HasSize(Insert(t, x, s, lo, k), z) <==> HasSize(t, z) || z == s
    decreases k
  {
    if t.Node? && t.size != s {
      if Right(s, lo, k) {
        InsertSizes(t.right, x, s, lo + Pow2(k - 1), k - 1, z);
      } else {
        InsertSizes(t.left, x, s, lo, k - 1, z);
      }
    }
  }

  lemma {:induction false} InsertOrdered(t: Tree, x: int, s: nat, lo: nat, k: nat)
    requires Ordered(t, lo, k) && lo <= s < lo + Pow2(k) && !Has(t, x, s)
    ensures Ordered(Insert(t, x, s, lo, k), lo, k)
    decreases k
  {
    if t.Node? && t.size != s {
      if Right(s, lo, k) {
        InsertOrdered(t.right, x, s, lo + Pow2(k - 1), k - 1);
        InsertSizes(t.right, x, s, lo + Pow2(k - 1), k - 1, t.size);
      } else {
        InsertOrdered(t.left, x, s, lo, k - 1);
        InsertSizes(t.left, x, s, lo, k - 1, t.size);
      }
    }
  }

  /** Inserting adds the one chunk. */
  lemma {:induction false} InsertHas(t: Tree, x: int, s: nat, lo: nat, k: nat, c: int, z: nat)
    requires Ordered(t, lo, k) && lo <= s < lo + Pow2(k)
    ensures Has(Insert(t, x, s, lo, k), c, z) <==> Has(t, c, z) || (c == x && z == s)
    decreases k
  {
    if t.Node? && t.size != s {
      if Right(s, lo, k) {
        InsertHas(t.right, x, s, lo + Pow2(k - 1), k - 1, c, z);
      } else {
        InsertHas(t.left, x, s, lo, k - 1, c, z);
      }
    } else if t.Node? {
      assert c in [t.ring[0], x] + t.ring[1..] <==> c in t.ring || c == x;
    }
  }

  /** The rightmost leaf, which replaces an emptied node. */
  function Leaf(t: Tree): (r: Tree)
    requires t.Node?
    ensures r.Node?
  {
    if t.right.Node? then Leaf(t.right) else if t.left.Node? then Leaf(t.left) else t
  }

  function Prune(t: Tree): Tree
    requires t.Node?
  {
    if t.right.Node? then t.(right := Prune(t.right))
    else if t.left.Node? then t.(left := Prune(t.left))
    else Nil
  }

  lemma {:induction false} LeafSize(t: Tree)
    requires t.Node?
    ensures HasSize(t, Leaf(t).size)
  {
    if t.right.Node? { LeafSize(t.right); } else if t.left.Node? { LeafSize(t.left); }
  }

  lemma {:induction false} PruneSizes(t: Tree, lo: nat, k: nat, z: nat)
    requires t.Node? && Ordered(t, lo, k)
    ensures HasSize(Prune(t), z) <==> HasSize(t, z) && z != Leaf(t).size
  {
    if t.right.Node? {
      PruneSizes(t.right, lo + Pow2(k - 1), k - 1, z);
      LeafSize(t.right);
      SizeInRange(t.right, Leaf(t.right).size, lo + Pow2(k - 1), k - 1);
      if HasSize(t.left, z) { SizeInRange(t.left, z, lo, k - 1); }
    } else if t.left.Node? {
      PruneSizes(t.left, lo, k - 1, z);
      LeafSize(t.left);
    }
  }

  lemma {:induction false} PruneOrdered(t: Tree, lo: nat, k: nat)
    requires t.Node? && Ordered(t, lo, k)
    ensures Ordered(Prune(t), lo, k)
  {
    if t.right.Node? {
      PruneOrdered(t.right, lo + Pow2(k - 1), k - 1);
      PruneSizes(t.right, lo + Pow2(k - 1), k - 1, t.size);
    } else if t.left.Node? {
      PruneOrdered(t.left, lo, k - 1);
      PruneSizes(t.left, lo, k - 1, t.size);
    }
  }

  lemma {:induction false} PruneHas(t: Tree, c: int, z: nat)
    requires t.Node?
    ensures Has(t, c, z) <==> Has(Prune(t), c, z) || (z == Leaf(t).size && c in Leaf(t).ring)
  {
    if t.right.Node? { PruneHas(t.right, c, z); } else if t.left.Node? { PruneHas(t.left, c, z); }
  }

  ghost function Position(ring: seq<int>, x: int): (i: nat)
    requires x in ring
    ensures i < |ring| && ring[i] == x
  {
    var i :| 0 <= i < |ring| && ring[i] == x;
    i
  }

  /** The ring without x: if x was the tree node, the oldest chunk takes its place. */
  ghost function Unring(ring: seq<int>, x: int): seq<int>
    requires |ring| > 1 && x in ring
  {
    var i := Position(ring, x);
    if i == 0 then [ring[|ring| - 1]] + ring[1..|ring| - 1] else ring[..i] + ring[i + 1..]
  }

  lemma UnringHas(ring: seq<int>, x: int)
    requires |ring| > 1 && x in ring && NoRepeats(ring)
    ensures |Unring(ring, x)| == |ring| - 1 && NoRepeats(Unring(ring, x))
    ensures forall c :: c in Unring(ring, x) <==> c in ring && c != x
  {
    var i, r := Position(ring, x), Unring(ring, x);
    if i == 0 {
      forall c | c in ring && c != x ensures c in r { RingRest(ring, c); }
    } else {
      forall c | c in ring && c != x ensures c in r {
        var j := Position(ring, c);
        assert r[if j < i then j else j - 1] == c;
      }
    }
  }

  lemma RingRest(ring: seq<int>, c: int)
    requires |ring| > 1 && c in ring && c != ring[0]
    ensures c in [ring[|ring| - 1]] + ring[1..|ring| - 1]
  {
    var j := Position(ring, c);
    if j < |ring| - 1 { assert ring[1..|ring| - 1][j - 1] == c; }
  }

  /** unlink_large_chunk: x leaves its ring, or its node is replaced by the rightmost leaf below it. */
  ghost function Unlink(t: Tree, x: int, s: nat, lo: nat, k: nat): Tree
    decreases k
  {
    if t.Nil? then Nil
    else if t.size == s then
      if |t.ring| > 1 && x in t.ring then t.(ring := Unring(t.ring, x))
      else if t.right.Node? then Node(Leaf(t.right).size, Leaf(t.right).ring, t.left, Prune(t.right))
      else if t.left.Node? then Node(Leaf(t.left).size, Leaf(t.left).ring, Prune(t.left), Nil)
      else Nil
    else if k == 0 then t
    else if Right(s, lo, k) then t.(right := Unlink(t.right, x, s, lo + Pow2(k - 1), k - 1))
    else t.(left := Unlink(t.left, x, s, lo, k - 1))
  }

  lemma {:induction false} LeafRing(t: Tree, lo: nat, k: nat)
    requires t.Node? && Ordered(t, lo, k)
    ensures |Leaf(t).ring| > 0 && NoRepeats(Leaf(t).ring)
  {
    if t.right.Node? {
      LeafRing(t.right, lo + Pow2(k - 1), k - 1);
    } else if t.left.Node? {
      LeafRing(t.left, lo, k - 1);
    }
  }

  /** Which sizes are left. */
  lemma {:induction false} UnlinkSizes(t: Tree, x: int, s: nat, lo: nat, k: nat, z: nat)
    requires Ordered(t, lo, k) && Has(t, x, s) && HasSize(Unlink(t, x, s, lo, k), z)
    ensures HasSize(t, z)
    decreases k
  {
    if t.size == s {
      if |t.ring| > 1 && x in t.ring {
      } else if t.right.Node? {
        LeafSize(t.right);
        PruneSizes(t.right, lo + Pow2(k - 1), k - 1, z);
      } else if t.left.Node? {
        LeafSize(t.left);
        PruneSizes(t.left, lo, k - 1, z);
      }
    } else {
      WhichSide(t, x, s, lo, k);
      if Right(s, lo, k) {
        if HasSize(Unlink(t.right, x, s, lo + Pow2(k - 1), k - 1), z) {
          UnlinkSizes(t.right, x, s, lo + Pow2(k - 1), k - 1, z);
        }
      } else if HasSize(Unlink(t.left, x, s, lo, k - 1), z) {
        UnlinkSizes(t.left, x, s, lo, k - 1, z);
      }
    }
  }

  /** A chunk is found by following the bits of its size. */
  lemma WhichSide(t: Tree, x: int, s: nat, lo: nat, k: nat)
    requires Ordered(t, lo, k) && Has(t, x, s) && t.size != s
    ensures k > 0 && lo <= s < lo + Pow2(k)
    ensures if Right(s, lo, k) then Has(t.right, x, s) && !Has(t.left, x, s)
      else Has(t.left, x, s) && !Has(t.right, x, s)
  {
    if Has(t.right, x, s) {
      HasHasSize(t.right, x, s);
      SizeInRange(t.right, s, lo + Pow2(k - 1), k - 1);
    }
    if Has(t.left, x, s) {
      HasHasSize(t.left, x, s);
      SizeInRange(t.left, s, lo, k - 1);
    }
  }

  lemma {:induction false} UnlinkOrdered(t: Tree, x: int, s: nat, lo: nat, k: nat)
    requires Ordered(t, lo, k) && Has(t, x, s)
    ensures Ordered(Unlink(t, x, s, lo, k), lo, k)
    decreases k
  {
    if t.size == s {
      if |t.ring| > 1 && x in t.ring {
        UnringHas(t.ring, x);
      } else if t.right.Node? {
        ReplacedRight(t, lo, k);
      } else if t.left.Node? {
        ReplacedLeft(t, lo, k);
      }
    } else {
      WhichSide(t, x, s, lo, k);
      if Right(s, lo, k) {
        UnlinkOrdered(t.right, x, s, lo + Pow2(k - 1), k - 1);
        if HasSize(Unlink(t.right, x, s, lo + Pow2(k - 1), k - 1), t.size) {
          UnlinkSizes(t.right, x, s, lo + Pow2(k - 1), k - 1, t.size);
        }
      } else {
        UnlinkOrdered(t.left, x, s, lo, k - 1);
        if HasSize(Unlink(t.left, x, s, lo, k - 1), t.size) {
          UnlinkSizes(t.left, x, s, lo, k - 1, t.size);
        }
      }
    }
  }

  /** The rightmost leaf on the right takes the node's place. */
  lemma ReplacedRight(t: Tree, lo: nat, k: nat)
    requires t.Node? && t.right.Node? && Ordered(t, lo, k)
    ensures Ordered(Node(Leaf(t.right).size, Leaf(t.right).ring, t.left, Prune(t.right)), lo, k)
  {
    var hi, s := lo + Pow2(k - 1), Leaf(t.right).size;
    LeafRing(t.right, hi, k - 1);
    LeafSize(t.right);
    SizeInRange(t.right, s, hi, k - 1);
    PruneOrdered(t.right, hi, k - 1);
    PruneSizes(t.right, hi, k - 1, s);
    if HasSize(t.left, s) { SizeInRange(t.left, s, lo, k - 1); }
  }

  lemma ReplacedLeft(t: Tree, lo: nat, k: nat)
    requires t.Node? && t.left.Node? && t.right.Nil? && Ordered(t, lo, k)
    ensures Ordered(Node(Leaf(t.left).size, Leaf(t.left).ring, Prune(t.left), Nil), lo, k)
  {
    var s := Leaf(t.left).size;
    LeafRing(t.left, lo, k - 1);
    LeafSize(t.left);
    SizeInRange(t.left, s, lo, k - 1);
    PruneOrdered(t.left, lo, k - 1);
    PruneSizes(t.left, lo, k - 1, s);
  }

  /** Unlinking removes the one chunk. */
  lemma {:induction false} UnlinkHas(t: Tree, x: int, s: nat, lo: nat, k: nat, c: int, z: nat)
    requires Ordered(t, lo, k) && Has(t, x, s) && (Has(t, x, z) ==> z == s)
    ensures Has(Unlink(t, x, s, lo, k), c, z) <==> Has(t, c, z) && c != x
    decreases k
  {
    if t.size == s {
      TopHas(t, x, s, lo, k);
      if Has(t.left, x, z) { HasHasSize(t.left, x, z); }
      if Has(t.right, x, z) { HasHasSize(t.right, x, z); }
      if |t.ring| > 1 {
        UnringHas(t.ring, x);
      } else if t.right.Node? {
        PruneHas(t.right, c, z);
      } else if t.left.Node? {
        PruneHas(t.left, c, z);
      }
    } else {
      WhichSide(t, x, s, lo, k);
      if Right(s, lo, k) {
        UnlinkHas(t.right, x, s, lo + Pow2(k - 1), k - 1, c, z);
      } else {
        UnlinkHas(t.left, x, s, lo, k - 1, c, z);
      }
    }
  }

  lemma TopHas(t: Tree, x: int, s: nat, lo: nat, k: nat)
    requires Ordered(t, lo, k) && Has(t, x, s) && t.size == s
    ensures x in t.ring
    ensures forall c :: Has(t, c, s) <==> c in t.ring
  {
    forall c | Has(t, c, s) ensures c in t.ring {
      if Has(t.left, c, s) { HasHasSize(t.left, c, s); }
      if Has(t.right, c, s) { HasHasSize(t.right, c, s); }
    }
  }
}
