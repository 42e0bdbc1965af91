/** The tree bins of malloc.c: 32 tries of free chunks, kept in the chunks themselves. */
module TreeBinning {
  import opened Digits
  import opened BinMaps
  import opened Trie
  import opened TreeLinks
  import TreeUnlinking

  const MIN_LARGE := 256
  const SPACE := 0x1_0000_0000

  /** The sizes in bin i lie in [Low(i), Low(i) + 2^Depth(i)); the last bin covers all of memory. */
  function Low(i: nat): nat {
    if i == BINS - 1 then 0 else MinSize(i)
  }

  function Depth(i: nat): nat {
    if i == BINS - 1 then 32 else i / 2 + 7
  }

  /** treebin_at(i), the parent of a root; no chunk has this address. */
  function BinSlot(i: nat): int {
    -1 - i
  }

  /** size << leftshift_for_tree_index(i) */
  function Shifted(s: nat, i: nat): nat
    requires i < BINS
  {
    s * Pow2(if i == BINS - 1 then 0 else 25 - i / 2) % SPACE
  }

  lemma WordSize()
    ensures Pow2(32) == SPACE && Pow2(31) == SPACE / 2
  {
    Powers();
    Pow2Add(16, 16);
    Pow2Add(16, 15);
  }

  /** The word that is shifted on the way down starts with the bits that tell the sides. */
  lemma ShiftedIs(s: nat)
    requires MIN_LARGE <= s < SPACE
    ensures var i := TreeIndex(s);
      i < BINS && Low(i) <= s < Low(i) + Pow2(Depth(i)) && Depth(i) <= 32 &&
        Shifted(s, i) == Dbl(s - Low(i), 32 - Depth(i))
  {
    IndexIs(s);
    ShiftedInBin(s, TreeIndex(s));
  }

  lemma ShiftedInBin(s: nat, i: nat)
    requires s < SPACE && i < BINS && MinSize(i) <= s && (i < BINS - 1 ==> s < MinSize(i + 1))
    ensures Low(i) <= s < Low(i) + Pow2(Depth(i)) && Depth(i) <= 32 && Shifted(s, i) == Dbl(s - Low(i), 32 - Depth(i))
  {
    if i < BINS - 1 {
      RangeOf(i);
      ShiftOut(s, i);
    } else {
      LastShift(s);
    }
  }

  lemma LastShift(s: nat)
    requires s < SPACE
    ensures s < Pow2(32) && s * Pow2(0) % SPACE == s == Dbl(s, 0)
  {
    WordSize();
  }

  /** The leading bits, which all sizes in the bin share, are shifted out. */
  lemma ShiftOut(s: nat, i: nat)
    requires i < BINS - 1 && MinSize(i) <= s < MinSize(i) + Pow2(i / 2 + 7)
    ensures s * Pow2(25 - i / 2) % SPACE == Dbl(s - MinSize(i), 25 - i / 2)
  {
    var n, d := 25 - i / 2, s - MinSize(i);
    var q := if i % 2 == 1 then 3 else 2;
    assert MinSize(i) == q * Pow2(i / 2 + 7) by { assert Pow2(i / 2 + 8) == 2 * Pow2(i / 2 + 7); }
    DblPow2(i / 2 + 7, n);
    WordSize();
    DblPow(s, n);
    DblAdd(MinSize(i), d, n);
    DblTimes(q, Pow2(i / 2 + 7), n);
    DblMono(0, d, n);
    DblMono(d + 1, Pow2(i / 2 + 7), n);
    DblAdd(d, 1, n);
    DblOne(n);
    DblPow(0, n);
    DivIs(s * Pow2(n), SPACE, q, Dbl(d, n));
  }

  lemma {:induction false} DblTimes(q: int, x: int, n: nat)
    requires q == 2 || q == 3
    ensures Dbl(q * x, n) == q * Dbl(x, n)
  {
    if n > 0 { DblTimes(q, x, n - 1); }
  }

  lemma TopBitOut(k: int, e: int, right: bool)
    requires 0 <= e < SPACE / 2 && k == if right then e + SPACE / 2 else e
    ensures 2 * k % SPACE == 2 * e && (k >= SPACE / 2 <==> right)
  {
  }

  /** d doublings of what is left of a size below half its range. */
  lemma Remainder(e: nat, b: nat)
    requires 0 < b <= 32 && e < Pow2(b - 1)
    ensures 0 <= Dbl(e, 32 - b) < SPACE / 2
  {
    WordSize();
    DblPow2(b - 1, 32 - b);
    DblPow(0, 32 - b);
    DblMono(0, e, 32 - b);
    DblMono(e + 1, Pow2(b - 1), 32 - b);
    DblAdd(e, 1, 32 - b);
    DblOne(32 - b);
  }

  /** One step down: the top bit of the word is the side, and the rest shifts up. */
  lemma SideBit(s: nat, lo: nat, b: nat, k: nat)
    requires 0 < b <= 32 && lo <= s < lo + Pow2(b) && k == Dbl(s - lo, 32 - b)
    ensures k >= SPACE / 2 <==> Right(s, lo, b)
    ensures 2 * k % SPACE == Dbl(s - (if Right(s, lo, b) then lo + Pow2(b - 1) else lo), 33 - b)
  {
    var right := Right(s, lo, b);
    var e := s - if right then lo + Pow2(b - 1) else lo;
    WordSize();
    Remainder(e, b);
    DblPow2(b - 1, 32 - b);
    DblAdd(e, Pow2(b - 1), 32 - b);
    TopBitOut(k, Dbl(e, 32 - b), right);
  }

  type Forest = map<nat, Tree>

  /** Bin i holds the trie trees[i], and its bit says whether there is any. */
  ghost predicate BinOk(h: Links, bins: map<nat, int>, treemap: nat, trees: Forest, i: nat) {
    && i in bins && i in trees && Repr(h, trees[i], bins[i], BinSlot(i)) && Ordered(trees[i], Low(i), Depth(i))
    && (On(treemap, i) <==> trees[i].Node?)
    && forall z: nat :: HasSize(trees[i], z) ==> MIN_LARGE <= z < SPACE && TreeIndex(z) == i
  }

  /** Every chunk is in the trie of its size. */
  ghost predicate InBin(h: Links, trees: Forest, c: int)
    requires c in h
  {
    && c > 0 && MIN_LARGE <= h[c].size < SPACE
    && TreeIndex(h[c].size) in trees && Has(trees[TreeIndex(h[c].size)], c, h[c].size)
  }

  ghost predicate BinsOk(h: Links, bins: map<nat, int>, treemap: nat, trees: Forest) {
    && treemap < Pow2(BINS)
    && (forall i: nat {:trigger BinOk(h, bins, treemap, trees, i)} :: i < BINS ==> BinOk(h, bins, treemap, trees, i))
    && (forall c {:trigger InBin(h, trees, c)} :: c in h ==> InBin(h, trees, c))
  }

  ghost function SizesOf(h: Links): map<int, nat> {
    map c | c in h :: h[c].size
  }

  /** What is in the trie is in memory with its size. */
  lemma {:induction false} ReprHas(h: Links, t: Tree, p: int, up: int, c: int, z: nat)
    requires Repr(h, t, p, up) && Has(t, c, z)
    ensures c in h && h[c].size == z
  {
    if Has(t.left, c, z) {
      ReprHas(h, t.left, h[p].left, p, c, z);
    } else if Has(t.right, c, z) {
      ReprHas(h, t.right, h[p].right, p, c, z);
    }
  }

  /** Bins of other sizes do not notice. */
  lemma OtherBin(h: Links, h': Links, bins: map<nat, int>, bins': map<nat, int>, treemap: nat, treemap': nat,
      trees: Forest, trees': Forest, i: nat, S: set<nat>)
    requires BinOk(h, bins, treemap, trees, i) && OnlySizes(h, h', S)
    requires forall s :: s in S ==> !(MIN_LARGE <= s < SPACE && TreeIndex(s) == i)
    requires i in bins' && bins'[i] == bins[i] && i in trees' && trees'[i] == trees[i]
    requires On(treemap', i) <==> On(treemap, i)
    ensures BinOk(h', bins', treemap', trees', i)
  {
    ReprFrame(h, h', trees[i], bins[i], BinSlot(i), S);
  }

  /** The trie with the new chunk still belongs in its bin. */
  lemma InsertedTree(w: Tree, x: int, s: nat, i: nat)
    requires MIN_LARGE <= s < SPACE && i == TreeIndex(s) && i < BINS && Ordered(w, Low(i), Depth(i)) && !Has(w, x, s)
    requires forall z: nat :: HasSize(w, z) ==> MIN_LARGE <= z < SPACE && TreeIndex(z) == i
    ensures var t := Trie.Insert(w, x, s, Low(i), Depth(i));
      Ordered(t, Low(i), Depth(i)) && t.Node? && forall z: nat :: HasSize(t, z) ==>
        MIN_LARGE <= z < SPACE && TreeIndex(z) == i
  {
    ShiftedIs(s);
    InsertOrdered(w, x, s, Low(i), Depth(i));
    forall z: nat | HasSize(Trie.Insert(w, x, s, Low(i), Depth(i)), z)
      ensures MIN_LARGE <= z < SPACE && TreeIndex(z) == i {
      InsertSizes(w, x, s, Low(i), Depth(i), z);
    }
  }

  /** The bin of the new chunk's size. */
  lemma InsertedBin(h: Links, h': Links, bins: map<nat, int>, bins': map<nat, int>, treemap: nat, treemap': nat,
      trees: Forest, trees': Forest, x: int, s: nat, i: nat)
    requires MIN_LARGE <= s < SPACE && x !in h && i == TreeIndex(s) && i < BINS && BinOk(h, bins, treemap, trees, i)
    requires i in bins' && i in trees' && trees'[i] == Trie.Insert(trees[i], x, s, Low(i), Depth(i))
    requires Repr(h', trees'[i], bins'[i], BinSlot(i)) && On(treemap', i)
    ensures BinOk(h', bins', treemap', trees', i)
  {
    if Has(trees[i], x, s) { ReprHas(h, trees[i], bins[i], BinSlot(i), x, s); }
    InsertedTree(trees[i], x, s, i);
  }

  lemma InsertedChunk(h: Links, h': Links, trees: Forest, x: int, s: nat, c: int)
    requires x > 0 && x !in h && MIN_LARGE <= s < SPACE && c in h' && (c == x || c in h)
    requires h'[c].size == if c == x then s else h[c].size
    requires c != x ==> InBin(h, trees, c)
    requires var i := TreeIndex(s); i in trees && Ordered(trees[i], Low(i), Depth(i))
    ensures var i := TreeIndex(s);
      InBin(h', trees[i := Insert(trees[i], x, s, Low(i), Depth(i))], c)
  {
    var i := TreeIndex(s);
    ShiftedIs(s);
    InsertHas(trees[i], x, s, Low(i), Depth(i), c, h'[c].size);
  }

  /** Only the given sizes, all of one bin, were touched. */
  ghost predicate OfBin(S: set<nat>, i: nat) {
    forall z :: z in S ==> MIN_LARGE <= z < SPACE && TreeIndex(z) == i
  }

  /** The chunks of h and x, of size s. */
  ghost predicate Added(h: Links, h': Links, x: int, s: nat) {
    h'.Keys == h.Keys + {x} && x in h' && h'[x].size == s && forall c :: c in h && c != x ==> h'[c].size == h[c].size
  }

  /** Bins other than i are the same; bin i is marked if on. */
  ghost predicate SameBut(bins: map<nat, int>, bins': map<nat, int>, treemap: nat, treemap': nat, trees: Forest,
      trees': Forest, i: nat)
  {
    && i in bins' && i in trees' && treemap' < Pow2(BINS)
    && forall j: nat :: j < BINS && j != i && j in bins && j in trees ==>
      j in bins' && bins'[j] == bins[j] && j in trees' && trees'[j] == trees[j] && (On(treemap', j) <==> On(treemap, j))
  }

  lemma OtherBins(h: Links, h': Links, bins: map<nat, int>, bins': map<nat, int>, treemap: nat, treemap': nat,
      trees: Forest, trees': Forest, i: nat, S: set<nat>, j: nat)
    requires BinsOk(h, bins, treemap, trees) && SameBut(bins, bins', treemap, treemap', trees, trees', i)
    requires OfBin(S, i) && OnlySizes(h, h', S) && j < BINS && j != i
    ensures BinOk(h', bins', treemap', trees', j)
  {
    assert BinOk(h, bins, treemap, trees, j);
    OtherBin(h, h', bins, bins', treemap, treemap', trees, trees', j, S);
  }

  /** One bin got another chunk, the others stay. */
  lemma Inserted(h: Links, h': Links, bins: map<nat, int>, bins': map<nat, int>, treemap: nat, treemap': nat,
      trees: Forest, trees': Forest, x: int, s: nat, S: set<nat>)
    requires BinsOk(h, bins, treemap, trees) && MIN_LARGE <= s < SPACE && x > 0 && x !in h
    requires SameBut(bins, bins', treemap, treemap', trees, trees', TreeIndex(s)) && On(treemap', TreeIndex(s))
    requires OfBin(S, TreeIndex(s)) && OnlySizes(h, h', S) && Added(h, h', x, s)
    requires TreeIndex(s) in trees && Repr(h', trees'[TreeIndex(s)], bins'[TreeIndex(s)], BinSlot(TreeIndex(s)))
    requires trees' == trees[TreeIndex(s) := Insert(trees[TreeIndex(s)], x, s, Low(TreeIndex(s)), Depth(TreeIndex(s)))]
    ensures BinsOk(h', bins', treemap', trees')
  {
    IndexIs(s);
    var i := TreeIndex(s);
    assert BinOk(h, bins, treemap, trees, i);
    forall j: nat | j < BINS ensures BinOk(h', bins', treemap', trees', j) {
      if j == i {
        InsertedBin(h, h', bins, bins', treemap, treemap', trees, trees', x, s, i);
      } else {
        OtherBins(h, h', bins, bins', treemap, treemap', trees, trees', i, S, j);
      }
    }
    forall c | c in h' ensures InBin(h', trees', c) {
      if c != x { assert InBin(h, trees, c); }
      InsertedChunk(h, h', trees, x, s, c);
    }
  }

  /** The size searched for belongs below u, and k holds the bits still to be looked at. */
  ghost predicate Aimed(u: Tree, lo: nat, b: nat, s: nat, k: nat) {
    Ordered(u, lo, b) && lo <= s < lo + Pow2(b) && b <= 32 && k == Dbl(s - lo, 32 - b)
  }

  /** The step the bits tell. */
  lemma StepAimed(u: Tree, lo: nat, b: nat, s: nat, k: nat)
    requires Aimed(u, lo, b, s, k) && u.Node? && u.size != s
    ensures b > 0 && (k >= SPACE / 2 <==> Right(s, lo, b))
    ensures var right := k >= SPACE / 2;
      Aimed(Side(u, right), if right then lo + Pow2(b - 1) else lo, b - 1, s, 2 * k % SPACE)
  {
    SideBit(s, lo, b, k);
  }

  /** The slot left or right below p gets the new chunk. */
  function NewLeaf(h: Links, p: int, right: bool, x: int, s: nat): Links
    requires p in h
  {
    (if right then SetRight(h, p, x) else SetLeft(h, p, x))[x := Link(s, x, x, 0, 0, p)]
  }

  /** The search ends at an empty slot, which gets the chunk. */
  lemma SlotFilled(h: Links, z: Context, right: bool, p: int, p0: int, up0: int, x: int, s: nat, lo: nat, b: nat)
    requires Around(h, z, 0, p, p0, up0) && (if right then z.OnRight? else z.OnLeft?)
    requires Ordered(Plug(z, Nil), lo, b) && x !in h && x != 0
    ensures p in h
    ensures var h' := NewLeaf(h, p, right, x, s);
      Around(h', z, x, p, p0, up0) && OnlySizes(h, h', {z.size}) && Added(h, h', x, s)
  {
    InnerApart(z, Nil, lo, b);
    SlotWritten(h, z, 0, p, p0, up0, x);
    AroundFrame(if right then SetRight(h, p, x) else SetLeft(h, p, x), NewLeaf(h, p, right, x, s), z, x, p, p0, up0,
      {});
  }

  lemma LeafAdded(h: Links, z: Context, right: bool, p: int, p0: int, up0: int, x: int, s: nat, lo: nat, b: nat)
    requires Around(h, z, 0, p, p0, up0) && (if right then z.OnRight? else z.OnLeft?)
    requires Ordered(Plug(z, Nil), lo, b) && x !in h && x != 0
    ensures p in h && HasSize(Plug(z, Nil), z.size)
    ensures var h' := NewLeaf(h, p, right, x, s);
      Repr(h', Plug(z, Node(s, [x], Nil, Nil)), p0, up0) && OnlySizes(h, h', {z.size}) && Added(h, h', x, s)
  {
    SlotFilled(h, z, right, p, p0, up0, x, s, lo, b);
    SizeIn(z, Nil, z.size);
    Plugged(NewLeaf(h, p, right, x, s), z, Node(s, [x], Nil, Nil), x, p, p0, up0);
  }

  /** The chunk is linked behind the tree node p of its size. */
  function NewLink(h: Links, p: int, x: int): Links
    requires p in h && h[p].fd in h
  {
    var f := h[p].fd;
    SetBk(SetFd(h, p, x), f, x)[x := Link(h[p].size, f, p, 0, 0, 0)]
  }

  /** The search ends at a node of the size, where the chunk is chained. */
  lemma ChainAdded(h: Links, z: Context, u: Tree, p: int, up: int, p0: int, up0: int, x: int, lo: nat, b: nat)
    requires Around(h, z, p, up, p0, up0) && Repr(h, u, p, up) && u.Node? && Ordered(Plug(z, u), lo, b) && x !in h &&
      x != 0
    ensures p in h && h[p].fd in h
    ensures HasSize(Plug(z, u), u.size)
    ensures var h' := NewLink(h, p, x);
      && Repr(h', Plug(z, u.(ring := [u.ring[0], x] + u.ring[1..])), p0, up0)
      && OnlySizes(h, h', {u.size}) && Added(h, h', x, u.size)
  {
    var lo', b' := Separate(z, u, lo, b);
    OrderedParts(u, lo', b');
    Chained(h, u, p, up, x);
    SizeIn(z, u, u.size);
    Replanted(h, NewLink(h, p, x), z, up, p0, up0, p, u.(ring := [u.ring[0], x] + u.ring[1..]), {u.size});
  }

  lemma AddedSizes(h: Links, h': Links, x: int, s: nat)
    requires Added(h, h', x, s)
    ensures SizesOf(h') == SizesOf(h)[x := s]
  {
    forall c | c in h' ensures c in SizesOf(h)[x := s] && SizesOf(h)[x := s][c] == h'[c].size {
      if c != x { assert h'[c].size == h[c].size; }
    }
  }

  lemma BinFacts(h: Links, bins: map<nat, int>, treemap: nat, trees: Forest, i: nat)
    requires BinsOk(h, bins, treemap, trees) && i < BINS
    ensures i in bins && i in trees && Repr(h, trees[i], bins[i], BinSlot(i)) && Ordered(trees[i], Low(i), Depth(i))
    ensures trees[i].Node? <==> On(treemap, i)
  {
    assert BinOk(h, bins, treemap, trees, i);
  }

  lemma OneSize(h: Links, bins: map<nat, int>, treemap: nat, trees: Forest, i: nat, z: nat)
    requires BinsOk(h, bins, treemap, trees) && i < BINS && i in trees && HasSize(trees[i], z)
    ensures OfBin({z}, i)
  {
    assert BinOk(h, bins, treemap, trees, i);
  }

  /** The loop of insert_large_chunk, below the root p0 of the trie w. */
  method Descend(h: Links, p0: int, s: nat, k0: nat, x: int, ghost w: Tree, ghost up0: int, ghost lo0: nat,
      ghost b0: nat) returns (h': Links, ghost q: nat)
    requires w.Node? && Repr(h, w, p0, up0) && Aimed(w, lo0, b0, s, k0) && x !in h && x != 0
    ensures Repr(h', Trie.Insert(w, x, s, lo0, b0), p0, up0)
    ensures HasSize(w, q) && OnlySizes(h, h', {q}) && Added(h, h', x, s)
  {
    var k: nat := k0;
    var p := p0;
    ghost var z, u, up := Root, w, up0;
    ghost var lo: nat, b: nat := lo0, b0;
    while h[p].size != s
      invariant u.Node? && Reached(h, w, p0, up0, z, u, p, up) && Aimed(u, lo, b, s, k)
      invariant Plug(z, Trie.Insert(u, x, s, lo, b)) == Trie.Insert(w, x, s, lo0, b0)
      decreases u
    {
      var right := k >= SPACE / 2;
      StepDown(h, w, p0, up0, z, u, p, up, right);
      StepAimed(u, lo, b, s, k);
      var c := if right then h[p].right else h[p].left;
      k := 2 * k % SPACE;
      z, u, up := Deeper(z, u, right), Side(u, right), p;
      lo, b := if right then lo + Pow2(b - 1) else lo, b - 1;
      if c == 0 {
        LeafAdded(h, z, right, p, p0, up0, x, s, lo0, b0);
        return NewLeaf(h, p, right, x, s), z.size;
      }
      p := c;
    }
    ChainAdded(h, z, u, p, up, p0, up0, x, lo0, b0);
    h', q := NewLink(h, p, x), s;
  }

  /** mark_treemap */
  method MarkBin(m: nat, i: nat) returns (m': nat)
    requires m < Pow2(BINS) && i < BINS
    ensures m' < Pow2(BINS) && forall j: nat :: On(m', j) <==> j == i || On(m, j)
  {
    m' := Mark(m, i);
    OrBelow(m, BitAt(i), BINS);
    forall j: nat ensures On(m', j) <==> j == i || On(m, j) { Marked(m, i, j); }
  }

  /** clear_treemap */
  method ClearBin(m: nat, i: nat) returns (m': nat)
    requires m < Pow2(BINS) && i < BINS
    ensures m' < Pow2(BINS) && forall j: nat :: On(m', j) <==> j != i && On(m, j)
  {
    m' := Unmark(m, i);
    AndBelow(m, Not(BitAt(i), BINS));
    forall j: nat ensures On(m', j) <==> j != i && On(m, j) { Unmarked(m, i, j); }
  }

  /** A chunk that is not in the tree can go. */
  lemma {:induction false} ReprWithout(h: Links, t: Tree, p: int, up: int, x: int)
    requires Repr(h, t, p, up) && forall z: nat :: !Has(t, x, z)
    ensures Repr(h - {x}, t, p, up)
  {
    if t.Node? {
      forall z: nat ensures !Has(t.left, x, z) && !Has(t.right, x, z) { assert !Has(t, x, z); }
      ReprWithout(h, t.left, h[p].left, p, x);
      ReprWithout(h, t.right, h[p].right, p, x);
      assert !Has(t, x, t.size);
      RingWithout(h, t.ring, t.size, x);
    }
  }

  lemma RingWithout(h: Links, ring: seq<int>, size: nat, x: int)
    requires Ringed(h, ring, size) && x !in ring
    ensures Ringed(h - {x}, ring, size)
  {
    forall j | 0 <= j < |ring| ensures Linked(h - {x}, ring, j) {
      assert Linked(h, ring, j) && ring[j] in ring && Succ(ring, j) in ring;
    }
  }

  /** The bin of the chunk that left. */
  lemma UnlinkedBin(h: Links, h': Links, t: Tree, root: int, i: nat, x: int, w: Tree)
    requires x in h && i == TreeIndex(h[x].size) && i < BINS && Has(w, x, h[x].size) && Ordered(w, Low(i), Depth(i))
    requires (forall z: nat :: Has(w, x, z) ==> z == h[x].size) && t == Trie.Unlink(w, x, h[x].size, Low(i), Depth(i))
    requires Repr(h', t, root, BinSlot(i))
    ensures Ordered(t, Low(i), Depth(i)) && Repr(h' - {x}, t, root, BinSlot(i))
    ensures forall z: nat :: HasSize(t, z) ==> HasSize(w, z)
    ensures forall c, z: nat :: Has(t, c, z) <==> Has(w, c, z) && c != x
  {
    var s := h[x].size;
    UnlinkOrdered(w, x, s, Low(i), Depth(i));
    forall c, z: nat ensures Has(t, c, z) <==> Has(w, c, z) && c != x {
      UnlinkHas(w, x, s, Low(i), Depth(i), c, z);
    }
    forall z: nat | HasSize(t, z) ensures HasSize(w, z) { UnlinkSizes(w, x, s, Low(i), Depth(i), z); }
    ReprWithout(h', t, root, BinSlot(i), x);
  }

  /** A bin of other sizes does not notice that x has gone. */
  lemma OtherBinWithout(h: Links, h': Links, bins: map<nat, int>, bins': map<nat, int>, treemap: nat, treemap': nat,
      trees: Forest, trees': Forest, i: nat, S: set<nat>, j: nat, x: int)
    requires BinsOk(h, bins, treemap, trees) && SameBut(bins, bins', treemap, treemap', trees, trees', i)
    requires OfBin(S, i) && OnlySizes(h, h', S) && j < BINS && j != i && x in h && TreeIndex(h[x].size) == i
    ensures BinOk(h' - {x}, bins', treemap', trees', j)
  {
    assert BinOk(h, bins, treemap, trees, j);
    ReprFrame(h, h', trees[j], bins[j], BinSlot(j), S);
    forall z: nat ensures !Has(trees[j], x, z) {
      if Has(trees[j], x, z) {
        ReprHas(h, trees[j], bins[j], BinSlot(j), x, z);
        HasHasSize(trees[j], x, z);
      }
    }
    ReprWithout(h', trees[j], bins[j], BinSlot(j), x);
  }

  /** What it takes for x to have been unlinked. */
  ghost predicate Unlinking(h: Links, h': Links, bins: map<nat, int>, treemap: nat, trees: Forest, x: int, i: nat,
      t: Tree, root: int)
  {
    && BinsOk(h, bins, treemap, trees) && x in h && i == TreeIndex(h[x].size) && i < BINS && i in trees
    && TreeUnlinking.Resized(h, h') && t == Trie.Unlink(trees[i], x, h[x].size, Low(i), Depth(i))
    && Repr(h', t, root, BinSlot(i))
  }

  lemma OneHome(h: Links, h': Links, bins: map<nat, int>, treemap: nat, trees: Forest, x: int, i: nat, t: Tree,
      root: int)
    requires Unlinking(h, h', bins, treemap, trees, x, i, t, root)
    ensures Ordered(t, Low(i), Depth(i)) && Repr(h' - {x}, t, root, BinSlot(i))
    ensures forall z: nat :: HasSize(t, z) ==> MIN_LARGE <= z < SPACE && TreeIndex(z) == i
    ensures forall c, z: nat :: Has(t, c, z) <==> Has(trees[i], c, z) && c != x
  {
    assert InBin(h, trees, x) && BinOk(h, bins, treemap, trees, i);
    forall z: nat | Has(trees[i], x, z) ensures z == h[x].size { ReprHas(h, trees[i], bins[i], BinSlot(i), x, z); }
    UnlinkedBin(h, h', t, root, i, x, trees[i]);
  }

  lemma OthersHome(h: Links, h': Links, bins: map<nat, int>, treemap: nat, trees: Forest, x: int, i: nat, t: Tree,
      root: int, c: int)
    requires Unlinking(h, h', bins, treemap, trees, x, i, t, root) && c in h' - {x}
    ensures InBin(h' - {x}, trees[i := t], c)
  {
    OneHome(h, h', bins, treemap, trees, x, i, t, root);
    assert InBin(h, trees, c);
  }

  /** One chunk fewer. */
  lemma Removed(h: Links, h': Links, bins: map<nat, int>, treemap: nat, treemap': nat, trees: Forest, x: int, i: nat,
      t: Tree, root: int, S: set<nat>)
    requires Unlinking(h, h', bins, treemap, trees, x, i, t, root) && OfBin(S, i) && OnlySizes(h, h', S)
    requires SameBut(bins, bins[i := root], treemap, treemap', trees, trees[i := t], i) &&
      (On(treemap', i) <==> t.Node?)
    ensures BinsOk(h' - {x}, bins[i := root], treemap', trees[i := t])
  {
    var h2, bins2, trees2 := h' - {x}, bins[i := root], trees[i := t];
    OneHome(h, h', bins, treemap, trees, x, i, t, root);
    forall j: nat | j < BINS ensures BinOk(h2, bins2, treemap', trees2, j) {
      if j != i { OtherBinWithout(h, h', bins, bins2, treemap, treemap', trees, trees2, i, S, j, x); }
    }
    forall c | c in h2 ensures InBin(h2, trees2, c) {
      OthersHome(h, h', bins, treemap, trees, x, i, t, root, c);
    }
  }

  class TreeBins {
    var h: Links
    var bins: map<nat, int>
    var treemap: nat
    ghost var trees: Forest

    ghost predicate Valid()
      reads this
    {
      BinsOk(h, bins, treemap, trees)
    }

    /** The chunks in the bins with their sizes. */
    ghost function Held(): map<int, nat>
      reads this
    {
      SizesOf(h)
    }

    /** No bin has chunks. */
    constructor ()
      ensures Valid() && Held() == map[]
    {
      h := map[];
      bins := map i: nat {:trigger BinSlot(i)} | i < BINS :: 0;
      treemap := 0;
      trees := map i: nat {:trigger BinSlot(i)} | i < BINS :: Nil;
      new;
      forall i: nat ensures !On(treemap, i) { ZeroOn(i); }
    }

    /** insert_large_chunk */
    method Insert(x: int, s: nat)
      requires Valid() && x > 0 && x !in h && MIN_LARGE <= s < SPACE
      modifies this
      ensures Valid() && Held() == old(Held())[x := s]
    {
      var i := ComputeTreeIndex(s);
      if !On(treemap, i) {
        InsertFirst(x, s, i);
      } else {
        InsertBelow(x, s, i);
      }
    }

    /** An empty bin: the chunk becomes its tree. */
    method InsertFirst(x: int, s: nat, i: nat)
      requires Valid() && x > 0 && x !in h && MIN_LARGE <= s < SPACE && i == TreeIndex(s) && i < BINS && !On(treemap, i)
      modifies this
      ensures Valid() && Held() == old(Held())[x := s]
    {
      var h' := h[x := Link(s, x, x, 0, 0, BinSlot(i))];
      var m := MarkBin(treemap, i);
      ghost var trees' := trees[i := Node(s, [x], Nil, Nil)];
      FirstInserted(h, h', bins, treemap, m, trees, trees', x, s, i);
      h, bins, treemap, trees := h', bins[i := x], m, trees';
    }

    /** A bin that is not empty: a leaf, or one more chunk at the node of the size. */
    method InsertBelow(x: int, s: nat, i: nat)
      requires Valid() && x > 0 && x !in h && MIN_LARGE <= s < SPACE && i == TreeIndex(s) && i < BINS && On(treemap, i)
      modifies this`h, this`trees
      ensures Valid() && Held() == old(Held())[x := s]
    {
      ghost var h0 := h;
      ShiftedIs(s);
      BinFacts(h, bins, treemap, trees, i);
      ghost var q;
      h, q := Descend(h, bins[i], s, Shifted(s, i), x, trees[i], BinSlot(i), Low(i), Depth(i));
      OneSize(h0, bins, treemap, trees, i, q);
      Finish(h0, Trie.Insert(trees[i], x, s, Low(i), Depth(i)), x, s, {q});
    }

    /** The bin's trie is the one with x inserted. */
    ghost method Finish(h0: Links, t: Tree, x: int, s: nat, S: set<nat>)
      requires BinsOk(h0, bins, treemap, trees) && MIN_LARGE <= s < SPACE && x > 0 && x !in h0
      requires OfBin(S, TreeIndex(s)) && OnlySizes(h0, h, S) && Added(h0, h, x, s)
      requires var i := TreeIndex(s);
        i in trees && i in bins && Repr(h, t, bins[i], BinSlot(i)) && On(treemap, i)
        && t == Trie.Insert(trees[i], x, s, Low(i), Depth(i))
      modifies this`trees
      ensures BinsOk(h, bins, treemap, trees) && SizesOf(h) == SizesOf(h0)[x := s]
    {
      ghost var trees0 := trees;
      trees := trees[TreeIndex(s) := t];
      OneBin(bins, bins[TreeIndex(s)], treemap, treemap, trees0, t, TreeIndex(s));
      AddedSizes(h0, h, x, s);
      Inserted(h0, h, bins, bins, treemap, treemap, trees0, trees, x, s, S);
    }

    /** unlink_large_chunk */
    method Unlink(x: int)
      requires Valid() && x in h
      modifies this
      ensures Valid() && Held() == old(Held()) - {x}
    {
      assert InBin(h, trees, x);
      var i := ComputeTreeIndex(h[x].size);
      BinFacts(h, bins, treemap, trees, i);
      var h', root;
      ghost var t, S;
      h', root, t, S := TreeUnlinking.Detach(h, x, bins[i], trees[i], BinSlot(i), Low(i), Depth(i));
      TreeSizes(h, bins, treemap, trees, i, S);
      HasHasSize(trees[i], x, h[x].size);
      Settle(x, i, h', root, t, S);
    }

    /** The links h' and the root stand for the bin's trie without x. */
    method Settle(x: int, i: nat, h': Links, root: int, ghost t: Tree, ghost S: set<nat>)
      requires Unlinking(h, h', bins, treemap, trees, x, i, t, root) && OfBin(S, i) && OnlySizes(h, h', S) &&
        On(treemap, i)
      modifies this
      ensures BinsOk(h, bins, treemap, trees) && SizesOf(h) == SizesOf(old(h)) - {x}
    {
      RootIn(h', t, root, BinSlot(i));
      var m := treemap;
      if root == 0 { m := ClearBin(m, i); }
      OneBin(bins, root, treemap, m, trees, t, i);
      Removed(h, h', bins, treemap, m, trees, x, i, t, root, S);
      SizesWithout(h, h' - {x}, x);
      h, bins, treemap, trees := h' - {x}, bins[i := root], m, trees[i := t];
    }
  }

  lemma EmptyBin(h: Links, bins: map<nat, int>, treemap: nat, trees: Forest, i: nat)
    requires BinsOk(h, bins, treemap, trees) && i < BINS && !On(treemap, i)
    ensures i in trees && trees[i].Nil? && i in bins
  {
    assert BinOk(h, bins, treemap, trees, i);
  }

  lemma FirstTrie(h': Links, t: Tree, x: int, s: nat, slot: int, lo: nat, b: nat)
    requires t.Nil? && x != 0 && x in h' && h'[x] == Link(s, x, x, 0, 0, slot)
    ensures Insert(t, x, s, lo, b) == Node(s, [x], Nil, Nil) && Repr(h', Node(s, [x], Nil, Nil), x, slot)
  {
  }

  /** The trie of the first chunk of a bin. */
  lemma FirstInserted(h: Links, h': Links, bins: map<nat, int>, treemap: nat, m: nat, trees: Forest, trees': Forest,
      x: int, s: nat, i: nat)
    requires BinsOk(h, bins, treemap, trees) && x > 0 && x !in h && MIN_LARGE <= s < SPACE && i == TreeIndex(s) &&
      i < BINS
    requires !On(treemap, i) && On(m, i) && m < Pow2(BINS) && forall j: nat :: j != i ==> (On(m, j) <==> On(treemap, j))
    requires h' == h[x := Link(s, x, x, 0, 0, BinSlot(i))] && trees' == trees[i := Node(s, [x], Nil, Nil)]
    ensures BinsOk(h', bins[i := x], m, trees') && SizesOf(h') == SizesOf(h)[x := s]
  {
    EmptyBin(h, bins, treemap, trees, i);
    FirstTrie(h', trees[i], x, s, BinSlot(i), Low(i), Depth(i));
    OneBin(bins, x, treemap, m, trees, Node(s, [x], Nil, Nil), i);
    AddedSizes(h, h', x, s);
    Inserted(h, h', bins, bins[i := x], treemap, m, trees, trees', x, s, {});
  }

  /** One bin gets another root and trie. */
  lemma OneBin(bins: map<nat, int>, root: int, treemap: nat, treemap': nat, trees: Forest, t: Tree, i: nat)
    requires treemap' < Pow2(BINS) && forall j: nat :: j != i ==> (On(treemap', j) <==> On(treemap, j))
    ensures SameBut(bins, bins[i := root], treemap, treemap', trees, trees[i := t], i)
  {
  }

  lemma TreeSizes(h: Links, bins: map<nat, int>, treemap: nat, trees: Forest, i: nat, S: set<nat>)
    requires BinsOk(h, bins, treemap, trees) && i < BINS && i in trees && forall q :: q in S ==> HasSize(trees[i], q)
    ensures OfBin(S, i)
  {
    assert BinOk(h, bins, treemap, trees, i);
  }

  lemma SizesWithout(h: Links, h': Links, x: int)
    requires h'.Keys == h.Keys - {x} && forall c :: c in h' ==> h'[c].size == h[c].size
    ensures SizesOf(h') == SizesOf(h) - {x}
  {
    forall c | c in h' ensures c in SizesOf(h) - {x} && (SizesOf(h) - {x})[c] == h'[c].size {
      assert h'[c].size == h[c].size;
    }
    assert (SizesOf(h) - {x}).Keys == h'.Keys;
  }
}
