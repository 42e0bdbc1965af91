/** The searches of tmalloc_large and tmalloc_small for the best fitting chunk in the tree bins. */
module TreeSearching {
  import opened Digits
  import opened BinMaps
  import opened Trie
  import opened TreeLinks
  import opened TreeBinning

  /** size - nb as an unsigned word */
  function Excess(size: nat, nb: nat): nat
    requires size < SPACE && nb < SPACE
  {
    if size >= nb then size - nb else SPACE + size - nb
  }

  /** v is the best fit so far, rsize bytes too large; 0 if there is none. */
  ghost predicate Fit(h: Links, w: Tree, v: int, rsize: nat, nb: nat) {
    if v == 0 then rsize == SPACE - nb
      else v in h && h[v].size == nb + rsize && HasSize(w, nb + rsize) && nb + rsize < SPACE
  }

  /** t is part of the trie w. */
  ghost predicate Within(w: Tree, t: Tree) {
    forall z: nat :: HasSize(t, z) ==> HasSize(w, z) && z < SPACE
  }

  /**
    * Where the descent in the trie w has come to: sizes that fit and might be
    * better than what was found lie in u, which covers [lo, lo + 2^b), or above
    * in the subtree r, the deepest right one not taken, which starts at rlo.
    */
  ghost predicate Left(w: Tree, u: Tree, lo: nat, b: nat, r: Tree, rlo: nat, rb: nat, nb: nat, rsize: nat) {
    && (r.Node? ==> rlo >= lo + Pow2(b) && Ordered(r, rlo, rb))
    && forall z: nat :: HasSize(w, z) && nb <= z < nb + rsize ==> Pending(u, lo, b, r, rlo, rb, z)
  }

  predicate Pending(u: Tree, lo: nat, b: nat, r: Tree, rlo: nat, rb: nat, z: nat) {
    if z < lo + Pow2(b) then HasSize(u, z) else r.Node? && z >= rlo && (HasSize(r, z) || z >= rlo + Pow2(rb))
  }

  /** Which part of u a size is in. */
  predicate PartOf(u: Tree, lo: nat, b: nat, z: nat)
    requires u.Node? && b > 0
  {
    || z == u.size
    || (HasSize(u.left, z) && lo <= z < lo + Pow2(b - 1))
    || (HasSize(u.right, z) && lo + Pow2(b - 1) <= z < lo + Pow2(b))
  }

  lemma SidesOf(u: Tree, lo: nat, b: nat)
    requires Ordered(u, lo, b) && u.Node? && b > 0
    ensures forall z: nat :: HasSize(u, z) ==> PartOf(u, lo, b, z)
  {
    forall z: nat | HasSize(u, z) ensures PartOf(u, lo, b, z) {
      if HasSize(u.left, z) { SizeInRange(u.left, z, lo, b - 1); }
      if HasSize(u.right, z) { SizeInRange(u.right, z, lo + Pow2(b - 1), b - 1); }
    }
  }

  lemma GoRight(w: Tree, u: Tree, lo: nat, b: nat, r: Tree, rlo: nat, rb: nat, nb: nat, rsize: nat)
    requires Left(w, u, lo, b, r, rlo, rb, nb, rsize) && Ordered(u, lo, b) && u.Node? && b > 0
    requires (u.size >= nb ==> u.size >= nb + rsize) && Right(nb, lo, b)
    ensures Left(w, u.right, lo + Pow2(b - 1), b - 1, r, rlo, rb, nb, rsize)
  {
    SidesOf(u, lo, b);
  }

  lemma GoLeft(w: Tree, u: Tree, lo: nat, b: nat, r: Tree, rlo: nat, rb: nat, nb: nat, rsize: nat)
    requires Left(w, u, lo, b, r, rlo, rb, nb, rsize) && Ordered(u, lo, b) && u.Node? && b > 0
    requires (u.size >= nb ==> u.size >= nb + rsize) && !Right(nb, lo, b)
    ensures u.right.Node? ==> Left(w, u.left, lo, b - 1, u.right, lo + Pow2(b - 1), b - 1, nb, rsize)
    ensures u.right.Nil? ==> Left(w, u.left, lo, b - 1, r, rlo, rb, nb, rsize)
  {
    SidesOf(u, lo, b);
  }

  /** A better fit found in passing narrows what is left. */
  lemma Narrowed(w: Tree, u: Tree, lo: nat, b: nat, r: Tree, rlo: nat, rb: nat, nb: nat, rsize: nat, rsize': nat)
    requires Left(w, u, lo, b, r, rlo, rb, nb, rsize) && rsize' <= rsize
    ensures Left(w, u, lo, b, r, rlo, rb, nb, rsize')
  {
  }

  /** What is not in u or above its range fits no better than what was found. */
  ghost predicate Remaining(w: Tree, u: Tree, lo: nat, b: nat, nb: nat, rsize: nat) {
    forall z: nat :: HasSize(w, z) && z >= nb ==> HasSize(u, z) || (u.Node? && z >= lo + Pow2(b)) || z >= nb + rsize
  }

  /** When the path ends, only the deepest right subtree not taken remains. */
  lemma PathEnd(w: Tree, u: Tree, lo: nat, b: nat, r: Tree, rlo: nat, rb: nat, nb: nat, rsize: nat)
    requires Left(w, u, lo, b, r, rlo, rb, nb, rsize) && u.Nil?
    ensures Remaining(w, r, rlo, rb, nb, rsize)
  {
  }

  /** The left and the right child are different chunks. */
  lemma ChildrenDiffer(h: Links, u: Tree, t: int, up: int, lo: nat, b: nat)
    requires Repr(h, u, t, up) && u.Node? && Ordered(u, lo, b)
    ensures t in h && h[t].size == u.size
    ensures h[t].right != 0 ==> u.right.Node? && h[t].right != h[t].left
    ensures h[t].right == 0 ==> u.right.Nil?
  {
    RootIn(h, u.left, h[t].left, t);
    RootIn(h, u.right, h[t].right, t);
    if u.left.Node? && u.right.Node? { SidesApart(u, lo, b, u.left.size); }
  }

  /** Where the descent is: at u, which covers [lo, lo + 2^b), with r set aside. */
  datatype Trail = Trail(u: Tree, lo: nat, b: nat, r: Tree, rlo: nat, rb: nat)

  ghost function Step(y: Trail, right: bool): Trail
    requires y.u.Node? && y.b > 0
  {
    var mid := y.lo + Pow2(y.b - 1);
    if right then Trail(y.u.right, mid, y.b - 1, y.r, y.rlo, y.rb)
    else if y.u.right.Node? then Trail(y.u.left, y.lo, y.b - 1, y.u.right, mid, y.b - 1)
    else Trail(y.u.left, y.lo, y.b - 1, y.r, y.rlo, y.rb)
  }

  /** The trail leaves out nothing that fits better. */
  ghost predicate Sound(w: Tree, y: Trail, nb: nat, rsize: nat) {
    Left(w, y.u, y.lo, y.b, y.r, y.rlo, y.rb, nb, rsize) && (y.r.Node? ==> y.rlo >= nb)
  }

  ghost predicate InMemory(h: Links, w: Tree, y: Trail, t: int, up: int, rst: int, rUp: int) {
    Repr(h, y.u, t, up) && Repr(h, y.r, rst, rUp) && Within(w, y.u) && Within(w, y.r)
  }

  lemma StepSound(w: Tree, y: Trail, nb: nat, rsize: nat, rsize': nat, k: nat)
    requires Sound(w, y, nb, rsize) && Aimed(y.u, y.lo, y.b, nb, k) && y.u.Node? && y.u.size != nb
    requires rsize' <= rsize && (y.u.size >= nb ==> y.u.size >= nb + rsize')
    ensures y.b > 0
    ensures var z := Step(y, k >= SPACE / 2); Sound(w, z, nb, rsize') && Aimed(z.u, z.lo, z.b, nb, 2 * k % SPACE)
  {
    StepAimed(y.u, y.lo, y.b, nb, k);
    Narrowed(w, y.u, y.lo, y.b, y.r, y.rlo, y.rb, nb, rsize, rsize');
    if k >= SPACE / 2 {
      GoRight(w, y.u, y.lo, y.b, y.r, y.rlo, y.rb, nb, rsize');
    } else {
      GoLeft(w, y.u, y.lo, y.b, y.r, y.rlo, y.rb, nb, rsize');
    }
  }

  lemma StepInMemory(h: Links, w: Tree, y: Trail, t: int, up: int, rst: int, rUp: int, right: bool)
    requires InMemory(h, w, y, t, up, rst, rUp) && y.u.Node? && y.b > 0 && Ordered(y.u, y.lo, y.b)
    ensures t in h && h[t].size == y.u.size < SPACE
    ensures var rt, next := h[t].right, if right then h[t].right else h[t].left;
      var taken := rt != 0 && rt != next;
      InMemory(h, w, Step(y, right), next, t, if taken then rt else rst, if taken then t else rUp)
  {
    Subtrees(w, y.u);
    ChildrenDiffer(h, y.u, t, up, y.lo, y.b);
  }

  /** The descent goes on at t, with rst set aside. */
  ghost predicate Going(h: Links, w: Tree, y: Trail, t: int, up: int, rst: int, rUp: int, nb: nat, k: nat, rsize: nat) {
    && Aimed(y.u, y.lo, y.b, nb, k) && InMemory(h, w, y, t, up, rst, rUp) && Sound(w, y, nb, rsize)
  }

  function NextChild(h: Links, t: int, k: nat): int
    requires t in h
  {
    if k >= SPACE / 2 then h[t].right else h[t].left
  }

  /** A right child not on the path. */
  predicate SetAside(h: Links, t: int, k: nat)
    requires t in h
  {
    h[t].right != 0 && h[t].right != NextChild(h, t, k)
  }

  lemma GoingOn(h: Links, w: Tree, y: Trail, t: int, up: int, rst: int, rUp: int, nb: nat, k: nat, rsize: nat,
      rsize': nat)
    requires Going(h, w, y, t, up, rst, rUp, nb, k, rsize) && y.u.Node? && t in h && y.u.size == h[t].size != nb
    requires rsize' <= rsize && (y.u.size >= nb ==> y.u.size >= nb + rsize')
    ensures y.b > 0
    ensures var aside := SetAside(h, t, k);
      Going(h, w, Step(y, k >= SPACE / 2), NextChild(h, t, k), t, if aside then h[t].right else rst,
        if aside then t else rUp,
        nb, 2 * k % SPACE, rsize')
  {
    StepSound(w, y, nb, rsize, rsize', k);
    StepInMemory(h, w, y, t, up, rst, rUp, k >= SPACE / 2);
  }

  lemma Arrived(h: Links, w: Tree, y: Trail, t: int, up: int, rst: int, rUp: int, nb: nat, k: nat, rsize: nat)
    requires Going(h, w, y, t, up, rst, rUp, nb, k, rsize)
    ensures t == 0 <==> y.u.Nil?
    ensures y.u.Node? ==> t in h && h[t].size == y.u.size < SPACE && HasSize(w, y.u.size)
    ensures Repr(h, y.u, t, up) && Within(w, y.u)
    ensures t == 0 ==> EndsIn(h, w, y.r, rst, rUp, y.rlo, y.rb, nb, rsize)
  {
    RootIn(h, y.u, t, up);
    if y.u.Node? { Subtrees(w, y.u); } else { Ending(w, y, nb, rsize); }
  }

  lemma Ending(w: Tree, y: Trail, nb: nat, rsize: nat)
    requires Sound(w, y, nb, rsize) && y.u.Nil?
    ensures Remaining(w, y.r, y.rlo, y.rb, nb, rsize) && AllFit(y.r, nb) && (y.r.Node? ==> Ordered(y.r, y.rlo, y.rb))
  {
    PathEnd(w, y.u, y.lo, y.b, y.r, y.rlo, y.rb, nb, rsize);
    forall z: nat | HasSize(y.r, z) ensures z >= nb { SizeInRange(y.r, z, y.rlo, y.rb); }
  }

  /** Only the tree u at t is left to search, from its smallest size on. */
  ghost predicate EndsIn(h: Links, w: Tree, u: Tree, t: int, up: int, lo: nat, b: nat, nb: nat, rsize: nat) {
    Repr(h, u, t, up) && Within(w, u) && Ordered(u, lo, b) && AllFit(u, nb) && Remaining(w, u, lo, b, nb, rsize)
  }

  /** One node of the path: it may be the best so far, and its right child may be set aside. */
  method Descend(h: Links, t0: int, nb: nat, k0: nat, v0: int, rsize0: nat, rst0: int, ghost w: Tree, ghost y0: Trail,
      ghost up0: int,
    ghost rUp0: int)
      returns (t: int, k: nat, v: int, rsize: nat, rst: int, ghost y: Trail, ghost up: int, ghost rUp: int)
    requires t0 != 0 && Going(h, w, y0, t0, up0, rst0, rUp0, nb, k0, rsize0) && Fit(h, w, v0, rsize0, nb) &&
      rsize0 > 0 && 0 < nb < SPACE
    ensures Fit(h, w, v, rsize, nb)
    ensures rsize > 0 ==> Going(h, w, y, t, up, rst, rUp, nb, k, rsize) && y.b < y0.b
  {
    t, k, v, rsize, rst, y, up, rUp := t0, k0, v0, rsize0, rst0, y0, up0, rUp0;
    Arrived(h, w, y, t, up, rst, rUp, nb, k, rsize);
    var trem := Excess(h[t].size, nb);
    if trem < rsize {
      v, rsize := t, trem;
      if rsize == 0 { return; }
    }
    GoingOn(h, w, y, t, up, rst, rUp, nb, k, rsize0, rsize);
    if SetAside(h, t, k) { rst, rUp := h[t].right, t; }
    t, k, y, up := NextChild(h, t, k), 2 * k % SPACE, Step(y, k >= SPACE / 2), t;
  }

  /** The descent in the bin of nb's own size, which may end at a subtree left to search. */
  method Descent(h: Links, p0: int, nb: nat, k0: nat, ghost w: Tree, ghost up0: int, ghost lo0: nat, ghost b0: nat)
      returns (t: int, v: int, rsize: nat, ghost u: Tree, ghost up: int, ghost lo: nat, ghost b: nat)
    requires w.Node? && Repr(h, w, p0, up0) && Aimed(w, lo0, b0, nb, k0) && 0 < nb < SPACE && Within(w, w)
    ensures Fit(h, w, v, rsize, nb)
    ensures rsize > 0 ==> EndsIn(h, w, u, t, up, lo, b, nb, rsize)
  {
    t, v, rsize, u, up, lo, b := p0, 0, SPACE - nb, w, up0, lo0, b0;
    var k: nat, rst := k0, 0;
    ghost var y, rUp := Trail(w, lo0, b0, Nil, 0, 0), 0;
    StartLeft(w, lo0, b0, nb, SPACE - nb);
    while t != 0
      invariant Going(h, w, y, t, up, rst, rUp, nb, k, rsize)
      invariant Fit(h, w, v, rsize, nb) && rsize > 0
      decreases y.b
    {
      t, k, v, rsize, rst, y, up, rUp := Descend(h, t, nb, k, v, rsize, rst, w, y, up, rUp);
      if rsize == 0 { return; }
    }
    Arrived(h, w, y, t, up, rst, rUp, nb, k, rsize);
    t, u, up, lo, b := rst, y.r, rUp, y.rlo, y.rb;
  }

  lemma StartLeft(w: Tree, lo: nat, b: nat, nb: nat, rsize: nat)
    requires Ordered(w, lo, b)
    ensures Left(w, w, lo, b, Nil, 0, 0, nb, rsize)
  {
    forall z: nat | HasSize(w, z) ensures z < lo + Pow2(b) { SizeInRange(w, z, lo, b); }
  }

  lemma Subtrees(w: Tree, u: Tree)
    requires u.Node? && Within(w, u)
    ensures Within(w, u.left) && Within(w, u.right) && u.size < SPACE && HasSize(w, u.size)
  {
    assert HasSize(u, u.size);
    forall z: nat | HasSize(u.left, z) || HasSize(u.right, z) ensures HasSize(w, z) &&
      z < SPACE { assert HasSize(u, z); }
  }

  /** Nothing in w that fits is better than what was found. */
  ghost predicate Best(w: Tree, nb: nat, rsize: nat) {
    forall z: nat :: HasSize(w, z) && z >= nb ==> z >= nb + rsize
  }

  /** leftmost_child */
  function LeftmostChild(h: Links, t: int): int
    requires t in h
  {
    if h[t].left != 0 then h[t].left else h[t].right
  }

  lemma KeepLeft(w: Tree, u: Tree, lo: nat, b: nat, nb: nat, rsize: nat) returns (lo': nat, b': nat)
    requires Ordered(u, lo, b) && u.Node? && nb + rsize <= u.size && Remaining(w, u, lo, b, nb, rsize)
    ensures var c := if u.left.Node? then u.left else u.right;
      Ordered(c, lo', b') && lo' >= lo && Remaining(w, c, lo', b', nb, rsize)
  {
    if b == 0 {
      lo', b' := lo, 0;
    } else {
      SidesOf(u, lo, b);
      lo', b' := if u.left.Node? then lo else lo + Pow2(b - 1), b - 1;
    }
  }

  ghost predicate AllFit(t: Tree, nb: nat) {
    forall z: nat :: HasSize(t, z) ==> z >= nb
  }

  lemma PartsFit(u: Tree, nb: nat)
    requires u.Node? && AllFit(u, nb)
    ensures u.size >= nb && AllFit(u.left, nb) && AllFit(u.right, nb)
  {
    assert HasSize(u, u.size);
    forall z: nat | HasSize(u.left, z) || HasSize(u.right, z) ensures z >= nb { assert HasSize(u, z); }
  }

  /** The loop that finds the smallest size below t, all of which fit. */
  method Leftmost(h: Links, t0: int, nb: nat, v0: int, rsize0: nat, ghost w: Tree, ghost u0: Tree, ghost up0: int,
      ghost lo0: nat, ghost b0: nat) returns (v: int, rsize: nat)
    requires Repr(h, u0, t0, up0) && Ordered(u0, lo0, b0) && Within(w, u0) && AllFit(u0, nb) && nb < SPACE
    requires Fit(h, w, v0, rsize0, nb) && Remaining(w, u0, lo0, b0, nb, rsize0)
    ensures Fit(h, w, v, rsize, nb) && Best(w, nb, rsize) && (v == 0 ==> v0 == 0 && u0.Nil?)
  {
    var t := t0;
    v, rsize := v0, rsize0;
    ghost var u, up, lo: nat, b: nat := u0, up0, lo0, b0;
    while t != 0
      invariant Repr(h, u, t, up) && Ordered(u, lo, b) && Within(w, u) && AllFit(u, nb)
      invariant Fit(h, w, v, rsize, nb) && Remaining(w, u, lo, b, nb, rsize)
      invariant v == 0 ==> v0 == 0 && (u0.Nil? || u == u0)
      decreases u
    {
      Subtrees(w, u);
      PartsFit(u, nb);
      RootIn(h, u.left, h[t].left, t);
      var trem := Excess(h[t].size, nb);
      if trem < rsize { v, rsize := t, trem; }
      ghost var lo', b' := KeepLeft(w, u, lo, b, nb, rsize);
      u, up, lo, b := if u.left.Node? then u.left else u.right, t, lo', b';
      t := LeftmostChild(h, t);
    }
  }

  lemma BinsRise(s: nat, z: nat)
    requires MIN_LARGE <= s < SPACE && MIN_LARGE <= z < SPACE
    ensures TreeIndex(s) < TreeIndex(z) ==> s < z
  {
    IndexIs(s);
    IndexIs(z);
    if TreeIndex(s) < TreeIndex(z) { SizesRise(TreeIndex(s) + 1, TreeIndex(z)); }
  }

  /** No chunk fits better than what was found. */
  ghost predicate BestOfAll(held: map<int, nat>, nb: nat, rsize: nat) {
    forall c :: c in held && held[c] >= nb ==> held[c] >= nb + rsize
  }

  /** The best of the chunks that fit. */
  ghost predicate SmallestFit(held: map<int, nat>, v: int, rsize: nat, nb: nat) {
    if v == 0 then rsize == SPACE - nb && forall c :: c in held ==> held[c] < nb
    else v in held && held[v] == nb + rsize && BestOfAll(held, nb, rsize)
  }

  lemma TreeOf(b: TreeBins, i: nat)
    requires b.Valid() && i < BINS
    ensures i in b.bins && i in b.trees && Repr(b.h, b.trees[i], b.bins[i], BinSlot(i))
    ensures Ordered(b.trees[i], Low(i), Depth(i)) && Within(b.trees[i], b.trees[i])
    ensures b.trees[i].Node? <==> On(b.treemap, i)
    ensures forall z: nat :: HasSize(b.trees[i], z) ==> MIN_LARGE <= z < SPACE && TreeIndex(z) == i
  {
    assert BinOk(b.h, b.bins, b.treemap, b.trees, i);
  }

  lemma ChunkIn(b: TreeBins, c: int)
    requires b.Valid() && c in b.h
    ensures MIN_LARGE <= b.h[c].size < SPACE && TreeIndex(b.h[c].size) < BINS && TreeIndex(b.h[c].size) in b.trees
    ensures HasSize(b.trees[TreeIndex(b.h[c].size)], b.h[c].size) && On(b.treemap, TreeIndex(b.h[c].size))
  {
    assert InBin(b.h, b.trees, c);
    IndexIs(b.h[c].size);
    TreeOf(b, TreeIndex(b.h[c].size));
    HasHasSize(b.trees[TreeIndex(b.h[c].size)], c, b.h[c].size);
  }

  /** What is best in the bin of nb's size is best of all, and so is what is best in the first later bin if that one
      has none. */
  lemma BestInBin(b: TreeBins, i: nat, nb: nat, v: int, rsize: nat)
    requires b.Valid() && nb < SPACE && i < BINS && i in b.trees && v != 0 && Fit(b.h, b.trees[i], v, rsize, nb)
    requires Best(b.trees[i], nb, rsize)
    requires forall c :: c in b.h && b.h[c].size >= nb ==> TreeIndex(b.h[c].size) >= i
    ensures SmallestFit(b.Held(), v, rsize, nb)
  {
    TreeOf(b, i);
    forall c | c in b.Held() && b.Held()[c] >= nb ensures b.Held()[c] >= nb + rsize {
      NotBelow(b, i, nb, rsize, c);
    }
  }

  lemma NotBelow(b: TreeBins, i: nat, nb: nat, rsize: nat, c: int)
    requires b.Valid() && i < BINS && i in b.trees && Best(b.trees[i], nb, rsize) && TreeIndex(nb + rsize) <= i
    requires MIN_LARGE <= nb + rsize < SPACE
    requires c in b.h && b.h[c].size >= nb && TreeIndex(b.h[c].size) >= i
    ensures b.h[c].size >= nb + rsize
  {
    ChunkIn(b, c);
    if TreeIndex(b.h[c].size) > i { BinsRise(nb + rsize, b.h[c].size); }
  }

  /** The search in the first later bin that has chunks. */
  method LaterFit(b: TreeBins, nb: nat, idx: nat) returns (v: int, rsize: nat)
    requires b.Valid() && MIN_LARGE <= nb < SPACE && idx == TreeIndex(nb) && idx < BINS
    requires forall z: nat :: idx in b.trees && HasSize(b.trees[idx], z) ==> z < nb
    ensures SmallestFit(b.Held(), v, rsize, nb)
  {
    v, rsize := 0, SPACE - nb;
    TreeOf(b, idx);
    var leftbits := LeftOf(b.treemap, idx);
    if leftbits != 0 {
      var i := FirstBin(leftbits);
      TreeOf(b, i);
      LaterOnly(b, nb, idx, i);
      v, rsize := Leftmost(b.h, b.bins[i], nb, 0, SPACE - nb, b.trees[i], b.trees[i], BinSlot(i), Low(i), Depth(i));
      BestInBin(b, i, nb, v, rsize);
    } else {
      NoLater(b, nb, idx);
    }
  }

  /** left_bits(idx2bit(idx)) & m */
  method LeftOf(m: nat, idx: nat) returns (leftbits: nat)
    requires m < Pow2(BINS) && idx < BINS
    ensures leftbits < Pow2(BINS) && forall j: nat :: On(leftbits, j) <==> idx < j && On(m, j)
    ensures leftbits == 0 ==> forall j: nat :: On(m, j) ==> j <= idx
  {
    leftbits := And(LeftBits(BitAt(idx), BINS), m);
    AndAtMost(LeftBits(BitAt(idx), BINS), m);
    forall j: nat ensures On(leftbits, j) <==> idx < j && On(m, j) { LaterBins(m, idx, j); }
    if leftbits == 0 {
      forall j: nat | On(m, j) ensures j <= idx { ZeroOn(j); }
    }
  }

  /** Chunks that fit are in bin i or later. */
  lemma LaterOnly(b: TreeBins, nb: nat, idx: nat, i: nat)
    requires b.Valid() && MIN_LARGE <= nb < SPACE && idx == TreeIndex(nb) && idx < i < BINS && idx in b.trees
    requires forall z: nat :: HasSize(b.trees[idx], z) ==> z < nb
    requires forall j: nat :: On(b.treemap, j) && idx < j ==> i <= j
    ensures forall c :: c in b.h && b.h[c].size >= nb ==> TreeIndex(b.h[c].size) >= i
    ensures i in b.trees && AllFit(b.trees[i], nb)
  {
    forall c | c in b.h && b.h[c].size >= nb ensures TreeIndex(b.h[c].size) >= i {
      ChunkIn(b, c);
      if TreeIndex(b.h[c].size) < idx { BinsRise(b.h[c].size, nb); }
    }
    TreeOf(b, i);
    forall z: nat | HasSize(b.trees[i], z) ensures z >= nb { BinsRise(nb, z); }
  }

  lemma NoLater(b: TreeBins, nb: nat, idx: nat)
    requires b.Valid() && MIN_LARGE <= nb < SPACE && idx == TreeIndex(nb) && idx < BINS && idx in b.trees
    requires forall z: nat :: HasSize(b.trees[idx], z) ==> z < nb
    requires forall j: nat :: On(b.treemap, j) ==> j <= idx
    ensures forall c :: c in b.h ==> b.h[c].size < nb
  {
    forall c | c in b.h ensures b.h[c].size < nb {
      ChunkIn(b, c);
      if TreeIndex(b.h[c].size) < idx { BinsRise(b.h[c].size, nb); }
    }
  }

  /** Smaller bins hold smaller sizes. */
  lemma FromBin(b: TreeBins, nb: nat, c: int)
    requires b.Valid() && MIN_LARGE <= nb < SPACE && c in b.h && b.h[c].size >= nb
    ensures TreeIndex(b.h[c].size) >= TreeIndex(nb)
  {
    ChunkIn(b, c);
    if TreeIndex(b.h[c].size) < TreeIndex(nb) { BinsRise(b.h[c].size, nb); }
  }

  /** The search of tmalloc_large. */
  method LargeFit(b: TreeBins, nb: nat) returns (v: int, rsize: nat)
    requires b.Valid() && MIN_LARGE <= nb < SPACE
    ensures SmallestFit(b.Held(), v, rsize, nb)
  {
    var idx := ComputeTreeIndex(nb);
    ShiftedIs(nb);
    TreeOf(b, idx);
    var t := b.bins[idx];
    v, rsize := 0, SPACE - nb;
    ghost var u, up, lo: nat, n: nat := b.trees[idx], BinSlot(idx), 0, 0;
    if t != 0 {
      t, v, rsize, u, up, lo, n := Descent(b.h, t, nb, Shifted(nb, idx), b.trees[idx], BinSlot(idx), Low(idx),
        Depth(idx));
    }
    if t == 0 && v == 0 {
      v, rsize := LaterFit(b, nb, idx);
    } else {
      if rsize > 0 { v, rsize := Leftmost(b.h, t, nb, v, rsize, b.trees[idx], u, up, lo, n); }
      forall c | c in b.h && b.h[c].size >= nb ensures TreeIndex(b.h[c].size) >= idx { FromBin(b, nb, c); }
      BestInBin(b, idx, nb, v, rsize);
    }
  }

  /** The search of tmalloc_small, in the first bin that has chunks: all of them fit. */
  method SmallFit(b: TreeBins, nb: nat) returns (v: int, rsize: nat)
    requires b.Valid() && nb < MIN_LARGE && b.treemap != 0
    ensures v != 0 && SmallestFit(b.Held(), v, rsize, nb)
  {
    var i := FirstBin(b.treemap);
    TreeOf(b, i);
    EveryBinAfter(b, nb, i);
    var t := b.bins[i];
    RootIn(b.h, b.trees[i], t, BinSlot(i));
    PartsFit(b.trees[i], nb);
    Subtrees(b.trees[i], b.trees[i]);
    v, rsize := t, b.h[t].size - nb;
    ghost var lo, n := KeepLeft(b.trees[i], b.trees[i], Low(i), Depth(i), nb, rsize);
    RootIn(b.h, b.trees[i].left, b.h[t].left, t);
    v, rsize := Leftmost(b.h, LeftmostChild(b.h, t), nb, v, rsize, b.trees[i],
      if b.trees[i].left.Node? then b.trees[i].left else b.trees[i].right, t, lo, n);
    BestInBin(b, i, nb, v, rsize);
  }

  lemma EveryBinAfter(b: TreeBins, nb: nat, i: nat)
    requires b.Valid() && nb < MIN_LARGE && i < BINS && i in b.trees && forall j: nat :: On(b.treemap, j) ==> i <= j
    ensures AllFit(b.trees[i], nb)
    ensures forall c :: c in b.h && b.h[c].size >= nb ==> TreeIndex(b.h[c].size) >= i
  {
    TreeOf(b, i);
    forall c | c in b.h && b.h[c].size >= nb ensures TreeIndex(b.h[c].size) >= i { ChunkIn(b, c); }
  }
}
