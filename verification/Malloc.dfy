/** dlmalloc of malloc.c. */
module Mallocs {
  import opened Tiling
  import opened Words
  import opened Ownership
  import opened Segments
  import opened Steps
  import opened Moves
  import opened Regions
  import opened Heaps
  import opened Allocating
  import opened SystemMemory
  import opened SystemAllocation
  import opened BinMaps
  import SmallBinning
  import TreeSearching

  const MAX_SMALL_REQUEST := 244
  const MIN_REQUEST := 11
  const MAX_REQUEST := SPACE - 64

  /** pad_request */
  function PadRequest(bytes: int): int { (bytes + 11) / 8 * 8 }

  /** request2size */
  function RequestSize(bytes: int): int {
    if bytes < MIN_REQUEST then MIN_CHUNK else PadRequest(bytes)
  }

  lemma RequestFits(bytes: int)
    requires 0 <= bytes < MAX_REQUEST
    ensures var nb := RequestSize(bytes); MIN_CHUNK <= nb < SPACE && nb % ALIGN == 0 && bytes + WORD <= nb <= bytes + 16
    ensures bytes <= MAX_SMALL_REQUEST <==> RequestSize(bytes) <= 248
    ensures bytes >= MIN_REQUEST ==> RequestSize(bytes) <= bytes + 11
  {
  }

  /** The user has got aligned memory with room for what was asked. */
  ghost predicate Given(h: Heap, s: State, mem: int, bytes: int)
    reads h, h.bins, h.bins.small, h.bins.large
  {
    && h.Valid() && Preserved(s, h.View(), 0)
    && var p := mem - 2 * WORD;
      && mem % ALIGN == 0 && p !in s.o.live && h.live == s.o.live + {p} && p in h.T
      && PayloadEnd(h.T, p) >= mem + bytes
  }

  lemma GivenBy(h: Heap, s: State, p: int, nb: int, bytes: int)
    requires Served(h, s, p, nb) && bytes + WORD <= nb
    ensures Given(h, s, p + 2 * WORD, bytes)
  {
    assert Look(0);
    CellAt(h.T, p);
  }

  /** What the bits of smallmap say from bin idx on. */
  lemma SmallBits(m: nat, idx: nat)
    requires m < Digits.Pow2(BINS) && idx < BINS
    ensures var d := Down(m, idx); d < Digits.Pow2(BINS) && (And(d, 3) != 0 <==> On(m, idx) || On(m, idx + 1))
    ensures And(Not(Down(m, idx), BINS), 1) == if On(m, idx) then 0 else 1
    ensures Down(m, idx) != 0 && !On(m, idx) && !On(m, idx + 1) ==> LaterBit(m, idx)
    ensures On(m, idx + 1) ==> idx + 1 < BINS
  {
    if On(m, idx + 1) { Bounded(m, BINS, idx + 1); }
    var d := Down(m, idx);
    DownBelow(m, idx);
    LowTwo(d);
    DownOn(m, idx, 0);
    DownOn(m, idx, 1);
    if d != 0 {
      var j := SomeOn(d);
      DownOn(m, idx, j);
      assert idx + j != idx && idx + j != idx + 1 ==> idx + 1 < idx + j && On(m, idx + j);
    }
  }

  /** ~smallbits & 1 tells which of the two bins it is. */
  lemma ChosenBin(m: nat, idx: nat, nb: int, i: int)
    requires idx < BINS && nb == 8 * idx && i == (if On(m, idx) then idx else idx + 1) && (On(m, idx) || On(m, idx + 1))
    requires On(m, idx + 1) ==> idx + 1 < BINS
    ensures 0 <= i < BINS && On(m, i) && nb <= 8 * i < nb + MIN_CHUNK && (nb < 8 * i ==> !On(m, i - 1))
  {
  }

  lemma InEights(nb: int)
    requires nb % ALIGN == 0
    ensures nb == 8 * (nb / 8)
  {
  }

  ghost predicate LaterBit(m: nat, idx: nat) {
    exists j: nat :: idx + 1 < j && On(m, j)
  }

  lemma {:induction false} DownBelow(m: nat, i: nat)
    ensures Down(m, i) <= m
  {
    if i > 0 { DownBelow(m / 2, i - 1); }
  }

  /** No chunk in a bin is big enough. */
  ghost predicate NoneHeld(held: map<int, int>, nb: int) {
    forall c {:trigger c in held} :: c in held ==> held[c] < nb
  }

  /** Nothing in the heap has nb bytes, neither dv nor top nor a chunk in a bin. */
  ghost predicate NoRoom(s: State, nb: int) {
    nb > s.o.dvsize && nb >= s.o.topsize && NoneHeld(s.o.binned, nb)
  }

  /** A chunk in a bin is preferred to dv if dv is too small; or if it is a small chunk that is used up by a small
      request, or closer than dv to a large one. */
  ghost predicate Preferred(o: Owners, c: int, nb: int) {
    && c in o.binned && o.binned[c] >= nb
    && (nb > o.dvsize ||
      if nb < 256 then o.binned[c] < 256 && o.binned[c] < nb + MIN_CHUNK else o.binned[c] < o.dvsize)
  }

  /** The chunk in a bin that serves best. */
  ghost predicate BestOf(o: Owners, p: int, nb: int) {
    Preferred(o, p, nb) && forall c :: c in o.binned && o.binned[c] >= nb ==> o.binned[p] <= o.binned[c]
  }

  ghost predicate NonePreferred(o: Owners, nb: int) {
    forall c {:trigger c in o.binned} :: !Preferred(o, c, nb)
  }

  /** Where a request for nb bytes is served: by the best fitting chunk in a bin that is preferred to dv, else by dv,
      else by top. */
  ghost predicate Chosen(o: Owners, p: int, nb: int) {
    BestOf(o, p, nb) || (NonePreferred(o, nb) && if nb <= o.dvsize then p == o.dv else nb < o.topsize && p == o.top)
  }

  lemma NoneThen(o: Owners, nb: int)
    requires NoneHeld(o.binned, nb) || (nb <= o.dvsize && nb < 256 && forall c {:trigger c in o.binned} ::
      c in o.binned && nb <= o.binned[c] < nb + MIN_CHUNK ==> o.binned[c] >= 256)
    ensures NonePreferred(o, nb)
  {
    forall c ensures !Preferred(o, c, nb) {
      if c in o.binned { assert o.binned[c] < nb || nb <= o.dvsize; }
    }
  }

  /** The smallest chunk in a tree, where all chunks that are big enough are in trees. */
  lemma BestInTrees(o: Owners, trees: map<int, nat>, p: int, nb: int)
    requires Smallest(trees, p, nb) && p in o.binned && o.binned[p] == trees[p] && Preferred(o, p, nb)
    requires forall c {:trigger c in o.binned} :: c in o.binned && o.binned[c] >= nb ==>
      c in trees && o.binned[c] == trees[c]
    ensures BestOf(o, p, nb)
  {
  }

  /** The chunks of the first small bin from that of nb on that has any are the best. */
  lemma BestSmall(h: Heap, nb: int, i: nat, p: int)
    requires h.Valid() && 0 < nb <= 8 * i && nb % ALIGN == 0 && i < BINS && p in h.bins.held && h.bins.held[p] == 8 * i
    requires forall j: nat :: On(h.bins.small.smallmap, j) && nb <= 8 * j ==> i <= j
    ensures forall c :: c in h.bins.held && h.bins.held[c] >= nb ==> h.bins.held[p] <= h.bins.held[c]
  {
    forall c | c in h.bins.held && h.bins.held[c] >= nb ensures 8 * i <= h.bins.held[c] {
      h.bins.Where(c);
      if h.bins.held[c] / 8 < BINS { SmallMarked(h.bins.small, c); }
    }
  }

  /** The bin of a small chunk is marked. */
  lemma SmallMarked(b: SmallBinning.SmallBins, c: int)
    requires b.Valid() && c in b.Held()
    ensures On(b.smallmap, b.Held()[c] / 8) && b.Held()[c] == 8 * (b.Held()[c] / 8)
  {
    var i := SmallBinning.SmallIndex(b.f[c].size);
    assert SmallBinning.InList(b.f, b.lists, c);
    assert SmallBinning.ListOk(b.f, b.smallmap, b.lists, i);
  }

  /** Without a marked bin for nb or the next size, no small chunk is used up by the request. */
  lemma NoExact(h: Heap, nb: int, idx: nat)
    requires h.Valid() && nb == 8 * idx && idx < BINS
    requires !On(h.bins.small.smallmap, idx) && !On(h.bins.small.smallmap, idx + 1)
    ensures forall c {:trigger c in h.bins.held} :: c in h.bins.held && nb <= h.bins.held[c] < nb + MIN_CHUNK ==>
      h.bins.held[c] >= 256
  {
    forall c | c in h.bins.held && nb <= h.bins.held[c] < nb + MIN_CHUNK ensures h.bins.held[c] >= 256 {
      h.bins.Where(c);
      if h.bins.held[c] / 8 < BINS { SmallMarked(h.bins.small, c); }
    }
  }

  /** Without a bit from that of nb on, no small chunk is big enough, and without a tree no large one. */
  lemma NoBits(h: Heap, nb: int, idx: nat)
    requires h.Valid() && idx == nb / 8 && nb % ALIGN == 0 && h.bins.large.treemap == 0
    requires nb < 256 ==> Down(h.bins.small.smallmap, idx) == 0
    ensures NoneHeld(h.bins.held, nb)
  {
    forall c | c in h.bins.held ensures h.bins.held[c] < nb {
      h.bins.Where(c);
      if h.bins.held[c] / 8 < BINS {
        if nb < 256 { NoSmallBit(h.bins.small, c, idx); }
      } else {
        TreeSearching.ChunkIn(h.bins.large, c);
        ZeroOn(TreeIndex(h.bins.large.h[c].size));
      }
    }
  }

  lemma NoSmallBit(b: SmallBinning.SmallBins, c: int, idx: nat)
    requires b.Valid() && c in b.Held() && Down(b.smallmap, idx) == 0
    ensures b.Held()[c] / 8 < idx
  {
    var i := SmallBinning.SmallIndex(b.f[c].size);
    assert SmallBinning.InList(b.f, b.lists, c);
    assert SmallBinning.ListOk(b.f, b.smallmap, b.lists, i);
    if i >= idx {
      DownOn(b.smallmap, idx, i - idx);
      ZeroOn(i - idx);
    }
  }

  /** dlmalloc: the bins, for a small request; 0 when dv serves it, or when they have nothing */
  method FromSmall(h: Heap, nb: int) returns (p: int)
    requires h.Valid() && MIN_CHUNK <= nb <= 248 && nb % ALIGN == 0
    modifies h`m, h`T, h`live, h`dv, h`dvsize, h.bins, h.bins.small, h.bins.large
    ensures if p != 0 then Served(h, old(h.View()), p, nb) else h.Valid() && h.View() == old(h.View())
    ensures p == 0 ==> nb <= h.dvsize || NoneHeld(h.bins.held, nb)
    ensures if p != 0 then BestOf(old(h.View()).o, p, nb) else NonePreferred(h.View().o, nb)
    ensures p != 0 ==> h.View().o == Cut(old(h.View()).o, p, nb)
  {
    ghost var s := h.View();
    h.bins.Has(0);
    p := 0;
    var idx := SmallBinning.SmallIndex(nb);
    var smallbits := Down(h.bins.small.smallmap, idx);
    SmallBits(h.bins.small.smallmap, idx);
    if And(smallbits, 3) != 0 {
      var i := idx + And(Not(smallbits, BINS), 1);
      InEights(nb);
      ChosenBin(h.bins.small.smallmap, idx, nb, i);
      p := ExactFit(h, i, nb);
    } else {
      InEights(nb);
      NoExact(h, nb, idx);
      p := InexactFit(h, nb, idx, smallbits);
    }
  }

  /** dlmalloc: a small request that no small chunk fits closely */
  method InexactFit(h: Heap, nb: int, idx: nat, smallbits: nat) returns (p: int)
    requires h.Valid() && MIN_CHUNK <= nb <= 248 && nb == 8 * idx && nb % ALIGN == 0
    requires smallbits == Down(h.bins.small.smallmap, idx) && h.bins.small.smallmap < Digits.Pow2(BINS)
    requires !On(h.bins.small.smallmap, idx) && !On(h.bins.small.smallmap, idx + 1)
    requires smallbits != 0 ==> LaterBit(h.bins.small.smallmap, idx)
    requires forall c {:trigger c in h.bins.held} :: c in h.bins.held && nb <= h.bins.held[c] < nb + MIN_CHUNK ==>
      h.bins.held[c] >= 256
    modifies h`m, h`T, h`live, h`dv, h`dvsize, h.bins, h.bins.small, h.bins.large
    ensures if p != 0 then Served(h, old(h.View()), p, nb) else h.Valid() && h.View() == old(h.View())
    ensures p == 0 ==> nb <= h.dvsize || NoneHeld(h.bins.held, nb)
    ensures if p != 0 then BestOf(old(h.View()).o, p, nb) else NonePreferred(h.View().o, nb)
    ensures p != 0 ==> h.View().o == Cut(old(h.View()).o, p, nb)
  {
    p := 0;
    if nb > h.dvsize {
      if smallbits != 0 {
        p := LaterFit(h, idx, nb);
      } else if h.bins.large.treemap != 0 {
        p := FromTrees(h, nb);
      } else {
        NoBits(h, nb, idx);
      }
    }
    if p == 0 { NoneThen(h.View().o, nb); }
  }

  /** Without a bit from that of nb on, all chunks that are big enough are in trees. */
  lemma OnlyTrees(h: Heap, nb: int)
    requires h.Valid() && MIN_CHUNK <= nb <= 248 && Down(h.bins.small.smallmap, nb / 8) == 0
    ensures forall c {:trigger c in h.bins.held} :: c in h.bins.held && h.bins.held[c] >= nb ==>
      c in h.bins.large.Held()
    ensures forall c {:trigger c in h.bins.large.Held()} :: c in h.bins.large.Held() ==>
      c in h.bins.held && h.bins.held[c] == h.bins.large.Held()[c]
  {
    forall c ensures c in h.bins.large.Held() ==> c in h.bins.held && h.bins.held[c] == h.bins.large.Held()[c] {
      h.bins.Has(c);
    }
    forall c | c in h.bins.held && h.bins.held[c] >= nb ensures c in h.bins.large.Held() {
      h.bins.Where(c);
      if h.bins.held[c] / 8 < BINS { NoSmallBit(h.bins.small, c, nb / 8); }
    }
  }

  method FromTrees(h: Heap, nb: int) returns (p: int)
    requires h.Valid() && MIN_CHUNK <= nb <= 248 && nb % ALIGN == 0 && h.bins.large.treemap != 0 && nb > h.dvsize
    requires Down(h.bins.small.smallmap, nb / 8) == 0
    modifies h`m, h`T, h`live, h`dv, h`dvsize, h.bins, h.bins.small, h.bins.large
    ensures p != 0 && Served(h, old(h.View()), p, nb)
    ensures BestOf(old(h.View()).o, p, nb) && h.View().o == Cut(old(h.View()).o, p, nb)
  {
    ghost var s := h.View();
    OnlyTrees(h, nb);
    ghost var trees := h.bins.large.Held();
    assert forall c {:trigger c in s.o.binned} :: c in s.o.binned && s.o.binned[c] >= nb ==> c in trees;
    assert forall c {:trigger c in trees} :: c in trees ==> c in s.o.binned && s.o.binned[c] == trees[c];
    p := TmallocSmall(h, nb);
    BestInTrees(s.o, trees, p, nb);
    ghost var n :| nb <= n < nb + MIN_CHUNK && Got(h, s, p, n);
    ServedFrom(h, s, p, n, nb);
  }

  /** The first chunk of a small bin. */
  method FirstOf(h: Heap, i: nat) returns (p: int)
    requires h.bins.Valid() && i < BINS && On(h.bins.small.smallmap, i)
    ensures p in h.bins.held && h.bins.held[p] == SmallBinning.SmallSize(i)
  {
    h.bins.Has(0);
    p := h.bins.small.First(i);
    h.bins.Has(p);
  }

  /** A chunk of the bin for nb, or of the next. */
  method ExactFit(h: Heap, idx: nat, nb: int) returns (p: int)
    requires h.Valid() && MIN_CHUNK <= nb && nb % ALIGN == 0 && idx < BINS && nb <= 8 * idx < nb + MIN_CHUNK
    requires On(h.bins.small.smallmap, idx) && (nb < 8 * idx ==> !On(h.bins.small.smallmap, idx - 1))
    modifies h`m, h`T, h`live, h.bins, h.bins.small, h.bins.large
    ensures p != 0 && Served(h, old(h.View()), p, nb)
    ensures BestOf(old(h.View()).o, p, nb) && h.View().o == Cut(old(h.View()).o, p, nb)
  {
    ghost var s := h.View();
    p := FirstOf(h, idx);
    BestSmall(h, nb, idx, p);
    BinnedFree(s, p);
    NoZero(s);
    UseBinned(h, p, SmallBinning.SmallSize(idx));
    ServedFrom(h, s, p, 8 * idx, nb);
  }

  /** A chunk of the first later bin that has one; the rest of it becomes dv. */
  method LaterFit(h: Heap, idx: nat, nb: int) returns (p: int)
    requires h.Valid() && MIN_CHUNK <= nb <= 248 && nb % ALIGN == 0 && idx == nb / 8 && nb > h.dvsize
    requires h.bins.small.smallmap < Digits.Pow2(BINS) && LaterBit(h.bins.small.smallmap, idx)
    requires !On(h.bins.small.smallmap, idx) && !On(h.bins.small.smallmap, idx + 1)
    modifies h`m, h`T, h`live, h`dv, h`dvsize, h.bins, h.bins.small, h.bins.large
    ensures p != 0 && Served(h, old(h.View()), p, nb)
    ensures BestOf(old(h.View()).o, p, nb) && h.View().o == Cut(old(h.View()).o, p, nb)
  {
    var i := NextBin(h.bins.small.smallmap, idx);
    p := FirstOf(h, i);
    InEights(nb);
    BestSmall(h, nb, i, p);
    SplitFirst(h, p, SmallBinning.SmallSize(i), nb);
  }

  method SplitFirst(h: Heap, p: int, n: int, nb: int)
    requires h.Valid() && MIN_CHUNK <= nb <= 248 && nb % ALIGN == 0 && nb > h.dvsize && n >= nb + MIN_CHUNK
    requires p in h.bins.held && h.bins.held[p] == n
    modifies h`m, h`T, h`live, h`dv, h`dvsize, h.bins, h.bins.small, h.bins.large
    ensures p != 0 && Served(h, old(h.View()), p, nb) && h.View().o == Cut(old(h.View()).o, p, nb)
  {
    ghost var s := h.View();
    BinnedFree(s, p);
    NoZero(s);
    SplitToVictim(h, p, n, nb);
    ServedFrom(h, s, p, nb, nb);
  }

  /** (smallbits << idx) & left_bits(idx2bit(idx)), and the first bin in it */
  method NextBin(m: nat, idx: nat) returns (i: nat)
    requires m < Digits.Pow2(BINS) && idx < BINS && !On(m, idx + 1) && LaterBit(m, idx)
    ensures idx + 1 < i < BINS && On(m, i) && forall j: nat :: idx < j && On(m, j) ==> i <= j
  {
    var leftbits := And(Up(Down(m, idx), idx), LeftBits(BitAt(idx), BINS));
    forall j: nat ensures On(leftbits, j) <==> idx < j && On(m, j) {
      ShiftedBins(m, idx, j);
    }
    ghost var j: nat :| idx + 1 < j && On(m, j);
    assert On(leftbits, j);
    if leftbits == 0 { ZeroOn(j); }
    LeftBelow(Up(Down(m, idx), idx), idx);
    i := FirstBin(leftbits);
  }

  lemma LeftBelow(x: nat, idx: nat)
    requires idx < BINS
    ensures And(x, LeftBits(BitAt(idx), BINS)) < Digits.Pow2(BINS)
  {
    var b := BitAt(idx);
    AndAtMost(x, LeftBits(b, BINS));
    OrBelow(Twice(b, BINS), Neg(Twice(b, BINS), BINS), BINS);
  }

  /** dlmalloc: the trees, for a large request; 0 when dv fits no worse, or when no chunk in a bin fits */
  method FromLarge(h: Heap, nb: int) returns (p: int)
    requires h.Valid() && 256 <= nb < SPACE && nb % ALIGN == 0
    modifies h`m, h`T, h`live, h.bins, h.bins.small, h.bins.large
    ensures if p != 0 then Served(h, old(h.View()), p, nb) else h.Valid() && h.View() == old(h.View())
    ensures p == 0 ==> nb <= h.dvsize || NoneHeld(h.bins.held, nb)
    ensures if p != 0 then BestOf(old(h.View()).o, p, nb) else NonePreferred(h.View().o, nb)
    ensures p != 0 ==> h.View().o == Cut(old(h.View()).o, p, nb)
  {
    ghost var s, trees := h.View(), h.bins.large.Held();
    NoneBetter(h, nb, trees);
    LargeInTrees(h, nb, trees);
    p := TmallocLarge(h, nb);
    if p == 0 {
      forall c ensures !Preferred(s.o, c, nb) { assert !FitsBetter(trees, c, nb, s.o.dvsize); }
    } else {
      TookBetter(s.o, trees, p, nb);
      ghost var n :| nb <= n < nb + MIN_CHUNK && Got(h, s, p, n);
      ServedFrom(h, s, p, n, nb);
    }
  }

  /** When no tree chunk fits better than dv, which does not fit, no chunk in a bin fits. */
  lemma NoneBetter(h: Heap, nb: int, trees: map<int, nat>)
    requires h.Valid() && 256 <= nb && trees == h.bins.large.Held()
    ensures (forall c :: !FitsBetter(trees, c, nb, h.dvsize)) ==> nb <= h.dvsize || NoneHeld(h.bins.held, nb)
  {
    forall c | c in h.bins.held && h.bins.held[c] >= nb ensures FitsBetter(trees, c, nb, h.dvsize) || nb <= h.dvsize {
      h.bins.Where(c);
    }
  }

  lemma LargeInTrees(h: Heap, nb: int, trees: map<int, nat>)
    requires h.Valid() && 256 <= nb && trees == h.bins.large.Held()
    ensures forall c {:trigger c in h.bins.held} :: c in h.bins.held && h.bins.held[c] >= nb ==>
      c in trees && h.bins.held[c] == trees[c]
    ensures forall c {:trigger FitsBetter(trees, c, nb, h.dvsize)} ::
      FitsBetter(trees, c, nb, h.dvsize) <==> Preferred(h.View().o, c, nb)
  {
    forall c ensures c in h.bins.held && h.bins.held[c] >= nb ==> c in trees && h.bins.held[c] == trees[c] {
      if c in h.bins.held { h.bins.Where(c); }
    }
    forall c ensures FitsBetter(trees, c, nb, h.dvsize) <==> Preferred(h.View().o, c, nb) { h.bins.Has(c); }
  }

  /** If some chunk in a tree fits better than dv, the smallest that fits does. */
  lemma TookBetter(o: Owners, trees: map<int, nat>, p: int, nb: int)
    requires Smallest(trees, p, nb) && !(forall c :: !FitsBetter(trees, c, nb, o.dvsize))
    requires forall c {:trigger c in o.binned} :: c in o.binned && o.binned[c] >= nb ==>
      c in trees && o.binned[c] == trees[c]
    requires forall c {:trigger FitsBetter(trees, c, nb, o.dvsize)} ::
      FitsBetter(trees, c, nb, o.dvsize) <==> Preferred(o, c, nb)
    ensures BestOf(o, p, nb)
  {
    var c :| FitsBetter(trees, c, nb, o.dvsize);
    assert FitsBetter(trees, p, nb, o.dvsize);
    BestInTrees(o, trees, p, nb);
  }

  /** No chunk is as big as the size that stands for an impossible request. */
  lemma NoneSoBig(s: State, nb: int)
    requires Sound(s) && Padded(nb)
    ensures nb <= s.o.dvsize || nb < s.o.topsize ==> nb % ALIGN == 0
  {
    assert Look(0);
    if s.o.dv != 0 {
      CellAt(s.T, s.o.dv);
      SizeFits(s, s.o.dv);
    }
    if s.o.top != 0 { SizeFits(s, s.o.top); }
  }

  /** The kernel has refused whatever it was asked for, and it was asked for all that could be. */
  predicate Denied(nb: int, topsize: int, k: Kernel) {
    (k.refused || Unrepresentable(nb)) && (Direct(nb, topsize) ==> k.noRegion)
  }

  /** dlmalloc: dv, then top, then the system */
  method FromRest(h: Heap, nb: int) returns (p: int, ghost k: Kernel)
    requires h.Valid() && Padded(nb)
    modifies h, h.bins, h.bins.small, h.bins.large
    ensures if p != 0 then Served(h, old(h.View()), p, nb) else Refused(h, old(h.View()))
    ensures p != 0 ==> nb != MAX_SIZE
    ensures p == 0 ==> nb > old(h.dvsize) && nb >= old(h.topsize) && Denied(nb, old(h.topsize), k)
    ensures p == 0 ==> Nothing(h, old(h.View()), old(h.maps), old(h.footprint))
    ensures nb <= old(h.dvsize) ==> p == old(h.dv)
    ensures old(h.dvsize) < nb < old(h.topsize) ==> p == old(h.top)
    ensures nb <= old(h.dvsize) || nb < old(h.topsize) ==> p != 0 && h.View().o == Cut(old(h.View()).o, p, nb)
    ensures nb <= old(h.dvsize) || nb < old(h.topsize) ==>
      h.segs == old(h.segs) && h.maps == old(h.maps) && h.footprint == old(h.footprint)
    ensures p != 0 && nb > old(h.dvsize) && nb >= old(h.topsize) ==>
      FromSystem(h, old(h.View()), p, nb, old(h.maps), old(h.footprint), k)
  {
    ghost var s := h.View();
    NoneSoBig(s, nb);
    Unchanged(s);
    k := Kernel(false, false, 0);
    if nb <= h.dvsize {
      p := UseVictim(h, nb);
      ghost var n :| nb <= n < nb + MIN_CHUNK && Got(h, s, p, n);
      ServedFrom(h, s, p, n, nb);
    } else if nb < h.topsize {
      p := TakeTop(h, nb, s);
    } else {
      p, k := SysAlloc(h, nb);
    }
  }

  /** dlmalloc: the bins; 0 when dv serves the request, or when they have nothing */
  method FromBins(h: Heap, bytes: int, nb: int) returns (p: int)
    requires h.Valid() && 0 <= bytes < MAX_REQUEST && nb == RequestSize(bytes)
    modifies h`m, h`T, h`live, h`dv, h`dvsize, h.bins, h.bins.small, h.bins.large
    ensures if p != 0 then Served(h, old(h.View()), p, nb) else h.Valid() && h.View() == old(h.View())
    ensures p == 0 ==> nb <= h.dvsize || NoneHeld(h.bins.held, nb)
    ensures if p != 0 then BestOf(old(h.View()).o, p, nb) else NonePreferred(h.View().o, nb)
    ensures p != 0 ==> h.View().o == Cut(old(h.View()).o, p, nb)
  {
    RequestFits(bytes);
    p := 0;
    if bytes <= MAX_SMALL_REQUEST {
      p := FromSmall(h, nb);
    } else if h.bins.large.treemap != 0 {
      p := FromLarge(h, nb);
    } else {
      NoBits(h, nb, nb / 8);
      NoneThen(h.View().o, nb);
    }
  }

  /** No chunk in a bin is as big as the size that stands for an impossible request. */
  lemma NoneImpossible(s: State)
    requires Sound(s)
    ensures NoneHeld(s.o.binned, MAX_SIZE)
  {
    forall c | c in s.o.binned ensures s.o.binned[c] < MAX_SIZE {
      BinnedFree(s, c);
      Odd(s.o.binned[c]);
    }
  }

  lemma Odd(n: int)
    requires n < SPACE && n % ALIGN == 0
    ensures n < MAX_SIZE
  {
  }

  /** The size that dlmalloc looks for. */
  function Wanted(bytes: int): int { if bytes < MAX_REQUEST then RequestSize(bytes) else MAX_SIZE }

  /** Nothing in the heap has the bytes, and the kernel has refused, or the size cannot be represented. */
  ghost predicate Exhausted(s: State, bytes: int, k: Kernel) {
    NoRoom(s, Wanted(bytes)) && Denied(Wanted(bytes), s.o.topsize, k)
  }

  /** The system is asked for more memory only if the heap has no room; else the chunk that serves best is cut. */
  ghost predicate ServedBest(h: Heap, s: State, p: int, nb: int, maps: Maps, footprint: int, k: Kernel)
    reads h, h.bins, h.bins.small, h.bins.large
  {
    if NoRoom(s, nb) then FromSystem(h, s, p, nb, maps, footprint, k)
    else
      && Chosen(s.o, p, nb) && h.View().o == Cut(s.o, p, nb)
      && h.segs == s.segs && h.maps == maps && h.footprint == footprint
  }

  /**
    * dlmalloc; it answers 0 only if nothing in the heap is big enough, neither dv nor top nor a chunk in a bin,
    * and the kernel has refused, or the size cannot be represented. Where there is room, the best place is taken.
    */
  method Malloc(h: Heap, bytes: int) returns (mem: int, ghost k: Kernel)
    requires h.Valid() && 0 <= bytes < SPACE
    modifies h, h.bins, h.bins.small, h.bins.large
    ensures if mem != 0 then Given(h, old(h.View()), mem, bytes) else Refused(h, old(h.View()))
    ensures mem != 0 ==> var p := mem - 2 * WORD;
      p > 0 && (h.T[p].Mapped? || (h.T[p].Chunk? && h.T[p].size < RequestSize(bytes) + MIN_CHUNK))
    ensures mem == 0 ==>
      Exhausted(old(h.View()), bytes, k) && Nothing(h, old(h.View()), old(h.maps), old(h.footprint))
    ensures mem != 0 ==>
      ServedBest(h, old(h.View()), mem - 2 * WORD, Wanted(bytes), old(h.maps), old(h.footprint), k)
  {
    ghost var s := h.View();
    var nb, p := MAX_SIZE, 0;
    k := Kernel(false, false, 0);
    if bytes < MAX_REQUEST {
      nb := RequestSize(bytes);
      RequestFits(bytes);
      p := FromBins(h, bytes, nb);
    } else {
      NoneImpossible(s);
    }
    if p == 0 {
      p, k := FromRest(h, nb);
      if p == 0 {
        return 0, k;
      }
    }
    GivenBy(h, s, p, nb, bytes);
    mem := p + 2 * WORD;
  }
}
