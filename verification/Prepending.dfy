/** prepend_alloc of malloc.c: space in front of a segment serves a request, and the rest joins the segment's first
    chunk. */
module Prepending {
  import opened Tiling
  import opened Words
  import opened Ownership
  import opened Segments
  import opened Steps
  import opened Moves
  import opened Regrouping
  import opened Regions
  import opened Heaps
  import opened Allocating
  import opened Freeing
  import opened SystemMemory

  /** The extended segment, once its first chunk has joined the new space if it was free. */
  ghost predicate Front(g0: State, g: State, foot: int, p: int, b: int) {
    && Gapped(g, foot, p, b) && Opened(g0, g, 0) && g.m == g0.m && g.T == g0.T && g.o.live == g0.o.live
    && g.T[p].pinuse && p > 0 && p % ALIGN == 0
  }

  /** How the words are written for a chunk of nb bytes and the rest behind it. */
  ghost predicate FrontWords(g: State, p: int, b: int, nb: int, role: Role, m': Memory)
    requires b in g.T
  {
    var m1 := UseSize(g.m, p, nb);
    match role
    case User => false
    case Top => g.T[b].Foot? && g.o.top == 0 && m' == PutHead(m1, p + nb, b - p - nb + 1)
    case Victim => g.T[b].Chunk? && g.T[b].cinuse && !g.T[b].pinuse && g.o.dv == 0 && g.o.top != 0 &&
      m' == FreeHead(m1, p + nb, b - p - nb)
    case Bin => g.T[b].Chunk? && g.T[b].cinuse && g.o.top != 0 && m' == FreeWithPrev(m1, p + nb, b - p - nb, b)
  }

  lemma FrontCut(g0: State, g: State, foot: int, p: int, b: int, nb: int, role: Role, m': Memory) returns (s': State)
    requires Front(g0, g, foot, p, b) && FrontWords(g, p, b, nb, role, m') && g0.o.top != 0 && p !in g0.o.live
    requires MIN_CHUNK <= nb && nb % ALIGN == 0 && b - p - nb >= MIN_CHUNK
    ensures s'.m == m' && s'.o == Give(Give(g.o, p, nb, User), p + nb, b - p - nb, role) && s'.segs == g.segs
    ensures Taken(g0, s', p, nb)
  {
    assert Look(0);
    var T' := MakeTwo(g.T, p, b, nb, true, false);
    match role {
      case Top => CutTopWritten(g.m, m', g.T, T', p, b, nb);
      case Victim => CutFreeWritten(g.m, m', g.T, T', p, b, nb);
      case _ => CutNewWritten(g.m, g.T, T', p, b, nb);
    }
    s' := CutGap(g, foot, p, b, nb, b - p - nb, role, m', T');
    TakenFrom(g0, g, s', foot, p, nb, b);
  }

  /** The state with the space in front of segment i, and its accounts. */
  lemma ExtendedState(s: State, maps: Maps, footprint: int, peak: int, i: nat, base: int, size: int) returns (g: State)
    requires Sound(s) && Accounted(s.T, s.segs, maps, footprint, peak) && s.o.top != 0 && i < |s.segs|
    requires Unmapped(base, size, s.segs, maps) && size % GRAIN == 0 && base + size == s.segs[i].base
    ensures g.m == PutHead(s.m, base, size + 3) && g.o == s.o && g.segs == Extended(s.segs, i, base, size)
    ensures g.T == s.T[base := Chunk(size, true, true)]
    ensures Front(g, g, s.o.top + s.o.topsize, base, base + size) && g.T[base + size].Chunk? &&
      g.T[base] == Chunk(size, true, true)
    ensures Preserved(s, g, 0) && base !in s.o.live
    ensures 0 <= footprint && footprint + size < SPACE
    ensures var f := footprint + size; Accounted(g.T, g.segs, maps, f, if peak >= f then peak else f)
  {
    UnmappedVacant(s.T, s.segs, maps, footprint, peak, base, size);
    SoundShape(s);
    g := Extend(s, i, base, size);
    ExtendedShaped(s.T, s.segs, i, base, size);
    assert Shape(s.segs[i]);
    GrownClear(s.T, s.segs, maps, footprint, peak, i, base, size,
      Segment(base, s.segs[i].size + size, s.segs[i].record));
    ResizedAccounted(s.T, g.T, s.segs, i, Segment(base, s.segs[i].size + size, s.segs[i].record), maps, footprint,
      peak);
  }

  /** Who owns what once nb of n new bytes at p, in front of a chunk, are the user's and the rest has joined that. */
  ghost function Prepended(T: Layout, o: Owners, p: int, n: int, nb: int): Owners {
    Rest(T, o.(live := o.live + {p}), p + nb, p + n)
  }

  /** The user got p from a state that had been made from s. */
  lemma ServedAfter(h: Heap, s: State, g: State, p: int, nb: int)
    requires Got(h, g, p, nb) && Preserved(s, g, 0) && s.o.live == g.o.live
    requires Accounted(g.T, h.segs, h.maps, h.footprint, h.maxFootprint)
    ensures Served(h, s, p, nb)
  {
    ServedFrom(h, g, p, nb, nb);
    NoZero(h.View());
    assert 0 !in h.View().o.live;
    PreservedTrans(s, g, h.View(), 0, 0);
  }

  /** The head of the segment's first chunk tells whether it is in use. */
  lemma FirstHead(g: State, foot: int, p: int, b: int)
    requires Gapped(g, foot, p, b) && g.T[b].Chunk?
    ensures (HeadOf(g.m, b) % 4 == 1 <==> !g.T[b].cinuse && g.T[b].pinuse) && SizeBits(HeadOf(g.m, b)) == g.T[b].size
    ensures g.T[p].size == b - p && g.T[p].cinuse ==> g.T[b].pinuse
  {
    assert Look(0);
    CellAt(g.T, b);
    CellAt(g.T, p);
    Unpack(g.T[b]);
    LowBits(g.T[b].size / ALIGN, HeadOf(g.m, b) - g.T[b].size);
  }

  lemma LowBits(k: int, d: int)
    requires 0 <= d < 4
    ensures (8 * k + d) % 4 == d
  {
    assert 8 * k + d == 4 * (2 * k) + d;
  }

  /** The head of the whole new space is not written, for that of the user's chunk takes its place. */
  lemma Overwritten(m: Memory, p: int, n: int, nb: int)
    requires n > 0
    ensures UseSize(PutHead(m, p, n + 3), p, nb) == UseSize(m, p, nb)
    ensures HeadOf(PutHead(m, p, n + 3), p + n) == HeadOf(m, p + n)
  {
  }

  /** prepend_alloc when the segment starts with top */
  method FrontOfTop(h: Heap, p: int, tsize: int, nb: int, ghost g: State, ghost foot: int)
    requires h.bins.Valid() && Front(g, g, foot, p, p + tsize) && p + tsize == h.top && h.top != 0
    requires g.o == Owners(h.bins.held, h.dv, h.dvsize, h.top, h.topsize, h.live, h.records) && g.segs == h.segs
    requires g.m == PutHead(h.m, p, tsize + 3) && MIN_CHUNK <= nb && nb % ALIGN == 0 && tsize - nb >= MIN_CHUNK &&
      p !in h.live
    modifies h`m, h`top, h`topsize, h`T, h`live
    ensures Got(h, g, p, nb) && h.View().o == Prepended(g.T, g.o, p, tsize, nb)
  {
    ghost var g' := JoinTop(g, foot, p, p + tsize);
    var q, qsize := p + nb, tsize - nb;
    var t := h.topsize + qsize;
    Overwritten(h.m, p, tsize, nb);
    h.m := PutHead(UseSize(h.m, p, nb), q, t + 1);
    ghost var s' := FrontCut(g, g', foot, p, foot, nb, Top, h.m);
    h.top, h.topsize := q, t;
    h.T, h.live := s'.T, s'.o.live;
    h.Is(s');
  }

  /** prepend_alloc when the segment starts with dv */
  method FrontOfVictim(h: Heap, p: int, tsize: int, nb: int, ghost g: State, ghost foot: int)
    requires h.bins.Valid() && Front(g, g, foot, p, p + tsize) && p + tsize == h.dv && h.dv != 0 && h.top != 0
    requires g.o == Owners(h.bins.held, h.dv, h.dvsize, h.top, h.topsize, h.live, h.records) && g.segs == h.segs
    requires g.m == PutHead(h.m, p, tsize + 3) && MIN_CHUNK <= nb && nb % ALIGN == 0 && tsize - nb >= MIN_CHUNK &&
      p !in h.live
    modifies h`m, h`dv, h`dvsize, h`T, h`live
    ensures Got(h, g, p, nb) && h.View().o == Prepended(g.T, g.o, p, tsize, nb)
  {
    ghost var g' := JoinVictim(g, foot, p, p + tsize);
    ghost var b := p + tsize + h.dvsize;
    var q, qsize := p + nb, tsize - nb;
    var d := h.dvsize + qsize;
    Overwritten(h.m, p, tsize, nb);
    h.m := FreeHead(UseSize(h.m, p, nb), q, d);
    ghost var s' := FrontCut(g, g', foot, p, b, nb, Victim, h.m);
    h.dv, h.dvsize := q, d;
    h.T, h.live := s'.T, s'.o.live;
    h.Is(s');
  }

  /** The segment's first chunk joins the new space, if it is free. */
  method JoinFirst(h: Heap, p: int, first: int, ghost g: State, ghost foot: int) returns (b: int, ghost g': State)
    requires h.bins.Valid() && Front(g, g, foot, p, first) && first != h.top && first != h.dv && h.top != 0
    requires g.T[first].Chunk? && g.T[p] == Chunk(first - p, true, true) && h.bins.held == g.o.binned
    requires g.o.top == h.top && g.o.dv == h.dv && HeadOf(h.m, first) == HeadOf(g.m, first)
    modifies h.bins, h.bins.small, h.bins.large
    ensures h.bins.Valid() && h.bins.held == g'.o.binned && Front(g, g', foot, p, b) && b >= first
    ensures b in g.T && g.T[b].Chunk? && g.T[b].cinuse
    ensures g'.segs == g.segs && g'.o == g.o.(binned := g'.o.binned)
    ensures if g.T[first].cinuse then b == first && g' == g
      else b == first + g.T[first].size && g'.o.binned == g.o.binned - {first}
  {
    FirstHead(g, foot, p, first);
    b, g' := first, g;
    if HeadOf(h.m, first) % 4 == 1 {
      var nsize := SizeBits(HeadOf(h.m, first));
      g' := JoinBinned(g, foot, p, first);
      h.bins.Unlink(first, nsize);
      b := first + nsize;
    }
  }

  lemma PrependedIs(T: Layout, o: Owners, o': Owners, p: int, n: int, nb: int, b: int)
    requires p + n != o.top && p + n != o.dv && p + n in T && T[p + n].Chunk? && o' == o.(binned := o'.binned)
    requires if T[p + n].cinuse then b == p + n && o' == o
      else b == p + n + T[p + n].size && o'.binned == o.binned - {p + n}
    ensures Give(Give(o', p, nb, User), p + nb, b - p - nb, Bin) == Prepended(T, o, p, n, nb)
  {
  }

  /** The state when the rest is binned. */
  lemma OtherState(g: State, g': State, foot: int, p: int, n: int, b: int, nb: int, m': Memory) returns (s': State)
    requires Front(g, g', foot, p, b) && FrontWords(g', p, b, nb, Bin, m') && g.o.top != 0 && p !in g.o.live
    requires p + n != g.o.top && p + n != g.o.dv && p + n in g.T && g.T[p + n].Chunk?
    requires MIN_CHUNK <= nb && nb % ALIGN == 0 && b - p - nb >= MIN_CHUNK && g'.o == g.o.(binned := g'.o.binned)
    requires if g.T[p + n].cinuse then b == p + n && g' == g
      else b == p + n + g.T[p + n].size && g'.o.binned == g.o.binned - {p + n}
    ensures s'.m == m' && s'.segs == g'.segs && Taken(g, s', p, nb) && s'.o == Prepended(g.T, g.o, p, n, nb)
    ensures s'.o == g.o.(binned := g'.o.binned[p + nb := b - p - nb], live := s'.o.live)
    ensures b - p - nb < SPACE && (b - p - nb) % ALIGN == 0 && p + nb !in g'.o.binned
  {
    s' := FrontCut(g, g', foot, p, b, nb, Bin, m');
    RestBinnable(g', foot, p, b, nb);
    PrependedIs(g.T, g.o, g'.o, p, n, nb, b);
  }

  /** prepend_alloc otherwise: the rest is binned, with the segment's first chunk if that is free */
  method FrontOfOther(h: Heap, p: int, tsize: int, nb: int, ghost g: State, ghost foot: int)
    requires h.bins.Valid() && Front(g, g, foot, p, p + tsize) && p + tsize != h.top && p + tsize != h.dv && h.top != 0
    requires g.T[p + tsize].Chunk? && g.T[p] == Chunk(tsize, true, true)
    requires g.o == Owners(h.bins.held, h.dv, h.dvsize, h.top, h.topsize, h.live, h.records) && g.segs == h.segs
    requires g.m == PutHead(h.m, p, tsize + 3) && MIN_CHUNK <= nb && nb % ALIGN == 0 && tsize - nb >= MIN_CHUNK &&
      p !in h.live
    modifies h`m, h`T, h`live, h.bins, h.bins.small, h.bins.large
    ensures Got(h, g, p, nb) && h.View().o == Prepended(g.T, g.o, p, tsize, nb)
  {
    Overwritten(h.m, p, tsize, nb);
    var oldfirst;
    ghost var g';
    oldfirst, g' := JoinFirst(h, p, p + tsize, g, foot);
    var q, qsize := p + nb, oldfirst - p - nb;
    h.m := FreeWithPrev(UseSize(h.m, p, nb), q, qsize, oldfirst);
    ghost var s' := OtherState(g, g', foot, p, tsize, oldfirst, nb, h.m);
    BinFront(h, q, qsize, g, s', p, nb);
  }

  /** The rest is binned. */
  method BinFront(h: Heap, q: int, qsize: int, ghost g: State, ghost s': State, ghost p: int, ghost nb: int)
    requires h.bins.Valid() && q > 0 && q !in h.bins.held && 16 <= qsize < SPACE && qsize % ALIGN == 0
    requires s' == h.View().(T := s'.T, o := h.View().o.(binned := h.bins.held[q := qsize], live := s'.o.live)) &&
      Taken(g, s', p, nb)
    modifies h`T, h`live, h.bins, h.bins.small, h.bins.large
    ensures Got(h, g, p, nb) && h.View().o == s'.o
  {
    h.bins.Insert(q, qsize);
    h.T, h.live := s'.T, s'.o.live;
    h.Is(s');
  }

  lemma RestBinnable(g: State, foot: int, p: int, b: int, nb: int)
    requires Gapped(g, foot, p, b) && 0 < nb < b - p && nb % ALIGN == 0 && p > 0
    ensures b - p - nb < SPACE && (b - p - nb) % ALIGN == 0 && p + nb !in g.o.binned
  {
    BinSize(g, foot, p, b);
    assert Look(0);
    AlignedGap(nb, b - p);
  }

  /** prepend_alloc: the first nb bytes of the new space go to the user, the rest to what the segment starts with */
  method PrependAlloc(h: Heap, p: int, tsize: int, nb: int, ghost g: State, ghost foot: int)
    requires h.bins.Valid() && Front(g, g, foot, p, p + tsize) && h.top != 0
    requires g.T[p + tsize].Chunk? && g.T[p] == Chunk(tsize, true, true)
    requires g.o == Owners(h.bins.held, h.dv, h.dvsize, h.top, h.topsize, h.live, h.records) && g.segs == h.segs
    requires g.m == PutHead(h.m, p, tsize + 3) && MIN_CHUNK <= nb && nb % ALIGN == 0 && tsize - nb >= MIN_CHUNK &&
      p !in h.live
    modifies h`m, h`top, h`topsize, h`dv, h`dvsize, h`T, h`live, h.bins, h.bins.small, h.bins.large
    ensures Got(h, g, p, nb) && h.View().o == Prepended(g.T, g.o, p, tsize, nb)
  {
    var oldfirst := p + tsize;
    if oldfirst == h.top {
      FrontOfTop(h, p, tsize, nb, g, foot);
    } else if oldfirst == h.dv {
      FrontOfVictim(h, p, tsize, nb, g, foot);
    } else {
      FrontOfOther(h, p, tsize, nb, g, foot);
    }
  }
}
