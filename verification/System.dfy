/** How malloc.c gets memory from the system: mmap_alloc, prepend_alloc, add_segment and sys_alloc. */
module SystemMemory {
  import opened Tiling
  import opened Words
  import opened Ownership
  import opened Segments
  import opened Steps
  import opened Moves
  import opened Swapping
  import opened Growing
  import opened Sealing
  import opened Mapping
  import opened Regions
  import opened Heaps
  import opened Allocating

  const CMFAIL := MAX_SIZE
  const MMAP_THRESHOLD := 0x4_0000
  const MAX_RELEASE_CHECK_RATE := 4095

  /** page_align, on 32-bit sizes */
  function PageAlign(x: int): int { (x + PAGE - 1) % SPACE / PAGE * PAGE }

  /** granularity_align */
  function GrainAlign(x: int): int { (x + GRAIN - 1) % SPACE / GRAIN * GRAIN }

  /** nb is a padded request, or the size that no request can have. */
  predicate Padded(nb: int) {
    MIN_CHUNK <= nb < SPACE && (nb % ALIGN == 0 || nb == MAX_SIZE)
  }

  /** When it is not short, an aligned sum did not wrap around. */
  lemma PageRounded(nb: int, pad: int)
    requires 0 <= nb < SPACE && 0 < pad < PAGE
    ensures var x := PageAlign((nb + pad) % SPACE); x > nb ==> x >= nb + pad && x % PAGE == 0 && x < SPACE
  {
  }

  lemma GrainRounded(nb: int, pad: int)
    requires 0 <= nb < SPACE && 0 < pad < GRAIN
    ensures var x := GrainAlign((nb + pad) % SPACE); x > nb ==> x >= nb + pad && x % GRAIN == 0 && x < SPACE
  {
  }

  /** MMAP: the kernel fails or hands out whole pages that are not mapped. */
  method Mmap(h: Heap, size: int) returns (base: int)
    ensures base == CMFAIL || Unmapped(base, size, h.segs, h.maps)
  {
    base := *;
    if !Unmapped(base, size, h.segs, h.maps) {
      base := CMFAIL;
    }
  }

  /** The user has got the chunk at p, which has room for a request padded to nb and, in a segment, hardly more. */
  ghost predicate Served(h: Heap, s: State, p: int, nb: int)
    reads h, h.bins, h.bins.small, h.bins.large
  {
    && h.Valid() && Preserved(s, h.View(), 0) && p !in s.o.live && h.live == s.o.live + {p} && p > 0
    && p in h.T && (h.T[p].Mapped? || (h.T[p].Chunk? && h.T[p].size < nb + MIN_CHUNK)) &&
      PayloadEnd(h.T, p) >= p + nb + WORD
  }

  /** Nobody has got anything, and nobody has lost anything. */
  ghost predicate Refused(h: Heap, s: State)
    reads h, h.bins, h.bins.small, h.bins.large
  {
    h.Valid() && Preserved(s, h.View(), 0) && h.live == s.o.live
  }

  /** A new state in which nobody has lost anything. */
  lemma RefusedBy(h: Heap, s: State, s': State)
    requires h.bins.Valid() && h.View() == s' && Sound(s') && Preserved(s, s', 0) && s'.o.live == s.o.live
    requires Accounted(s'.T, h.segs, h.maps, h.footprint, h.maxFootprint)
    ensures Refused(h, s)
  {
  }

  /** What the user got from the heap as it was. */
  lemma ServedFrom(h: Heap, s: State, p: int, n: int, nb: int)
    requires Got(h, s, p, n) && nb <= n < nb + MIN_CHUNK
    requires Accounted(s.T, h.segs, h.maps, h.footprint, h.maxFootprint)
    ensures Served(h, s, p, nb)
  {
    NoZero(h.View());
    assert Look(0);
    CellAt(h.T, p);
    StillAccounted(s.T, h.T, h.segs, h.maps, h.footprint, h.maxFootprint);
  }

  /** footprint += size, with max_footprint following */
  method AddFootprint(h: Heap, size: int)
    requires 0 <= h.footprint && 0 <= size && h.footprint + size < SPACE
    modifies h`footprint, h`maxFootprint
    ensures h.footprint == old(h.footprint) + size
    ensures h.maxFootprint == if old(h.maxFootprint) >= h.footprint then old(h.maxFootprint) else h.footprint
  {
    h.footprint := (h.footprint + size) % SPACE;
    if h.footprint > h.maxFootprint {
      h.maxFootprint := h.footprint;
    }
  }

  /** align_offset */
  function AlignOffset(a: int): int { if a % ALIGN == 0 then 0 else ALIGN - a % ALIGN }

  /** The words mmap_alloc and mmap_resize write: offset, head, and two marks behind the chunk. */
  function MapMemory(m: Memory, p: int, psize: int, offset: int): Memory {
    PutHead(PutHead(PutHead(PutFoot(m, p, offset), p, psize), p + psize, WORD + 3), p + psize + WORD, 0)
  }

  lemma MapMemoryWords(m: Memory, p: int, psize: int, offset: int, base: int, len: int)
    requires InRegion(p, psize, offset, base, len)
    requires psize > 2 * WORD
    ensures MapWords(m, MapMemory(m, p, psize, offset), p, psize, offset, base, len)
  {
  }

  /** The state with a directly mapped chunk more. */
  lemma MappedState(s: State, maps: Maps, footprint: int, peak: int, nb: int, p: int, psize: int, offset: int,
      mm: int, mmsize: int) returns (s': State)
    requires Sound(s) && Accounted(s.T, s.segs, maps, footprint, peak) && Padded(nb) &&
      Unmapped(mm, mmsize, s.segs, maps)
    requires mmsize >= nb + 31 && offset == 0 && p == mm && psize == mmsize - 4 * WORD
    ensures s'.m == MapMemory(s.m, p, psize, offset) && s'.segs == s.segs && s'.o == s.o.(live := s.o.live + {p})
    ensures Sound(s') && Preserved(s, s', 0) && p !in s.o.live && p in s'.T && s'.T[p] == Mapped(psize, offset) &&
      psize >= nb + 16
    ensures 0 <= footprint && footprint + mmsize < SPACE
    ensures var f := footprint + mmsize; Accounted(s'.T, s.segs, maps[mm := mmsize], f, if peak >= f then peak else f)
  {
    UnmappedVacant(s.T, s.segs, maps, footprint, peak, mm, mmsize);
    Roomy(nb, psize, mmsize);
    MapMemoryWords(s.m, p, psize, offset, mm, mmsize);
    s' := AddMap(s, MapMemory(s.m, p, psize, offset), p, psize, offset, mm, mmsize);
    SoundShape(s);
    MappedAccounted(s.T, s'.T, s.segs, maps, p, psize, offset, mm, mmsize, footprint, peak);
  }

  lemma InEights(q: int, k: int)
    requires 8 * q >= 8 * k + 15
    ensures 8 * q >= 8 * k + 16
  {
  }

  /** The size of a region for nb bytes: not above nb if that does not exist. */
  function MapSize(nb: int): int { PageAlign((nb + 6 * WORD + ALIGN - 1) % SPACE) }

  /** The chunk at p has a region of its own, and nothing else has changed since s. */
  ghost predicate OwnRegion(h: Heap, s: State, p: int, nb: int, maps: Maps, footprint: int)
    reads h, h.bins, h.bins.small, h.bins.large
  {
    && p in h.T && h.T[p] == Mapped(MapSize(nb) - 4 * WORD, 0) && h.maps == maps[p := MapSize(nb)]
    && h.footprint == footprint + MapSize(nb)
    && h.View().o == s.o.(live := s.o.live + {p}) && h.segs == s.segs
  }

  /** mmap_alloc: a chunk in a region of its own; it answers 0 only if there is no such size or the kernel refuses */
  method MmapAlloc(h: Heap, nb: int) returns (p: int, ghost refused: bool)
    requires h.Valid() && Padded(nb)
    modifies h`m, h`T, h`live, h`maps, h`footprint, h`maxFootprint
    ensures p == 0 ==> Refused(h, old(h.View())) && h.View() == old(h.View()) && h.maps == old(h.maps)
    ensures p == 0 ==> h.footprint == old(h.footprint) && h.maxFootprint == old(h.maxFootprint)
    ensures p == 0 ==> refused || MapSize(nb) <= nb
    ensures p != 0 ==> Served(h, old(h.View()), p, nb) && nb != MAX_SIZE && MapSize(nb) > nb
    ensures p != 0 ==> OwnRegion(h, old(h.View()), p, nb, old(h.maps), old(h.footprint))
  {
    Unchanged(h.View());
    p, refused := 0, false;
    var mmsize := MapSize(nb);
    PageRounded(nb, 6 * WORD + ALIGN - 1);
    if mmsize > nb {
      var mm := Mmap(h, mmsize);
      refused := mm == CMFAIL;
      if mm != CMFAIL {
        p := MapChunk(h, nb, mm, mmsize);
      }
    }
  }

  /** The chunk in the region that mmap_alloc got. */
  method MapChunk(h: Heap, nb: int, mm: int, mmsize: int) returns (p: int)
    requires h.Valid() && Padded(nb) && Unmapped(mm, mmsize, h.segs, h.maps) && mmsize >= nb + 31
    modifies h`m, h`T, h`live, h`maps, h`footprint, h`maxFootprint
    ensures p != 0 && Served(h, old(h.View()), p, nb)
    ensures p == mm && h.T[p] == Mapped(mmsize - 4 * WORD, 0) && h.maps == old(h.maps)[mm := mmsize]
    ensures h.View().o == old(h.View()).o.(live := old(h.live) + {p}) && h.footprint == old(h.footprint) + mmsize
  {
    var offset := AlignOffset(mm + 2 * WORD);
    PageStart(mm);
    var psize := mmsize - offset - 4 * WORD;
    p := mm + offset;
    ghost var s' := MappedState(h.View(), h.maps, h.footprint, h.maxFootprint, nb, p, psize, offset, mm, mmsize);
    h.m := MapMemory(h.m, p, psize, offset);
    h.T, h.live := s'.T, s'.o.live;
    h.maps := h.maps[mm := mmsize];
    AddFootprint(h, mmsize);
    h.Is(s');
  }

  lemma SoundShape(s: State)
    requires Sound(s)
    ensures Shaped(s.segs) && Segments.Apart(s.segs)
  {
    assert Look(0);
  }

  lemma Roomy(nb: int, psize: int, mmsize: int)
    requires Padded(nb) && mmsize >= nb + 31 && mmsize % PAGE == 0 && mmsize < SPACE && psize == mmsize - 16
    ensures psize % ALIGN == 0 && psize >= nb + 16
  {
    var q := 512 * (mmsize / PAGE) - 2;
    assert psize == 8 * q;
    Eighth(psize, q);
    InEights(q, nb / 8);
  }

  /** init_top */
  method InitTop(h: Heap, p0: int, psize0: int)
    requires p0 % ALIGN == 0
    modifies h`m, h`top, h`topsize, h`trimCheck
    ensures h.m == TopWords(old(h.m), p0, psize0) && h.top == p0 && h.topsize == psize0 && h.trimCheck == TRIM_THRESHOLD
  {
    var offset := AlignOffset(p0 + 2 * WORD);
    var p, psize := p0 + offset, psize0 - offset;
    h.top, h.topsize := p, psize;
    h.m := PutHead(PutHead(h.m, p, psize + 1), p + psize, TOP_FOOT);
    h.trimCheck := TRIM_THRESHOLD;
  }

  /** The state with its first segment, or one more once the others are sealed. */
  lemma FrontState(s: State, maps: Maps, footprint: int, peak: int, g: Segment) returns (s': State)
    requires Topless(s) && Accounted(s.T, s.segs, maps, footprint, peak) && Unmapped(g.base, g.size, s.segs, maps) &&
      g.size % GRAIN == 0
    ensures s'.m == TopWords(s.m, g.base, g.size - TOP_FOOT) && s'.segs == [g] + s.segs
    ensures s'.o == s.o.(top := g.base, topsize := g.size - TOP_FOOT)
    ensures Sound(s') && Preserved(s, s', 0) && g.base % ALIGN == 0
    ensures 0 <= footprint && footprint + g.size < SPACE
    ensures var f := footprint + g.size; Accounted(s'.T, [g] + s.segs, maps, f, if peak >= f then peak else f)
  {
    UnmappedVacant(s.T, s.segs, maps, footprint, peak, g.base, g.size);
    s' := NewTop(s, g);
    PageStart(g.base);
    ToplessShape(s);
    SoundShape(s');
    FrontAccounted(s.T, s'.T, s.segs, g, maps, footprint, peak);
  }

  lemma ToplessShape(s: State)
    requires Topless(s)
    ensures Shaped(s.segs) && Segments.Apart(s.segs)
  {
    assert Look(0);
  }

  /** The first memory of all. */
  method FirstSegment(h: Heap, tbase: int, tsize: int)
    requires h.Valid() && h.top == 0 && Unmapped(tbase, tsize, h.segs, h.maps) && tsize % GRAIN == 0
    modifies h`m, h`top, h`topsize, h`trimCheck, h`releaseChecks, h`segs, h`T, h`records, h`footprint, h`maxFootprint
    ensures Refused(h, old(h.View())) && h.topsize == tsize - TOP_FOOT
    ensures h.View().o == old(h.View()).o.(top := tbase, topsize := tsize - TOP_FOOT)
    ensures h.segs == [Segment(tbase, tsize, 0)] && h.footprint == old(h.footprint) + tsize
  {
    ghost var s := h.View();
    var g := Segment(tbase, tsize, 0);
    Uninitialized(s);
    ghost var s' := FrontState(s, h.maps, h.footprint, h.maxFootprint, g);
    AddFootprint(h, tsize);
    h.segs := [g];
    h.releaseChecks := MAX_RELEASE_CHECK_RATE;
    EnterTop(h, g, s');
    RefusedBy(h, s, s');
  }

  /** The state when the current segment's end has moved. */
  lemma MovedState(s: State, maps: Maps, footprint: int, peak: int, tbase: int, delta: int) returns (s': State)
    requires Sound(s) && Accounted(s.T, s.segs, maps, footprint, peak) && s.segs != [] && delta % GRAIN == 0
    requires s.o.top != 0 && s.o.topsize + delta > 0
    requires delta > 0 ==> Unmapped(tbase, delta, s.segs, maps) && tbase == s.segs[0].base + s.segs[0].size
    ensures s'.m == TopWords(s.m, s.o.top, s.o.topsize + delta) && s'.segs == Moved(s.segs, delta)
    ensures s'.o == s.o.(topsize := s.o.topsize + delta)
    ensures Sound(s') && Preserved(s, s', 0) && s.o.top % ALIGN == 0
    ensures 0 <= footprint && footprint + delta < SPACE
    ensures var f := footprint + delta; Accounted(s'.T, s'.segs, maps, f, if peak >= f then peak else f)
    ensures footprint <= peak
  {
    if delta > 0 { UnmappedVacant(s.T, s.segs, maps, footprint, peak, tbase, delta); }
    s' := MoveEnd(s, delta);
    TopAligned(s);
    MovedAccounted(s, s', maps, footprint, peak, tbase, delta);
  }

  lemma MovedAccounted(s: State, s': State, maps: Maps, footprint: int, peak: int, tbase: int, delta: int)
    requires Sound(s) && Sound(s') && Accounted(s.T, s.segs, maps, footprint, peak) && s.segs != [] &&
      SameMaps(s.T, s'.T)
    requires delta > 0 ==> Unmapped(tbase, delta, s.segs, maps) && tbase == s.segs[0].base + s.segs[0].size
    requires s'.segs == Moved(s.segs, delta)
    ensures 0 <= footprint <= peak && footprint + delta < SPACE
    ensures var f := footprint + delta; Accounted(s'.T, s'.segs, maps, f, if peak >= f then peak else f)
  {
    SoundShape(s);
    SoundShape(s');
    var g := s.segs[0].(size := s.segs[0].size + delta);
    assert Shape(s.segs[0]);
    MovedClear(s, maps, footprint, peak, tbase, delta, g);
    ResizedAccounted(s.T, s'.T, s.segs, 0, g, maps, footprint, peak);
  }

  /** No directly mapped region overlaps the segment, whose end has moved. */
  lemma MovedClear(s: State, maps: Maps, footprint: int, peak: int, tbase: int, delta: int, g: Segment)
    requires Accounted(s.T, s.segs, maps, footprint, peak) && s.segs != [] &&
      g == s.segs[0].(size := s.segs[0].size + delta)
    requires s.segs[0].size > 0
    requires delta > 0 ==> Unmapped(tbase, delta, s.segs, maps) && tbase == s.segs[0].base + s.segs[0].size
    ensures forall r :: r in maps ==> Disjoint(r, maps[r], g.base, g.size)
  {
    if delta > 0 {
      GrownClear(s.T, s.segs, maps, footprint, peak, 0, tbase, delta, g);
    } else {
      ShrunkClear(s.T, s.segs, maps, footprint, peak, 0, g);
    }
  }

  lemma TopAligned(s: State)
    requires Sound(s) && s.o.top != 0
    ensures s.o.top % ALIGN == 0 && s.segs != [] && s.o.top > 0 && s.o.topsize > 0 && s.o.topsize % ALIGN == 0
    ensures s.o.top + s.o.topsize + TOP_FOOT == s.segs[0].base + s.segs[0].size && s.segs[0].base <= s.o.top
  {
    assert Look(0);
    Tail(s);
  }

  /** sys_alloc appends to the segment that holds top. */
  method Append(h: Heap, tbase: int, tsize: int)
    requires h.Valid() && h.top != 0 && h.segs != [] && Unmapped(tbase, tsize, h.segs, h.maps) && tsize % GRAIN == 0
    requires tbase == h.segs[0].base + h.segs[0].size
    modifies h`m, h`top, h`topsize, h`trimCheck, h`segs, h`T, h`footprint, h`maxFootprint
    ensures Refused(h, old(h.View())) && h.topsize == old(h.topsize) + tsize
    ensures h.View().o == old(h.View()).o.(topsize := old(h.topsize) + tsize)
    ensures h.segs == Moved(old(h.segs), tsize) && h.footprint == old(h.footprint) + tsize
  {
    ghost var s := h.View();
    TopAligned(s);
    ghost var s' := MovedState(s, h.maps, h.footprint, h.maxFootprint, tbase, tsize);
    AddFootprint(h, tsize);
    h.segs := h.segs[0 := h.segs[0].(size := h.segs[0].size + tsize)];
    InitTop(h, h.top, h.topsize + tsize);
    h.T := s'.T;
    h.Is(s');
    RefusedBy(h, s, s');
  }

  predicate Holds(g: Segment, addr: int) {
    g.base <= addr < g.base + g.size
  }

  /** segment_holding */
  method SegmentHolding(segs: seq<Segment>, addr: int) returns (i: nat)
    requires exists j :: 0 <= j < |segs| && Holds(segs[j], addr)
    ensures i < |segs| && Holds(segs[i], addr) && forall j :: 0 <= j < i ==> !Holds(segs[j], addr)
  {
    i := 0;
    while !Holds(segs[i], addr)
      invariant i < |segs| && forall j :: 0 <= j < i ==> !Holds(segs[j], addr)
      decreases |segs| - i
    {
      i := i + 1;
    }
  }

  /** The trailing fenceposts: head words from p on, up to the end of the segment. */
  method WriteFences(m: Memory, p0: int, end: int) returns (m': Memory, nfences: nat)
    requires p0 + 16 <= end && p0 % ALIGN == 0 && end % ALIGN == 0
    ensures WritesIn(m, m', p0 + WORD, end) && HeadOf(m', p0) == WORD + 3
    ensures nfences >= 2 && forall k: nat :: k < nfences ==> HeadOf(m', p0 + k * WORD) == WORD + 3
    ensures p0 + nfences * WORD + WORD >= end
  {
    var p := p0;
    m', nfences := m, 0;
    while true
      invariant p == p0 + nfences * WORD && p + WORD < end
      invariant WritesIn(m, m', p0 + WORD, end)
      invariant forall k: nat :: k < nfences ==> HeadOf(m', p0 + k * WORD) == WORD + 3
      decreases end - p
    {
      var nextp := p + WORD;
      m' := PutHead(m', p, WORD + 3);
      nfences := nfences + 1;
      if nextp + WORD < end {
        p := nextp;
      } else {
        break;
      }
    }
    assert HeadOf(m', p0 + 0 * WORD) == WORD + 3;
  }

  /** Where add_segment puts the record. */
  lemma RecordIs(top: int, topsize: int, asp: int)
    requires asp == top + topsize
    ensures (if asp < top + MIN_CHUNK then top else asp) == RecordPlace(top, topsize)
  {
  }

  /** What add_segment writes in the old segment. */
  lemma SealMemory(m: Memory, m1: Memory, m2: Memory, m3: Memory, top: int, csp: int, end: int)
    requires SealPlace(top, csp, end) && m1 == UseSize(m, csp, RECORD)
    requires WritesIn(m1, m2, csp + RECORD + WORD, end) && HeadOf(m2, csp + RECORD) == WORD + 3
    requires m3 == if csp != top then FreeWithPrev(m2, top, csp - top, csp) else m2
    ensures SealWords(m, m3, top, csp, end)
  {
    assert HeadOf(m2, csp) == RECORD + 3;
    assert ClearPBit(RECORD + 3) == RECORD + 2;
    Words.Apart(csp, top);
    forall x | !(top + WORD <= x < end) ensures Get(m3, x) == Get(m, x) {
      assert Get(m2, x) == Get(m1, x);
    }
  }

  ghost function WithRest(binned: map<int, int>, top: int, csp: int): map<int, int> {
    if csp == top then binned else binned[top := csp - top]
  }

  lemma RecordSpot(end: int)
    requires end % ALIGN == 0
    ensures var rawsp := end - (RECORD + 4 * WORD + ALIGN - 1); rawsp + AlignOffset(rawsp + 2 * WORD) == end - TOP_FOOT
  {
    assert (end - 39) % 8 == 1;
  }

  /** The state when the current segment is sealed and another one takes its place. */
  lemma AddedState(s: State, maps: Maps, footprint: int, peak: int, m': Memory, csp: int, g: Segment)
      returns (s': State)
    requires Sound(s) && Accounted(s.T, s.segs, maps, footprint, peak) && s.o.top != 0 && s.segs != []
    requires Unmapped(g.base, g.size, s.segs, maps) && g.size % GRAIN == 0 && csp == RecordPlace(s.o.top, s.o.topsize)
    requires SealWords(s.m, m', s.o.top, csp, s.o.top + s.o.topsize + TOP_FOOT)
    ensures s'.m == TopWords(m', g.base, g.size - TOP_FOOT) && s'.segs == [g] + Recorded(s.segs, csp)
    ensures s'.o == Owners(WithRest(s.o.binned, s.o.top, csp), s.o.dv, s.o.dvsize, g.base, g.size - TOP_FOOT,
      s.o.live, s.o.records + {csp})
    ensures Sound(s') && Preserved(s, s', 0) && g.base % ALIGN == 0
    ensures 0 <= footprint && footprint + g.size < SPACE
    ensures var f := footprint + g.size; Accounted(s'.T, s'.segs, maps, f, if peak >= f then peak else f)
  {
    NoZero(s);
    var s1 := Seal(s, m', csp);
    SoundShape(s);
    ToplessShape(s1);
    RecordedAccounted(s.T, s1.T, s.segs, csp, maps, footprint, peak);
    forall i | 0 <= i < |s1.segs| ensures Disjoint(g.base, g.size, s1.segs[i].base, s1.segs[i].size) {
      assert Disjoint(g.base, g.size, s.segs[i].base, s.segs[i].size);
    }
    s' := FrontState(s1, maps, footprint, peak, g);
    PreservedTrans(s, s1, s', 0, 0);
  }

  lemma RecordedAccounted(T: Layout, T': Layout, segs: seq<Segment>, csp: int, maps: Maps, footprint: int, peak: int)
    requires Shaped(segs) && Segments.Apart(segs) && Accounted(T, segs, maps, footprint, peak) && SameMaps(T, T') &&
      segs != []
    ensures Accounted(T', Recorded(segs, csp), maps, footprint, peak)
  {
    RecordedApart(segs, csp);
    ShrunkClear(T, segs, maps, footprint, peak, 0, segs[0].(record := csp));
    ResizedAccounted(T, T', segs, 0, segs[0].(record := csp), maps, footprint, peak);
  }

  lemma TopBinnable(s: State)
    requires Sound(s) && s.o.top != 0
    ensures s.o.top !in s.o.binned && s.o.topsize < SPACE
  {
    assert Look(0);
    SizeFits(s, s.o.top);
  }

  /** A new segment is all top; what its record leaves of the old top is in a bin. */
  ghost function SealedOff(o: Owners, tbase: int, tsize: int): Owners {
    var csp := RecordPlace(o.top, o.topsize);
    Owners(WithRest(o.binned, o.top, csp), o.dv, o.dvsize, tbase, tsize - TOP_FOOT, o.live, o.records + {csp})
  }

  /** add_segment; the old segment is sealed before top is set anew, which writes elsewhere */
  method AddSegment(h: Heap, tbase: int, tsize: int)
    requires h.Valid() && h.top != 0 && h.segs != [] && Unmapped(tbase, tsize, h.segs, h.maps) && tsize % GRAIN == 0
    modifies h`m, h`top, h`topsize, h`trimCheck, h`segs, h`T, h`records, h`footprint, h`maxFootprint, h.bins,
      h.bins.small, h.bins.large
    ensures Refused(h, old(h.View())) && h.topsize == tsize - TOP_FOOT
    ensures h.View().o == SealedOff(old(h.View()).o, tbase, tsize)
    ensures h.segs == [Segment(tbase, tsize, 0)] + Recorded(old(h.segs), RecordPlace(old(h.top), old(h.topsize)))
    ensures h.footprint == old(h.footprint) + tsize
  {
    ghost var s := h.View();
    TopBinnable(s);
    var oldTop := h.top;
    var m', csp := SealOld(h);
    var g := Segment(tbase, tsize, 0);
    ghost var s' := AddedState(s, h.maps, h.footprint, h.maxFootprint, m', csp, g);
    Enter(h, oldTop, csp, m', g, s');
    RefusedBy(h, s, s');
  }

  /** What add_segment writes to the segment that holds top: the chunk of its record, fenceposts, and the rest of
      top. */
  method SealOld(h: Heap) returns (m': Memory, csp: int)
    requires h.Valid() && h.top != 0 && h.segs != []
    ensures csp == RecordPlace(h.top, h.topsize) && h.top > 0
    ensures SealWords(h.m, m', h.top, csp, h.top + h.topsize + TOP_FOOT)
    ensures csp == h.top || (16 <= csp - h.top < SPACE && (csp - h.top) % 8 == 0)
  {
    TopAligned(h.View());
    TopBinnable(h.View());
    assert Holds(h.segs[0], h.top);
    var i := SegmentHolding(h.segs, h.top);
    TopFirst(h.View(), i);
    var oldEnd := h.segs[i].base + h.segs[i].size;
    var ssize := RECORD;
    var rawsp := oldEnd - (ssize + 4 * WORD + ALIGN - 1);
    var asp := rawsp + AlignOffset(rawsp + 2 * WORD);
    AlignedEnd(h.top, h.topsize);
    RecordSpot(oldEnd);
    csp := if asp < h.top + MIN_CHUNK then h.top else asp;
    RecordIs(h.top, h.topsize, asp);
    Place(h.top, h.topsize);
    m' := SealAt(h.m, h.top, csp, oldEnd);
  }

  /** The words of add_segment. */
  method SealAt(m: Memory, top: int, csp: int, end: int) returns (m': Memory)
    requires SealPlace(top, csp, end) && csp % ALIGN == 0 && end % ALIGN == 0 && csp + RECORD + 16 <= end
    ensures SealWords(m, m', top, csp, end)
  {
    var m1 := UseSize(m, csp, RECORD);
    var m2, nfences := WriteFences(m1, csp + RECORD, end);
    assert nfences >= 2;
    m' := if csp != top then FreeWithPrev(m2, top, csp - top, csp) else m2;
    SealMemory(m, m1, m2, m', top, csp, end);
  }

  /** Only the current segment holds top. */
  lemma TopFirst(s: State, i: nat)
    requires Sound(s) && s.o.top != 0 && i < |s.segs| && Holds(s.segs[i], s.o.top)
    ensures i == 0
  {
    TopAligned(s);
    SoundShape(s);
    SameSegment(s.segs, i, 0, s.o.top);
  }

  /** The new segment becomes the current one, and what is left of the old top goes to a bin. */
  method Enter(h: Heap, oldTop: int, csp: int, m': Memory, g: Segment, ghost s': State)
    requires h.bins.Valid() && h.segs != [] && 0 < oldTop && oldTop !in h.bins.held && g.base % ALIGN == 0 &&
      g.size >= 0
    requires csp == oldTop || (16 <= csp - oldTop < SPACE && (csp - oldTop) % 8 == 0)
    requires s'.m == TopWords(m', g.base, g.size - TOP_FOOT) && s'.segs == [g] + Recorded(h.segs, csp)
    requires s'.o == Owners(WithRest(h.bins.held, oldTop, csp), h.dv, h.dvsize, g.base, g.size - TOP_FOOT, h.live,
      h.records + {csp})
    requires 0 <= h.footprint && h.footprint + g.size < SPACE
    modifies h`m, h`top, h`topsize, h`trimCheck, h`segs, h`T, h`records, h`footprint, h`maxFootprint, h.bins,
      h.bins.small, h.bins.large
    ensures h.bins.Valid() && h.View() == s' && h.topsize == g.size - TOP_FOOT
    ensures h.footprint == old(h.footprint) + g.size
    ensures h.maxFootprint == if old(h.maxFootprint) >= h.footprint then old(h.maxFootprint) else h.footprint
  {
    AddFootprint(h, g.size);
    h.m := m';
    h.segs := [g] + h.segs[0 := h.segs[0].(record := csp)];
    BinRest(h, oldTop, csp);
    EnterTop(h, g, s');
  }

  /** The new segment is all top. */
  method EnterTop(h: Heap, g: Segment, ghost s': State)
    requires g.base % ALIGN == 0 && s'.m == TopWords(h.m, g.base, g.size - TOP_FOOT) && s'.segs == h.segs &&
      s'.o.live == h.live
    requires s'.o.dv == h.dv && s'.o.dvsize == h.dvsize && s'.o.top == g.base && s'.o.topsize == g.size - TOP_FOOT
    requires s'.o.binned == h.bins.held
    modifies h`m, h`top, h`topsize, h`trimCheck, h`T, h`records
    ensures h.View() == s' && h.topsize == g.size - TOP_FOOT
  {
    InitTop(h, g.base, g.size - TOP_FOOT);
    h.T, h.records := s'.T, s'.o.records;
    h.Is(s');
  }

  /** The rest of the old top goes to a bin, if there is one. */
  method BinRest(h: Heap, oldTop: int, csp: int)
    requires h.bins.Valid() && oldTop > 0 && oldTop !in h.bins.held
    requires csp == oldTop || (16 <= csp - oldTop < SPACE && (csp - oldTop) % 8 == 0)
    modifies h.bins, h.bins.small, h.bins.large
    ensures h.bins.Valid() && h.bins.held == WithRest(old(h.bins.held), oldTop, csp)
  {
    if csp != oldTop {
      h.bins.Insert(oldTop, csp - oldTop);
    }
  }
}
