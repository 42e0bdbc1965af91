/** mmap_resize and dlrealloc of malloc.c. */
module Reallocs {
  import opened Tiling
  import opened Words
  import opened Segments
  import opened Steps
  import opened Moves
  import opened Growing
  import opened Mapping
  import opened Regions
  import opened Heaps
  import opened Resizing
  import opened SystemMemory
  import opened SystemAllocation
  import opened Mallocs
  import opened Frees
  import opened Payloads

  /** The words from on, n of them by address, are copied to other addresses. */
  ghost predicate Copied(m: Memory, m': Memory, from: int, to: int, n: int) {
    forall x {:trigger Get(m', x)} :: CopiedAt(m, m', from, to, n, x)
  }

  ghost predicate CopiedAt(m: Memory, m': Memory, from: int, to: int, n: int, x: int) {
    Get(m', x) == if to <= x < to + n then Get(m, x - to + from) else Get(m, x)
  }

  /** The word k addresses into q is the one that was k addresses into p. */
  predicate SameWord(m: Memory, m': Memory, p: int, q: int, k: int) {
    Get(m', q + k) == Get(m, p + k)
  }

  /** memcpy, which realloc uses on memory that does not overlap; the kernel moves pages the same way */
  method Copy(m: Memory, from: int, to: int, n: int) returns (m': Memory)
    requires n >= 0
    ensures Copied(m, m', from, to, n)
  {
    m' := m;
    var k := 0;
    forall x ensures CopiedAt(m, m', from, to, 0, x) { }
    while k < n
      invariant 0 <= k <= n && Copied(m, m', from, to, k)
    {
      ghost var before := m';
      m' := m'[to + k := Get(m, from + k)];
      k := k + 1;
      forall x ensures CopiedAt(m, m', from, to, k, x) { assert CopiedAt(m, before, from, to, k - 1, x); }
    }
  }

  /** MREMAP: the kernel fails, or the pages are at cp, which is free but for the pages themselves. */
  method Mremap(h: Heap, start: int, oldlen: int, newlen: int, mayMove: bool) returns (cp: int, m': Memory)
    requires oldlen > 0
    ensures cp == CMFAIL || (Unmapped(cp, newlen, h.segs, h.maps - {start}) && (mayMove || cp == start))
    ensures cp != CMFAIL ==> Copied(h.m, m', start, cp, Min(oldlen, newlen))
    ensures cp == CMFAIL ==> m' == h.m
  {
    cp := *;
    m' := h.m;
    if !Unmapped(cp, newlen, h.segs, h.maps - {start}) || (!mayMove && cp != start) {
      cp := CMFAIL;
    } else {
      m' := Copy(h.m, start, cp, Min(oldlen, newlen));
    }
  }

  /** The size mmap_resize asks for. */
  function RemapSize(nb: int): int { PageAlign((nb + 6 * WORD + ALIGN - 1) % SPACE) }

  /** mmap_resize leaves room for nb bytes behind the offset the chunk has in its region. */
  predicate RemapFits(offset: int, nb: int) {
    offset + nb + 5 * WORD <= RemapSize(nb)
  }

  /** What it makes there is a chunk. */
  predicate RemapLegal(offset: int, nb: int) {
    RemapSize(nb) - offset - 4 * WORD >= MIN_CHUNK
  }

  /** The user's memory there has room for so many bytes. */
  predicate RemapRoom(offset: int, nb: int, bytes: int) {
    RemapSize(nb) - offset - 6 * WORD >= bytes
  }

  /** A chunk that starts its region, as mmap_alloc leaves it, always has enough room. */
  lemma RemapFitsUnshifted(nb: int)
    requires Padded(nb) && RemapSize(nb) > nb
    ensures RemapFits(0, nb)
  {
    PageRounded(nb, 6 * WORD + ALIGN - 1);
  }

  /** The chunk of p in s has become that of q: others keep their memory, and q has as much of p's contents as fits. */
  ghost predicate Moved(s: State, s': State, p: int, q: int) {
    && Preserved(s, s', p) && p in s.o.live && p in s.T && q in s'.T && s'.o.live == s.o.live - {p} + {q}
    && (q == p || q !in s.o.live)
    && forall k {:trigger SameWord(s.m, s'.m, p, q, k)} ::
      2 * WORD <= k < Min(PayloadEnd(s.T, p) - p, PayloadEnd(s'.T, q) - q) ==> SameWord(s.m, s'.m, p, q, k)
  }

  /** Nothing to do for mmap_resize: the chunk is big enough, but not too big. */
  predicate GoodAsIs(oldsize: int, nb: int) {
    oldsize >= nb + WORD && oldsize - nb <= 2 * GRAIN
  }

  /** What the region of p leaves behind when it goes, and that the kernel may put it at cp. */
  lemma RegionLeft(s: State, maps: Maps, footprint: int, peak: int, p: int, cp: int, newlen: int) returns (s1: State)
    requires Sound(s) && Accounted(s.T, s.segs, maps, footprint, peak) && p in s.o.live && p in s.T && s.T[p].Mapped?
    requires Unmapped(cp, newlen, s.segs, maps - {RegionStart(s.T, p)})
    ensures s1.m == s.m && s1.T == s.T - {p} && s1.segs == s.segs && s1.o == s.o.(live := s.o.live - {p})
    ensures Sound(s1) && Preserved(s, s1, p) && Vacant(s1.T, s1.segs, cp, newlen)
    ensures Accounted(s1.T, s.segs, maps - {RegionStart(s.T, p)}, footprint - RegionSize(s.T, p), peak)
    ensures Shaped(s.segs) && Segments.Apart(s.segs) && 0 !in s.o.live && s.T[p].size >= MIN_CHUNK
  {
    UnmappedAccounted(s.T, p, s.segs, maps, footprint, peak);
    s1 := DropMap(s, p);
    UnmappedVacant(s1.T, s.segs, maps - {RegionStart(s.T, p)}, footprint - RegionSize(s.T, p), peak, cp, newlen);
    OffsetAligned(s, maps, footprint, peak, p);
    SoundShape(s);
    NoZero(s);
  }

  /** The words that mmap_resize writes into the region. */
  function RemapMemory(m1: Memory, q: int, psize: int): Memory {
    PutHead(PutHead(PutHead(m1, q, psize % SPACE), q + psize, WORD + 3), q + psize + WORD, 0)
  }

  /** The state once the region of p is elsewhere or of another size. */
  lemma RemappedState(s: State, maps: Maps, footprint: int, peak: int, p: int, cp: int, newlen: int, m1: Memory,
      nb: int) returns (s': State)
    requires Sound(s) && Accounted(s.T, s.segs, maps, footprint, peak) && p in s.o.live && p in s.T && s.T[p].Mapped?
    requires nb >= MIN_CHUNK && RemapLegal(s.T[p].offset, nb) && newlen == RemapSize(nb) && s.T[p].offset >= 0
    requires var start := RegionStart(s.T, p);
      Unmapped(cp, newlen, s.segs, maps - {start}) && Copied(s.m, m1, start, cp, Min(RegionSize(s.T, p), newlen))
    ensures var offset := s.T[p].offset;
      var q, psize := cp + offset, newlen - offset - 4 * WORD;
      && s'.m == RemapMemory(m1, q, psize) && s'.segs == s.segs
      && s'.o == s.o.(live := s.o.live - {p} + {q}) && q in s'.T && s'.T[q] == Mapped(psize, offset) &&
        Moved(s, s', p, q) && Sound(s')
      && q > 0
    ensures var f := (footprint + newlen - RegionSize(s.T, p)) % SPACE;
      Accounted(s'.T, s.segs, maps - {RegionStart(s.T, p)} + map[cp := newlen], f, if peak >= f then peak else f)
  {
    var offset, start, oldlen := s.T[p].offset, RegionStart(s.T, p), RegionSize(s.T, p);
    var q, psize := cp + offset, newlen - offset - 4 * WORD;
    var s1 := RegionLeft(s, maps, footprint, peak, p, cp, newlen);
    s' := RemapNew(s, s1, maps, footprint, peak, p, cp, newlen, m1, offset, psize);
    RemapAccounted(s1, s'.T, maps - {start}, q, psize, offset, cp, newlen, footprint, oldlen, peak);
    RemapContents(s, p, cp, newlen, m1, s'.m, offset, psize);
  }

  /** The chunk in its new region. */
  lemma RemapNew(s: State, s1: State, maps: Maps, footprint: int, peak: int, p: int, cp: int, newlen: int, m1: Memory,
      offset: int, psize: int) returns (s': State)
    requires Sound(s) && Accounted(s.T, s.segs, maps, footprint, peak) && p in s.T && s.T[p].Mapped? &&
      s.T[p].offset == offset
    requires Copied(s.m, m1, p - offset, cp, Min(RegionSize(s.T, p), newlen)) && 0 !in s.o.live
    requires psize == newlen - offset - 4 * WORD && psize >= MIN_CHUNK && newlen < SPACE && newlen % PAGE == 0
    requires s1.m == s.m && s1.segs == s.segs && s1.o == s.o.(live := s.o.live - {p})
    requires Sound(s1) && Preserved(s, s1, p) && Vacant(s1.T, s1.segs, cp, newlen)
    ensures s'.m == RemapMemory(m1, cp + offset, psize) && s'.segs == s.segs &&
      s'.o == s.o.(live := s.o.live - {p} + {cp + offset})
    ensures cp + offset !in s1.T && s'.T == s1.T[cp + offset := Mapped(psize, offset)] && Sound(s') &&
      Preserved(s, s', p)
    ensures psize % ALIGN == 0 && (cp + offset == p || cp + offset !in s.o.live)
  {
    PageStart(newlen);
    RemapChunk(s, maps, footprint, peak, p, cp, newlen, m1, offset, psize);
    s' := AddMap(s1, RemapMemory(m1, cp + offset, psize), cp + offset, psize, offset, cp, newlen);
    PreservedTrans(s, s1, s', p, 0);
  }

  /** The chunk at cp + offset fills its region. */
  lemma RemapChunk(s: State, maps: Maps, footprint: int, peak: int, p: int, cp: int, newlen: int, m1: Memory,
      offset: int, psize: int)
    requires Sound(s) && Accounted(s.T, s.segs, maps, footprint, peak) && p in s.T && s.T[p].Mapped? &&
      s.T[p].offset == offset
    requires Copied(s.m, m1, RegionStart(s.T, p), cp, Min(RegionSize(s.T, p), newlen))
    requires psize == newlen - offset - 4 * WORD && psize >= MIN_CHUNK && newlen < SPACE && newlen % ALIGN == 0
    ensures InRegion(cp + offset, psize, offset, cp, newlen) && psize % ALIGN == 0
    ensures MapWords(s.m, RemapMemory(m1, cp + offset, psize), cp + offset, psize, offset, cp, newlen)
  {
    OffsetAligned(s, maps, footprint, peak, p);
    Difference(newlen, offset);
    RemapWords(s, p, cp, newlen, m1, RemapMemory(m1, cp + offset, psize), offset, psize);
  }

  /** The footprint after the change. */
  lemma RemapAccounted(s1: State, T': Layout, maps: Maps, q: int, psize: int, offset: int, cp: int, newlen: int,
      footprint: int, oldlen: int, peak: int)
    requires Accounted(s1.T, s1.segs, maps, footprint - oldlen, peak) && Unmapped(cp, newlen, s1.segs, maps)
    requires Shaped(s1.segs) && Segments.Apart(s1.segs) && q !in s1.T && T' == s1.T[q := Mapped(psize, offset)] &&
      cp == q - offset
    requires newlen == offset + psize + 4 * WORD && psize % ALIGN == 0 && psize >= MIN_CHUNK
    ensures var f := (footprint + newlen - oldlen) % SPACE;
      Accounted(T', s1.segs, maps + map[cp := newlen], f, if peak >= f then peak else f)
  {
    MappedAccounted(s1.T, T', s1.segs, maps, q, psize, offset, cp, newlen, footprint - oldlen, peak);
    assert maps + map[cp := newlen] == maps[cp := newlen];
    NoWrap(footprint + newlen - oldlen);
  }

  lemma NoWrap(f: int)
    requires 0 <= f < SPACE
    ensures f % SPACE == f
  {
  }

  /** Sizes and offsets of directly mapped chunks are aligned. */
  lemma OffsetAligned(s: State, maps: Maps, footprint: int, peak: int, p: int)
    requires Sound(s) && Accounted(s.T, s.segs, maps, footprint, peak) && p in s.T && s.T[p].Mapped?
    ensures s.T[p].offset % ALIGN == 0 && s.T[p].offset >= 0 && s.T[p].size % ALIGN == 0 &&
      Get(s.m, p) == s.T[p].offset && s.T[p].size >= MIN_CHUNK
  {
    assert Look(0);
    CellAt(s.T, p);
    assert Homed(s.T, maps, p) && FootAt(s.m, s.T, p);
    assert MapOk(RegionStart(s.T, p), s.segs, maps);
    PageStart(RegionStart(s.T, p));
    Difference(p, RegionStart(s.T, p));
  }

  lemma Difference(p: int, q: int)
    requires p % ALIGN == 0 && q % ALIGN == 0
    ensures (p - q) % ALIGN == 0
  {
  }

  lemma RemapWords(s: State, p: int, cp: int, newlen: int, m1: Memory, m': Memory, offset: int, psize: int)
    requires p in s.T && s.T[p].Mapped? && s.T[p].offset == offset >= 0 && Get(s.m, p) == offset && offset % ALIGN == 0
    requires Copied(s.m, m1, p - offset, cp, Min(offset + s.T[p].size + 4 * WORD, newlen)) && s.T[p].size > 0
    requires psize == newlen - offset - 4 * WORD && MIN_CHUNK <= psize && newlen < SPACE
    requires m' == RemapMemory(m1, cp + offset, psize)
    ensures InRegion(cp + offset, psize, offset, cp, newlen) &&
      MapWords(s.m, m', cp + offset, psize, offset, cp, newlen)
  {
    assert Get(m1, cp + offset) == Get(s.m, p);
    forall x | !(cp <= x < cp + newlen) ensures Get(m', x) == Get(s.m, x) {
      assert Get(m1, x) == Get(s.m, x);
    }
  }

  lemma RemapContents(s: State, p: int, cp: int, newlen: int, m1: Memory, m': Memory, offset: int, psize: int)
    requires p in s.T && s.T[p].Mapped? && s.T[p].offset == offset >= 0
    requires Copied(s.m, m1, p - offset, cp, Min(offset + s.T[p].size + 4 * WORD, newlen))
    requires psize == newlen - offset - 4 * WORD && MIN_CHUNK <= psize && newlen < SPACE
    requires m' == RemapMemory(m1, cp + offset, psize)
    ensures forall k {:trigger SameWord(s.m, m', p, cp + offset, k)} ::
      2 * WORD <= k < Min(s.T[p].size, psize) ==> SameWord(s.m, m', p, cp + offset, k)
  {
    forall k {:trigger SameWord(s.m, m', p, cp + offset, k)} | 2 * WORD <= k < Min(s.T[p].size, psize)
      ensures SameWord(s.m, m', p, cp + offset, k) {
      assert Get(m1, cp + offset + k) == Get(s.m, p + k);
    }
  }

  /** What mmap_resize makes of p: a chunk of psize bytes at q. */
  ghost predicate Remapped(h: Heap, s: State, p: int, q: int, psize: int)
    reads h, h.bins, h.bins.small, h.bins.large
  {
    h.Valid() && Moved(s, h.View(), p, q) && q in h.T && h.T[q].Mapped? && h.T[q].size == psize && q > 0
  }

  /** The words, the segments and the regions as they are can be read as a heap in which q is the chunk of the region
      at cp. */
  ghost predicate LaidOut(m: Memory, segs: seq<Segment>, maps: Maps, s: State, footprint: int, peak: int, q: int,
      cp: int)
  {
    && s.m == m && s.segs == segs && Sound(s) && Accounted(s.T, segs, maps, footprint, peak)
    && q in s.T && s.T[q].Mapped? && RegionStart(s.T, q) == cp
  }

  ghost predicate Housed(m: Memory, segs: seq<Segment>, maps: Maps, q: int, cp: int) {
    exists s: State, footprint: int, peak: int :: LaidOut(m, segs, maps, s, footprint, peak, q, cp)
  }

  /** However the heap is read, the region has room for a chunk of the least size. */
  lemma HousedFits(m: Memory, segs: seq<Segment>, maps: Maps, q: int, cp: int)
    requires Housed(m, segs, maps, q, cp) && cp in maps
    ensures maps[cp] - (q - cp) - 4 * WORD >= MIN_CHUNK
  {
    var s: State, footprint: int, peak: int :| LaidOut(m, segs, maps, s, footprint, peak, q, cp);
    assert Look(0);
    assert Homed(s.T, maps, q);
  }

  /** footprint += newmmsize - oldmmsize, with max_footprint following */
  method ResizeFootprint(h: Heap, oldlen: int, newlen: int)
    modifies h`footprint, h`maxFootprint
    ensures h.footprint == (old(h.footprint) + newlen - oldlen) % SPACE
    ensures h.maxFootprint == if old(h.maxFootprint) >= h.footprint then old(h.maxFootprint) else h.footprint
  {
    h.footprint := (h.footprint + newlen - oldlen) % SPACE;
    if h.footprint > h.maxFootprint {
      h.maxFootprint := h.footprint;
    }
  }

  /** The words, the kernel's list and the footprint after the region has moved. */
  method Rewrite(h: Heap, p: int, cp: int, offset: int, psize: int, oldlen: int, newlen: int, m1: Memory)
      returns (q: int)
    modifies h`m, h`maps, h`footprint, h`maxFootprint
    ensures q == cp + offset && h.m == RemapMemory(m1, q, psize)
    ensures h.maps == old(h.maps) - {p - offset} + map[cp := newlen]
    ensures h.footprint == (old(h.footprint) + newlen - oldlen) % SPACE
    ensures h.maxFootprint == if old(h.maxFootprint) >= h.footprint then old(h.maxFootprint) else h.footprint
  {
    q := cp + offset;
    h.m := PutHead(PutHead(PutHead(m1, q, psize % SPACE), q + psize, WORD + 3), q + psize + WORD, 0);
    h.maps := h.maps - {p - offset} + map[cp := newlen];
    ResizeFootprint(h, oldlen, newlen);
  }

  /** A layout that still has p is in order only if its region is as before, with room for a chunk. */
  lemma StillHomed(T: Layout, segs: seq<Segment>, maps: Maps, maps0: Maps, footprint: int, peak: int, p: int, cp: int,
      newlen: int)
    requires p in T && T[p].Mapped? && maps == maps0 - {RegionStart(T, p)} + map[cp := newlen]
    requires Accounted(T, segs, maps, footprint, peak)
    ensures newlen - T[p].offset - 4 * WORD >= MIN_CHUNK
  {
    assert Look(0);
    assert Homed(T, maps, p);
  }

  /** The heap is in the new state. */
  method Adopt(h: Heap, ghost s: State, ghost s': State, p: int, q: int, psize: int, offset: int)
    requires Sound(s') && Moved(s, s', p, q) && q in s'.T && s'.T[q] == Mapped(psize, offset) && q > 0 &&
      s'.m == h.m && s'.segs == h.segs
    requires s'.o == h.View().o.(live := s'.o.live) && h.bins.Valid()
    requires Accounted(s'.T, h.segs, h.maps, h.footprint, h.maxFootprint)
    modifies h`T, h`live
    ensures Remapped(h, s, p, q, psize) && RegionStart(h.T, q) == q - offset
  {
    h.T, h.live := s'.T, s'.o.live;
    h.Is(s');
  }

  /** The words are written: there is a new state, or the heap is not in order. */
  method Conclude(h: Heap, ghost s: State, ghost maps: Maps, ghost footprint: int, ghost peak: int, p: int, cp: int,
      newlen: int, m1: Memory, nb: int, offset: int)
    requires Sound(s) && Accounted(s.T, s.segs, maps, footprint, peak) && p in s.o.live && p in s.T && s.T[p].Mapped?
    requires nb >= MIN_CHUNK && newlen == RemapSize(nb) && s.T[p].offset == offset >= 0 && h.bins.Valid()
    requires Unmapped(cp, newlen, s.segs, maps - {p - offset}) &&
      Copied(s.m, m1, p - offset, cp, Min(RegionSize(s.T, p), newlen))
    requires h.m == RemapMemory(m1, cp + offset, newlen - offset - 4 * WORD) &&
      h.maps == maps - {p - offset} + map[cp := newlen]
    requires h.View() == s.(m := h.m) && h.footprint == (footprint + newlen - RegionSize(s.T, p)) % SPACE
    requires h.maxFootprint == if peak >= h.footprint then peak else h.footprint
    modifies h`T, h`live
    ensures h.Valid() <==> RemapLegal(offset, nb)
    ensures h.Valid() ==>
      Remapped(h, s, p, cp + offset, newlen - offset - 4 * WORD) && RegionStart(h.T, cp + offset) == cp
  {
    if RemapLegal(offset, nb) {
      ghost var s' := RemappedState(s, maps, footprint, peak, p, cp, newlen, m1, nb);
      Adopt(h, s, s', p, cp + offset, newlen - offset - 4 * WORD, offset);
    } else {
      if h.Valid() { StillHomed(h.T, h.segs, h.maps, maps, h.footprint, h.maxFootprint, p, cp, newlen); }
    }
  }

  /** The new region, with the chunk in it: the heap is in order exactly if there is room for a chunk behind the
      offset. */
  method Settle(h: Heap, p: int, cp: int, oldlen: int, newlen: int, m1: Memory, nb: int) returns (q: int)
    requires h.Valid() && p in h.live && p in h.T && h.T[p].Mapped? && nb >= MIN_CHUNK && newlen == RemapSize(nb)
    requires Get(h.m, p) == h.T[p].offset >= 0 && h.T[p].size >= MIN_CHUNK && oldlen == RegionSize(h.T, p)
    requires Unmapped(cp, newlen, h.segs, h.maps - {RegionStart(h.T, p)})
    requires Copied(h.m, m1, RegionStart(h.T, p), cp, Min(oldlen, newlen))
    modifies h`m, h`T, h`live, h`maps, h`footprint, h`maxFootprint
    ensures q == cp + old(h.T[p].offset) && q > 0 && cp in h.maps && h.maps[cp] == newlen && h.segs == old(h.segs)
    ensures h.Valid() <==> RemapLegal(old(h.T[p].offset), nb)
    ensures h.Valid() ==>
      Remapped(h, old(h.View()), p, q, newlen - old(h.T[p].offset) - 4 * WORD) && RegionStart(h.T, q) == cp
  {
    var offset := Get(h.m, p);
    ghost var s, maps, footprint, peak := h.View(), h.maps, h.footprint, h.maxFootprint;
    q := Rewrite(h, p, cp, offset, newlen - offset - 4 * WORD, oldlen, newlen, m1);
    Conclude(h, s, maps, footprint, peak, p, cp, newlen, m1, nb, offset);
  }

  /** However one reads what Settle leaves, it is a heap with the chunk at q exactly if there is room for one. */
  lemma SettledHoused(h: Heap, q: int, cp: int, offset: int, nb: int)
    requires cp in h.maps && h.maps[cp] == RemapSize(nb) && q == cp + offset
    requires h.Valid() <==> RemapLegal(offset, nb)
    requires h.Valid() ==> q in h.T && h.T[q].Mapped? && RegionStart(h.T, q) == cp
    ensures Housed(h.m, h.segs, h.maps, q, cp) <==> RemapLegal(offset, nb)
  {
    if h.Valid() {
      assert LaidOut(h.m, h.segs, h.maps, h.View(), h.footprint, h.maxFootprint, q, cp);
    }
    if Housed(h.m, h.segs, h.maps, q, cp) { HousedFits(h.m, h.segs, h.maps, q, cp); }
  }

  /** If the kernel is asked to resize a directly mapped chunk, there is room for a chunk behind its offset. */
  ghost predicate Resizable(T: Layout, p: int, nb: int) {
    p in T && (T[p].Mapped? && nb >= 256 && !GoodAsIs(T[p].size, nb) ==> RemapLegal(T[p].offset, nb))
  }

  /** And for so many bytes of the user. */
  ghost predicate RoomBehind(T: Layout, p: int, nb: int, bytes: int) {
    Resizable(T, p, nb) && (T[p].Mapped? && nb >= 256 && !GoodAsIs(T[p].size, nb) ==> RemapRoom(T[p].offset, nb, bytes))
  }

  /** The user may go on with the chunk as it is. */
  lemma KeptAsIs(s: State, p: int)
    requires Sound(s) && p in s.o.live
    ensures p in s.T && Moved(s, s, p, p)
  {
    assert Look(0);
    NoZero(s);
    Unchanged(s);
    assert s.o.live - {p} + {p} == s.o.live;
  }

  /** mmap_resize; moved tells that the kernel has granted the change, refused that it has not, and then, or when the
      request is small, the answer is 0 */
  method MmapResize(h: Heap, p: int, nb: int, mayMove: bool) returns (q: int, ghost moved: bool, ghost refused: bool)
    requires h.Valid() && p in h.live && p in h.T && h.T[p].Mapped? && nb >= MIN_CHUNK
    modifies h`m, h`T, h`live, h`maps, h`footprint, h`maxFootprint
    ensures q >= 0 && (q == 0 ==> h.Valid() && !moved) && (!moved ==> h.View() == old(h.View()))
    ensures q == 0 <==> nb < 256 || refused
    ensures q == p && !moved <==> nb >= 256 && GoodAsIs(old(h.T[p].size), nb)
    ensures q != 0 && !moved ==>
      q == p && Remapped(h, old(h.View()), p, q, old(h.T[p].size)) && GoodAsIs(old(h.T[p].size), nb)
    ensures moved ==> nb >= 256 && !GoodAsIs(old(h.T[p].size), nb)
    ensures moved ==> (h.Valid() <==> RemapLegal(old(h.T[p].offset), nb))
    ensures moved ==> (Housed(h.m, h.segs, h.maps, q, q - old(h.T[p].offset)) <==> RemapLegal(old(h.T[p].offset), nb))
    ensures moved && h.Valid() ==> Remapped(h, old(h.View()), p, q, RemapSize(nb) - old(h.T[p].offset) - 4 * WORD)
  {
    ghost var s := h.View();
    UserHead(s, h.maps, h.footprint, h.maxFootprint, p);
    MappedBits(s, h.maps, h.footprint, h.maxFootprint, p);
    OffsetAligned(s, h.maps, h.footprint, h.maxFootprint, p);
    KeptAsIs(s, p);
    q, moved, refused := 0, false, false;
    if nb >= 256 {
      var oldsize := SizeBits(HeadOf(h.m, p));
      if oldsize >= nb + WORD && oldsize - nb <= 2 * GRAIN {
        q := p;
      } else {
        var offset := Get(h.m, p);
        var oldlen, newlen := oldsize + offset + 4 * WORD, RemapSize(nb);
        var cp, m1 := Mremap(h, p - offset, oldlen, newlen, mayMove);
        refused := cp == CMFAIL;
        if cp != CMFAIL {
          q := Settle(h, p, cp, oldlen, newlen, m1, nb);
          moved := true;
          SettledHoused(h, q, cp, offset, nb);
        }
      }
    }
  }

  /** The user's memory at p + 8 has moved to q + 8; of the n bytes asked for, those are kept that it had and now
      has. */
  ghost predicate Rehoused(h: Heap, s: State, p: int, q: int, n: int)
    reads h, h.bins, h.bins.small, h.bins.large
  {
    && h.Valid() && Preserved(s, h.View(), p) && p in s.o.live && p in s.T && h.live == s.o.live - {p} + {q}
    && q > 0 && q % ALIGN == 0 && q in h.T && (q == p || q !in s.o.live)
    && KeepsBytes(s, h.m, p, q, Min(PayloadEnd(h.T, q) - q - 2 * WORD, n))
  }

  /** And there is room for all n bytes. */
  ghost predicate Reallocated(h: Heap, s: State, p: int, q: int, n: int)
    reads h, h.bins, h.bins.small, h.bins.large
  {
    Rehoused(h, s, p, q, n) && PayloadEnd(h.T, q) >= q + 2 * WORD + n
  }

  ghost predicate KeepsBytes(s: State, m': Memory, p: int, q: int, n: int)
    requires p in s.T
  {
    forall k {:trigger SameWord(s.m, m', p, q, k)} :: 2 * WORD <= k < Min(PayloadEnd(s.T, p) - p, 2 * WORD + n) ==>
      SameWord(s.m, m', p, q, k)
  }

  lemma LiveAligned(h: Heap, q: int)
    requires h.Valid() && q in h.live
    ensures q > 0 && q % ALIGN == 0 && q in h.T
  {
    assert Look(0);
    CellAt(h.T, q);
  }

  lemma ResizedKeeps(h: Heap, s: State, p: int, nb: int, n: int)
    requires Resized(h, s, p, nb) && p in s.o.live && n + WORD <= nb
    ensures Reallocated(h, s, p, p, n)
  {
    LiveAligned(h, p);
    assert s.o.live - {p} + {p} == s.o.live;
    forall k {:trigger SameWord(s.m, h.m, p, p, k)} | 2 * WORD <= k < Min(PayloadEnd(s.T, p) - p, 2 * WORD + n)
      ensures SameWord(s.m, h.m, p, p, k)
    {
      assert Get(h.m, p + k) == Get(s.m, p + k);
    }
  }

  lemma RemappedKeeps(h: Heap, s: State, p: int, q: int, psize: int, n: int)
    requires Remapped(h, s, p, q, psize)
    ensures Rehoused(h, s, p, q, n) && PayloadEnd(h.T, q) == q + psize
  {
    LiveAligned(h, q);
    var room := Min(psize - 2 * WORD, n);
    forall k {:trigger SameWord(s.m, h.m, p, q, k)} | 2 * WORD <= k < Min(PayloadEnd(s.T, p) - p, 2 * WORD + room)
      ensures SameWord(s.m, h.m, p, q, k)
    {
    }
  }

  /** What realloc says of a chunk that the kernel has moved or resized. */
  ghost predicate MovedByKernel(h: Heap, s: State, p: int, q: int, nb: int, n: int)
    reads h, h.bins, h.bins.small, h.bins.large
    requires p in s.T && s.T[p].Mapped?
  {
    var offset := s.T[p].offset;
    && (h.Valid() <==> RemapLegal(offset, nb))
    && (Housed(h.m, h.segs, h.maps, q, q - offset) <==> RemapLegal(offset, nb))
    && (h.Valid() ==>
      && Rehoused(h, s, p, q, n)
      && (PayloadEnd(h.T, q) >= q + 2 * WORD + n <==> RemapRoom(offset, nb, n))
      && (PayloadEnd(h.T, q) >= q + nb + WORD <==> RemapFits(offset, nb)))
  }

  /** A chunk in a segment is hardly bigger than what was asked for. */
  ghost predicate Snug(h: Heap, p: int, nb: int)
    reads h
  {
    p in h.T && (h.T[p].Mapped? || (h.T[p].Chunk? && h.T[p].size < nb + MIN_CHUNK))
  }

  /** mmap_resize, as realloc sees it */
  method TryMapped(h: Heap, p: int, nb: int, mayMove: bool, ghost n: int)
      returns (q: int, ghost moved: bool, ghost refused: bool)
    requires h.Valid() && p in h.live && p in h.T && h.T[p].Mapped? && nb >= MIN_CHUNK && n + WORD <= nb
    modifies h`m, h`T, h`live, h`maps, h`footprint, h`maxFootprint
    ensures q >= 0 && (q == 0 ==> h.Valid() && h.View() == old(h.View()) && !moved)
    ensures q == 0 <==> nb < 256 || refused
    ensures q == p && !moved <==> nb >= 256 && GoodAsIs(old(h.T[p].size), nb)
    ensures q != 0 && !moved ==> q == p && Snug(h, p, nb)
    ensures q != 0 && !moved ==> Reallocated(h, old(h.View()), p, q, n) && h.View() == old(h.View())
    ensures moved ==> nb >= 256 && !GoodAsIs(old(h.T[p].size), nb) && MovedByKernel(h, old(h.View()), p, q, nb, n)
  {
    ghost var s := h.View();
    q, moved, refused := MmapResize(h, p, nb, mayMove);
    if q != 0 && h.Valid() {
      RemappedKeeps(h, s, p, q, h.T[q].size, n);
    }
  }

  /** The chunk can be left where it is: in a segment if there is room behind it, else if it is neither too small nor
      too big. */
  ghost predicate Stays(s: State, p: int, nb: int) {
    && p in s.T
    && (s.T[p].Chunk? ==> Growable(s, p, nb))
    && (s.T[p].Mapped? ==> nb >= 256 && GoodAsIs(s.T[p].size, nb))
    && !s.T[p].Foot? && !s.T[p].Fence?
  }

  /** What has changed when the chunk stays: its neighbours share with it in a segment, and else nothing has. */
  ghost predicate LeftThere(h: Heap, s: State, p: int, nb: int)
    reads h, h.bins, h.bins.small, h.bins.large
  {
    && p in s.T && h.segs == s.segs
    && (if s.T[p].Chunk? then h.View().o == Shared(s, p, nb) else h.View() == s)
  }

  /** try_realloc_chunk */
  method TryRealloc(h: Heap, p: int, nb: int, mayMove: bool, ghost n: int)
      returns (q: int, ghost moved: bool, ghost refused: bool)
    requires h.Valid() && p in h.live && nb >= MIN_CHUNK && nb % ALIGN == 0 && n + WORD <= nb
    modifies h, h.bins, h.bins.small, h.bins.large
    ensures q >= 0 && (q == 0 ==> h.Valid() && h.View() == old(h.View()) && !moved)
    ensures q == p && !moved <==> Stays(old(h.View()), p, nb)
    ensures p > 0 && p in old(h.T) && (old(h.T)[p].Mapped? || old(h.T)[p].Chunk?)
    ensures q == 0 && old(h.T)[p].Mapped? ==> nb < 256 || refused
    ensures q != 0 && !moved ==> q == p && Snug(h, p, nb)
    ensures q != 0 && !moved ==> Reallocated(h, old(h.View()), p, q, n) && LeftThere(h, old(h.View()), p, nb)
    ensures moved ==> p in old(h.T) && old(h.T)[p].Mapped? && nb >= 256 && !GoodAsIs(old(h.T)[p].size, nb)
    ensures moved ==> MovedByKernel(h, old(h.View()), p, q, nb, n)
  {
    ghost var s := h.View();
    UserHead(s, h.maps, h.footprint, h.maxFootprint, p);
    q, moved, refused := 0, false, false;
    if HeadOf(h.m, p) % 4 == 0 {
      q, moved, refused := TryMapped(h, p, nb, mayMove, n);
    } else {
      var ok := TryInPlace(h, p, nb);
      if ok {
        q := p;
        ResizedKeeps(h, s, p, nb, n);
      }
    }
  }

  /** chunksize(oldp) - overhead_for(oldp) */
  method Capacity(h: Heap, p: int) returns (oc: int)
    requires h.Valid() && p in h.live
    ensures p in h.T && oc == PayloadEnd(h.T, p) - p - 2 * WORD && oc >= 0
  {
    ghost var s := h.View();
    UserHead(s, h.maps, h.footprint, h.maxFootprint, p);
    AtLeast(s, h.maps, h.footprint, h.maxFootprint, p);
    if HeadOf(h.m, p) % 4 == 0 {
      MappedBits(s, h.maps, h.footprint, h.maxFootprint, p);
      oc := SizeBits(HeadOf(h.m, p)) - 2 * WORD;
    } else {
      oc := SizeBits(HeadOf(h.m, p)) - WORD;
    }
  }

  lemma AtLeast(s: State, maps: Maps, footprint: int, peak: int, p: int)
    requires Sound(s) && p in s.o.live && Accounted(s.T, s.segs, maps, footprint, peak)
    ensures p in s.T && PayloadEnd(s.T, p) >= p + 2 * WORD
  {
    assert Look(0);
    if s.T[p].Mapped? { OffsetAligned(s, maps, footprint, peak, p); }
  }

  /** The copy of n bytes into the new chunk. */
  method CopyOver(h: Heap, p: int, q: int, n: int, ghost s: State)
    requires h.Valid() && Preserved(s, h.View(), 0) && p in s.o.live && p in s.T && h.live == s.o.live + {q} &&
      q !in s.o.live
    requires Sound(s) && q in h.T && 0 <= n <= PayloadEnd(s.T, p) - p - 2 * WORD &&
      PayloadEnd(h.T, q) >= q + 2 * WORD + n
    modifies h`m
    ensures h.Valid() && Preserved(s, h.View(), 0)
    ensures forall k {:trigger SameWord(s.m, h.m, p, q, k)} :: 2 * WORD <= k < 2 * WORD + n ==>
      SameWord(s.m, h.m, p, q, k)
  {
    ghost var s1 := h.View();
    NoZero(s);
    assert Intact(s, s1, p);
    var m' := Copy(h.m, p + 2 * WORD, q + 2 * WORD, n);
    forall x | !InPayload(s1.T, q, x) ensures Get(m', x) == Get(s1.m, x) {
      assert CopiedAt(s1.m, m', p + 2 * WORD, q + 2 * WORD, n, x);
    }
    UserWrites(s1, m', q);
    h.m := m';
    h.Is(s1.(m := m'));
    OnlyOne(s, s1, h.View(), q);
    forall k {:trigger SameWord(s.m, m', p, q, k)} | 2 * WORD <= k < 2 * WORD + n ensures SameWord(s.m, m', p, q, k) {
      assert CopiedAt(s1.m, m', p + 2 * WORD, q + 2 * WORD, n, q + k);
      assert Get(s1.m, p + k) == Get(s.m, p + k);
    }
  }

  lemma OnlyOne(s: State, s1: State, s2: State, q: int)
    requires Preserved(s, s1, 0) && Preserved(s1, s2, q) && q !in s.o.live
    ensures Preserved(s, s2, 0)
  {
    forall c | c in s.o.live && c != 0 ensures Intact(s, s2, c) {
      assert Intact(s, s1, c) && Intact(s1, s2, c);
    }
  }

  /** The new chunk has the contents, and the old one is freed. */
  lemma MovedOver(h: Heap, s: State, s2: State, p: int, q: int, bytes: int, n: int)
    requires Sound(s) && TakenBack(h, s2, p) && Preserved(s, s2, 0) && p in s.o.live && p in s.T && q !in s.o.live &&
      s2.o.live == s.o.live + {q}
    requires q in s2.T && PayloadEnd(s2.T, q) >= q + 2 * WORD + bytes &&
      n == Min(PayloadEnd(s.T, p) - p - 2 * WORD, bytes)
    requires forall k {:trigger SameWord(s.m, s2.m, p, q, k)} :: 2 * WORD <= k < 2 * WORD + n ==>
      SameWord(s.m, s2.m, p, q, k)
    ensures Reallocated(h, s, p, q, bytes)
    ensures s2.T[q].Mapped? == h.T[q].Mapped? && PayloadEnd(s2.T, q) == PayloadEnd(h.T, q)
  {
    NoZero(s);
    LiveAligned(h, q);
    PreservedTrans(s, s2, h.View(), p, p);
    assert Intact(s2, h.View(), q);
    forall k {:trigger SameWord(s.m, h.m, p, q, k)} | 2 * WORD <= k < Min(PayloadEnd(s.T, p) - p, 2 * WORD + bytes)
      ensures SameWord(s.m, h.m, p, q, k)
    {
      assert SameWord(s.m, s2.m, p, q, k);
      assert Get(h.m, q + k) == Get(s2.m, q + k);
    }
  }

  /** The contents go to the new chunk, and the old one back. */
  method CopyAndFree(h: Heap, p: int, q: int, bytes: int, ghost s: State)
    requires Sound(s) && Given(h, s, q + 2 * WORD, bytes) && p in s.o.live && p in s.T && Intact(s, h.View(), p)
    requires p > 0 && p % ALIGN == 0 && 0 <= bytes
    modifies h, h.bins, h.bins.small, h.bins.large
    ensures Reallocated(h, s, p, q, bytes)
    ensures old(h.T)[q].Mapped? == h.T[q].Mapped? && PayloadEnd(old(h.T), q) == PayloadEnd(h.T, q)
  {
    var oc := Capacity(h, p);
    var n := if oc < bytes then oc else bytes;
    CopyOver(h, p, q, n, s);
    ghost var s2 := h.View();
    var _, _, _ := Free(h, p + 2 * WORD);
    MovedOver(h, s, s2, p, q, bytes, n);
  }

  /** dlrealloc when the chunk cannot be resized: a new chunk, the copy, and the old one freed */
  method MoveOver(h: Heap, oldmem: int, bytes: int) returns (mem: int, ghost kernel: Kernel)
    requires h.Valid() && 0 <= bytes < SPACE && oldmem - 2 * WORD in h.live
    modifies h, h.bins, h.bins.small, h.bins.large
    ensures mem != 0 ==> Reallocated(h, old(h.View()), oldmem - 2 * WORD, mem - 2 * WORD, bytes)
    ensures mem != 0 ==> mem != oldmem && Snug(h, mem - 2 * WORD, RequestSize(bytes))
    ensures mem == 0 ==> Refused(h, old(h.View())) && Exhausted(old(h.View()), bytes, kernel)
  {
    ghost var s := h.View();
    var p := oldmem - 2 * WORD;
    LiveAligned(h, p);
    mem, kernel := Malloc(h, bytes);
    if mem != 0 {
      NoZero(s);
      assert Intact(s, h.View(), p);
      CopyAndFree(h, p, mem - 2 * WORD, bytes, s);
    }
  }

  /** dlrealloc of a chunk to a size that can be */
  method TryOrMove(h: Heap, oldmem: int, bytes: int)
      returns (mem: int, ghost moved: bool, ghost unmoved: bool, ghost kernel: Kernel)
    requires h.Valid() && 0 < bytes < MAX_REQUEST && oldmem != 0 && oldmem - 2 * WORD in h.live
    modifies h, h.bins, h.bins.small, h.bins.large
    ensures var p := oldmem - 2 * WORD; p in old(h.T) && (old(h.T)[p].Mapped? || old(h.T)[p].Chunk?)
    ensures mem != 0 && !moved ==> Reallocated(h, old(h.View()), oldmem - 2 * WORD, mem - 2 * WORD, bytes)
    ensures moved ==> mem != 0 && old(h.T)[oldmem - 2 * WORD].Mapped?
    ensures moved ==> !GoodAsIs(old(h.T)[oldmem - 2 * WORD].size, RequestSize(bytes))
    ensures moved ==> MovedByKernel(h, old(h.View()), oldmem - 2 * WORD, mem - 2 * WORD, RequestSize(bytes), bytes)
    ensures mem == 0 ==> Refused(h, old(h.View())) && Exhausted(old(h.View()), bytes, kernel)
    ensures mem == oldmem && !moved <==> Stays(old(h.View()), oldmem - 2 * WORD, RequestSize(bytes))
    ensures mem == oldmem && !moved ==> LeftThere(h, old(h.View()), oldmem - 2 * WORD, RequestSize(bytes))
    ensures 256 <= RequestSize(bytes) && !moved && mem != oldmem ==> old(h.T)[oldmem - 2 * WORD].Chunk? || unmoved
    ensures mem != 0 && !moved ==> Snug(h, mem - 2 * WORD, RequestSize(bytes))
    ensures mem != 0 && Resizable(old(h.T), oldmem - 2 * WORD, RequestSize(bytes)) ==>
      Rehoused(h, old(h.View()), oldmem - 2 * WORD, mem - 2 * WORD, bytes)
    ensures mem != 0 && RoomBehind(old(h.T), oldmem - 2 * WORD, RequestSize(bytes), bytes) ==>
      Reallocated(h, old(h.View()), oldmem - 2 * WORD, mem - 2 * WORD, bytes)
  {
    kernel := Kernel(false, false, 0);
    var nb := RequestSize(bytes);
    RequestFits(bytes);
    var q;
    q, moved, unmoved := TryRealloc(h, oldmem - 2 * WORD, nb, true, bytes);
    if q != 0 {
      mem := q + 2 * WORD;
    } else {
      mem, kernel := MoveOver(h, oldmem, bytes);
    }
  }

  /** dlrealloc */
  method Realloc(h: Heap, oldmem: int, bytes: int)
      returns (mem: int, ghost moved: bool, ghost unmoved: bool, ghost kernel: Kernel)
    requires h.Valid() && 0 <= bytes < SPACE && (oldmem != 0 ==> oldmem - 2 * WORD in h.live)
    modifies h, h.bins, h.bins.small, h.bins.large
    ensures oldmem == 0 && mem != 0 ==> Given(h, old(h.View()), mem, bytes)
    ensures oldmem == 0 && mem != 0 ==>
      ServedBest(h, old(h.View()), mem - 2 * WORD, Wanted(bytes), old(h.maps), old(h.footprint), kernel)
    ensures oldmem != 0 && bytes == 0 ==> mem == 0 && TakenBack(h, old(h.View()), oldmem - 2 * WORD)
    ensures oldmem != 0 && bytes >= MAX_REQUEST ==> mem == 0
    ensures oldmem != 0 && mem != 0 && !moved ==>
      Reallocated(h, old(h.View()), oldmem - 2 * WORD, mem - 2 * WORD, bytes)
    ensures moved ==> oldmem != 0 && mem != 0 && oldmem - 2 * WORD in old(h.T) && old(h.T)[oldmem - 2 * WORD].Mapped?
    ensures moved ==> !GoodAsIs(old(h.T)[oldmem - 2 * WORD].size, RequestSize(bytes))
    ensures moved ==> MovedByKernel(h, old(h.View()), oldmem - 2 * WORD, mem - 2 * WORD, RequestSize(bytes), bytes)
    ensures mem == 0 && (oldmem == 0 || bytes > 0) ==> Refused(h, old(h.View()))
    ensures mem == 0 && (oldmem == 0 || 0 < bytes < MAX_REQUEST) ==> Exhausted(old(h.View()), bytes, kernel)
    ensures oldmem != 0 && 0 < bytes < MAX_REQUEST ==>
      (mem == oldmem && !moved <==> Stays(old(h.View()), oldmem - 2 * WORD, RequestSize(bytes)))
    ensures oldmem != 0 && 0 < bytes < MAX_REQUEST && mem == oldmem && !moved ==>
      LeftThere(h, old(h.View()), oldmem - 2 * WORD, RequestSize(bytes))
    ensures oldmem != 0 && 256 <= RequestSize(bytes) && 0 < bytes < MAX_REQUEST && !moved && mem != oldmem ==>
      oldmem - 2 * WORD in old(h.T) && (old(h.T)[oldmem - 2 * WORD].Chunk? || unmoved)
    ensures mem != 0 && !moved ==> Snug(h, mem - 2 * WORD, RequestSize(bytes))
    ensures oldmem != 0 && mem != 0 && Resizable(old(h.T), oldmem - 2 * WORD, RequestSize(bytes)) ==>
      Rehoused(h, old(h.View()), oldmem - 2 * WORD, mem - 2 * WORD, bytes)
    ensures oldmem != 0 && mem != 0 && RoomBehind(old(h.T), oldmem - 2 * WORD, RequestSize(bytes), bytes) ==>
      Reallocated(h, old(h.View()), oldmem - 2 * WORD, mem - 2 * WORD, bytes)
  {
    mem, moved, unmoved, kernel := 0, false, false, Kernel(false, false, 0);
    if oldmem == 0 {
      mem, kernel := Malloc(h, bytes);
    } else if bytes >= MAX_REQUEST {
      Unchanged(h.View());
    } else if bytes == 0 {
      var _, _, _ := Free(h, oldmem);
    } else {
      mem, moved, unmoved, kernel := TryOrMove(h, oldmem, bytes);
    }
  }
}
