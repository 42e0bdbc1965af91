/** Where mmap_resize of malloc.c fails: chunks that memalign has shifted in their regions. */
module ShiftedReallocs {
  import opened Tiling
  import opened Words
  import opened Segments
  import opened Regions
  import opened Heaps
  import opened SystemMemory
  import opened Mallocs
  import opened Resizing
  import opened Reallocs
  import opened Memaligns
  import opened Frees
  import opened Digits

  /** The size that malloc takes it for. */
  function AskedSize(bytes: int, alignment: int): int { RequestSize(Asked(bytes, alignment)) }

  /** Nothing in the heap serves the request, which is big enough to be mapped directly. */
  ghost predicate GoesToKernel(h: Heap, nb: int)
    reads h, h.bins, h.bins.small, h.bins.large
  {
    h.Valid() && nb >= MMAP_THRESHOLD && h.dvsize < nb && 0 < h.topsize <= nb && h.bins.held == map[]
  }

  /** internal_memalign in such a heap, from the kernel's answer mm on: mmap_alloc makes a chunk, which is then
      shifted. */
  method MemalignAt(h: Heap, alignment: int, ghost k: nat, bytes: int, mm: int, size: int) returns (mem: int)
    requires alignment == Pow2(k) && 4 <= k <= 31 && 0 <= bytes < MAX_REQUEST - alignment - 64
    requires GoesToKernel(h, AskedSize(bytes, alignment)) && size == RemapSize(AskedSize(bytes, alignment))
    requires size > AskedSize(bytes, alignment) && Unmapped(mm, size, h.segs, h.maps)
    modifies h`m, h`dv, h`dvsize, h`top, h`topsize, h`T, h`live, h`maps, h`footprint, h`maxFootprint, h.bins,
      h.bins.small, h.bins.large
    ensures Given(h, old(h.View()), mem, bytes) && Near(mm + 2 * WORD, mem, alignment) && Pow2(k) > 0 &&
      mem % Pow2(k) == 0
    ensures var p := mem - 2 * WORD;
      h.T[p] == Mapped(size - 4 * WORD - (p - mm), p - mm) && h.maps == old(h.maps)[mm := size]
  {
    ghost var s := h.View();
    var nb := RequestSize(bytes);
    WordPower(k);
    AskedFits(bytes, alignment);
    MapFor(h, Asked(bytes, alignment), mm, size);
    mem := AlignMem(h, mm + 2 * WORD, alignment, nb, k, s, bytes);
  }

  lemma AskedFits(bytes: int, alignment: int)
    requires 0 <= bytes < MAX_REQUEST - alignment - 64 && alignment > 0
    ensures var nb := RequestSize(bytes);
      && MIN_CHUNK <= nb && nb % ALIGN == 0 && bytes + WORD <= nb
      && Asked(bytes, alignment) == nb + alignment + MIN_CHUNK - WORD && 0 <= Asked(bytes, alignment) < MAX_REQUEST
  {
    RequestFits(bytes);
  }

  /** mmap_alloc with the kernel's answer mm */
  method MapFor(h: Heap, req: int, mm: int, size: int)
    requires h.Valid() && 0 <= req < MAX_REQUEST && size == RemapSize(RequestSize(req)) > RequestSize(req)
    requires Unmapped(mm, size, h.segs, h.maps)
    modifies h`m, h`T, h`live, h`maps, h`footprint, h`maxFootprint
    ensures Given(h, old(h.View()), mm + 2 * WORD, req)
    ensures h.T[mm] == Mapped(size - 4 * WORD, 0) && h.maps == old(h.maps)[mm := size]
  {
    ghost var s := h.View();
    RequestFits(req);
    var nb := RequestSize(req);
    PageRounded(nb, 6 * WORD + ALIGN - 1);
    var p := MapChunk(h, nb, mm, size);
    GivenBy(h, s, p, nb, req);
  }

  /** The sizes in the two runs below. */
  lemma Sizes()
    ensures AskedSize(270000, 8192) == 278216 && RemapSize(278216) == 278528 && RequestSize(300000) == 300008 &&
      RemapSize(300008) == 303104
    ensures AskedSize(300000, 16384) == 316408 && RemapSize(316408) == 319488 && RequestSize(1000) == 1008 &&
      RemapSize(1008) == 4096
  {
  }

  lemma Powers(k: nat, j: nat)
    requires k == 13 && j == 14
    ensures Pow2(k) == 8192 && Pow2(j) == 16384
  {
    Eight();
    assert Pow2(9) == 2 * Pow2(8) && Pow2(10) == 2 * Pow2(9) && Pow2(11) == 2 * Pow2(10) && Pow2(12) == 2 * Pow2(11);
    assert Pow2(k) == 2 * Pow2(12) && Pow2(j) == 2 * Pow2(13);
  }

  /** The spot is the first aligned one behind mm. */
  lemma SpotAt(mm: int, mem: int, alignment: int)
    requires (alignment == 8192 || alignment == 16384) && mm % alignment == 4096 && mem % alignment == 0 &&
      Near(mm + 2 * WORD, mem, alignment)
    ensures mem == mm + alignment - 4096
  {
    var a, b := mm / alignment, mem / alignment;
    assert mm == alignment * a + 4096 && mem == alignment * b;
    Between(alignment, b - a);
  }

  lemma Between(n: int, d: int)
    requires (n == 8192 || n == 16384) && 4096 + 2 * WORD <= n * d <= n + 4096 + 16
    ensures d == 1
  {
  }

  /** The kernel grants the new size for p at cp. */
  method Grant(h: Heap, p: int, nb: int, cp: int) returns (q: int)
    requires h.Valid() && p in h.live && p in h.T && h.T[p].Mapped? && nb >= 256 && !GoodAsIs(h.T[p].size, nb)
    requires Unmapped(cp, RemapSize(nb), h.segs, h.maps - {RegionStart(h.T, p)})
    modifies h`m, h`T, h`live, h`maps, h`footprint, h`maxFootprint
    ensures h.Valid() <==> RemapLegal(old(h.T[p].offset), nb)
    ensures Housed(h.m, h.segs, h.maps, q, cp) <==> RemapLegal(old(h.T[p].offset), nb)
    ensures h.Valid() ==> Remapped(h, old(h.View()), p, q, RemapSize(nb) - old(h.T[p].offset) - 4 * WORD)
  {
    UserHead(h.View(), h.maps, h.footprint, h.maxFootprint, p);
    MappedBits(h.View(), h.maps, h.footprint, h.maxFootprint, p);
    OffsetAligned(h.View(), h.maps, h.footprint, h.maxFootprint, p);
    var offset := Get(h.m, p);
    var oldlen, newlen := SizeBits(HeadOf(h.m, p)) + offset + 4 * WORD, RemapSize(nb);
    var m1 := Copy(h.m, p - offset, cp, Min(oldlen, newlen));
    q := Settle(h, p, cp, oldlen, newlen, m1, nb);
    SettledHoused(h, q, cp, offset, nb);
  }

  /** memalign(8192, 270000), then realloc to 300000: the heap stays in order, but the memory is too small for what
      was asked. */
  method TooSmall(h: Heap, mm: int, cp: int, ghost k: nat) returns (mem: int, q: int)
    requires k == 13 && GoesToKernel(h, AskedSize(270000, 8192)) && Unmapped(mm, 278528, h.segs, h.maps) &&
      mm % 8192 == 4096
    requires Unmapped(cp, 303104, h.segs, h.maps) && Disjoint(cp, 303104, mm, 278528)
    modifies h`m, h`dv, h`dvsize, h`top, h`topsize, h`T, h`live, h`maps, h`footprint, h`maxFootprint, h.bins,
      h.bins.small, h.bins.large
    ensures h.Valid() && q in h.live && q in h.T && PayloadEnd(h.T, q) - q - 2 * WORD == 298992 < 300000
  {
    Sizes();
    Powers(k, 14);
    mem := MemalignAt(h, 8192, k, 270000, mm, 278528);
    SpotAt(mm, mem, 8192);
    q := Grant(h, mem - 2 * WORD, RequestSize(300000), cp);
  }

  /** memalign(16384, 300000), then realloc to 1000 in place: no heap has the chunk that is handed out. */
  method OutOfOrder(h: Heap, mm: int, ghost k: nat) returns (mem: int, q: int)
    requires k == 14 && GoesToKernel(h, AskedSize(300000, 16384)) && Unmapped(mm, 319488, h.segs, h.maps) &&
      mm % 16384 == 4096
    modifies h`m, h`dv, h`dvsize, h`top, h`topsize, h`T, h`live, h`maps, h`footprint, h`maxFootprint, h.bins,
      h.bins.small, h.bins.large
    ensures !h.Valid() && !Housed(h.m, h.segs, h.maps, q, mm)
  {
    Sizes();
    Powers(13, k);
    mem := MemalignAt(h, 16384, k, 300000, mm, 319488);
    SpotAt(mm, mem, 16384);
    q := Grant(h, mem - 2 * WORD, RequestSize(1000), mm);
  }
}
