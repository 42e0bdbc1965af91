/** sys_alloc of malloc.c: memory from the system for a request the heap cannot serve. */
module SystemAllocation {
  import opened Tiling
  import opened Words
  import opened Ownership
  import opened Segments
  import opened Steps
  import opened Moves
  import opened Regions
  import opened Heaps
  import opened Allocating
  import opened SystemMemory
  import opened Prepending
  import opened Growing
  import opened Regrouping
  import opened Sealing

  /** The segment's entry and the footprint. */
  method ExtendTo(h: Heap, i: nat, tbase: int, tsize: int) returns (ghost g: State)
    requires h.Valid() && h.top != 0 && i < |h.segs| && Unmapped(tbase, tsize, h.segs, h.maps) && tsize % GRAIN == 0
    requires tbase + tsize == h.segs[i].base
    modifies h`segs, h`footprint, h`maxFootprint
    ensures Front(g, g, h.top + h.topsize, tbase, tbase + tsize) && g.T[tbase + tsize].Chunk? &&
      g.T[tbase] == Chunk(tsize, true, true)
    ensures g.o == Owners(h.bins.held, h.dv, h.dvsize, h.top, h.topsize, h.live, h.records) && g.segs == h.segs
    ensures g.m == PutHead(h.m, tbase, tsize + 3) && Preserved(old(h.View()), g, 0) && tbase !in h.live
    ensures g.T == old(h.T)[tbase := Chunk(tsize, true, true)]
    ensures h.segs == Extended(old(h.segs), i, tbase, tsize) && h.footprint == old(h.footprint) + tsize
    ensures Accounted(g.T, h.segs, h.maps, h.footprint, h.maxFootprint)
  {
    g := ExtendedState(h.View(), h.maps, h.footprint, h.maxFootprint, i, tbase, tsize);
    AddFootprint(h, tsize);
    h.segs := h.segs[i := Segment(tbase, h.segs[i].size + tsize, h.segs[i].record)];
  }

  lemma SameFirst(T: Layout, T': Layout, o: Owners, p: int, n: int, nb: int)
    requires T' == T[p := Chunk(n, true, true)] && n != 0
    ensures Prepended(T', o, p, n, nb) == Prepended(T, o, p, n, nb)
  {
  }

  /** sys_alloc extends segment i to the front, and the request is served from there. */
  method Prepend(h: Heap, i: nat, tbase: int, tsize: int, nb: int) returns (p: int)
    requires h.Valid() && h.top != 0 && i < |h.segs| && Unmapped(tbase, tsize, h.segs, h.maps) && tsize % GRAIN == 0
    requires tbase + tsize == h.segs[i].base && MIN_CHUNK <= nb && nb % ALIGN == 0 && tsize - nb >= MIN_CHUNK
    modifies h`m, h`top, h`topsize, h`dv, h`dvsize, h`segs, h`T, h`live, h`footprint, h`maxFootprint, h.bins,
      h.bins.small, h.bins.large
    ensures p == tbase != 0 && Served(h, old(h.View()), p, nb)
    ensures h.View().o == Prepended(old(h.T), old(h.View()).o, p, tsize, nb)
    ensures h.segs == Extended(old(h.segs), i, tbase, tsize) && h.footprint == old(h.footprint) + tsize
  {
    ghost var s := h.View();
    ghost var foot := h.top + h.topsize;
    ghost var g := ExtendTo(h, i, tbase, tsize);
    p := tbase;
    PrependAlloc(h, p, tsize, nb, g, foot);
    SameFirst(s.T, g.T, s.o, p, tsize, nb);
    ServedAfter(h, s, g, p, nb);
  }

  /** The segment that ends where the new memory starts, if any. */
  method EndingAt(segs: seq<Segment>, addr: int) returns (i: nat)
    ensures i <= |segs| && (i < |segs| ==> segs[i].base + segs[i].size == addr)
    ensures forall j :: 0 <= j < i ==> segs[j].base + segs[j].size != addr
  {
    i := 0;
    while i < |segs| && segs[i].base + segs[i].size != addr
      invariant i <= |segs| && forall j :: 0 <= j < i ==> segs[j].base + segs[j].size != addr
    {
      i := i + 1;
    }
  }

  /** The segment that starts where the new memory ends, if any. */
  method StartingAt(segs: seq<Segment>, addr: int) returns (i: nat)
    ensures i <= |segs| && (i < |segs| ==> segs[i].base == addr)
    ensures forall j :: 0 <= j < i ==> segs[j].base != addr
  {
    i := 0;
    while i < |segs| && segs[i].base != addr
      invariant i <= |segs| && forall j :: 0 <= j < i ==> segs[j].base != addr
    {
      i := i + 1;
    }
  }

  /** New memory at the end of the current segment joins it. */
  predicate AtEnd(segs: seq<Segment>, tbase: int) {
    segs != [] && tbase == segs[0].base + segs[0].size
  }

  /** New memory in front of segment i joins that. */
  predicate InFront(segs: seq<Segment>, tbase: int, tsize: int, i: nat) {
    i < |segs| && tbase + tsize == segs[i].base
  }

  /** The segments once new memory is one of them, or the end or the front of one. */
  ghost predicate Grown(segs: seq<Segment>, segs': seq<Segment>, o: Owners, tbase: int, tsize: int) {
    if o.top == 0 then segs' == [Segment(tbase, tsize, 0)]
    else if AtEnd(segs, tbase) then segs' == Moved(segs, tsize)
    else if exists i :: InFront(segs, tbase, tsize, i) then
      exists i :: InFront(segs, tbase, tsize, i) && segs' == Extended(segs, i, tbase, tsize)
    else segs != [] && segs' == [Segment(tbase, tsize, 0)] + Recorded(segs, RecordPlace(o.top, o.topsize))
  }

  /** Who owns what once new memory is the end of top, or is all of top; what it is put in front of is another case. */
  ghost function Topped(segs: seq<Segment>, o: Owners, tbase: int, tsize: int): Owners {
    if o.top == 0 then o.(top := tbase, topsize := tsize - TOP_FOOT)
    else if AtEnd(segs, tbase) then o.(topsize := o.topsize + tsize)
    else SealedOff(o, tbase, tsize)
  }

  /** The new memory joins the heap; a request may have been served from it already. */
  method Join(h: Heap, tbase: int, tsize: int, nb: int) returns (p: int)
    requires h.Valid() && Unmapped(tbase, tsize, h.segs, h.maps) && tsize % GRAIN == 0
    requires MIN_CHUNK <= nb && nb % ALIGN == 0 && tsize >= nb + TOP_FOOT + ALIGN
    modifies h, h.bins, h.bins.small, h.bins.large
    ensures if p != 0 then Served(h, old(h.View()), p, nb) else Refused(h, old(h.View())) && nb < h.topsize
    ensures Grown(old(h.segs), h.segs, old(h.View()).o, tbase, tsize) && h.footprint == old(h.footprint) + tsize
    ensures p != 0 <==>
      old(h.top) != 0 && !AtEnd(old(h.segs), tbase) && exists i :: InFront(old(h.segs), tbase, tsize, i)
    ensures p != 0 ==> p == tbase && h.View().o == Prepended(old(h.T), old(h.View()).o, p, tsize, nb)
    ensures p == 0 ==> h.View().o == Topped(old(h.segs), old(h.View()).o, tbase, tsize)
    ensures h.maps == old(h.maps)
  {
    ghost var s := h.View();
    p := 0;
    if h.top == 0 {
      FirstSegment(h, tbase, tsize);
    } else {
      TopAligned(s);
      var i := EndingAt(h.segs, tbase);
      if i < |h.segs| && Holds(h.segs[i], h.top) {
        TopFirst(s, i);
        Append(h, tbase, tsize);
      } else {
        assert !AtEnd(s.segs, tbase);
        i := StartingAt(h.segs, tbase + tsize);
        if i < |h.segs| {
          assert InFront(s.segs, tbase, tsize, i);
          p := Prepend(h, i, tbase, tsize, nb);
        } else {
          assert forall j :: !InFront(s.segs, tbase, tsize, j);
          AddSegment(h, tbase, tsize);
        }
      }
    }
  }

  /** The front of the new or extended top. */
  method TakeTop(h: Heap, nb: int, ghost s: State) returns (p: int)
    requires Refused(h, s) && MIN_CHUNK <= nb < h.topsize && nb % ALIGN == 0
    modifies h`m, h`T, h`live, h`top, h`topsize
    ensures p != 0 && Served(h, s, p, nb)
    ensures p == old(h.top) && p !in old(h.bins.held) && p != old(h.dv) && h.View().o == Cut(old(h.View()).o, p, nb)
  {
    ghost var g := h.View();
    p := UseTop(h, nb);
    ServedAfter(h, s, g, p, nb);
  }

  /** The size of new memory for nb bytes: not above nb if that does not exist. */
  function SegmentSize(nb: int): int { GrainAlign((nb + TOP_FOOT + ALIGN) % SPACE) }

  /** A request whose segment would be larger than the address space. */
  predicate Unrepresentable(nb: int) {
    SegmentSize(nb) <= nb
  }

  /** What the kernel did: whether it refused a region, or memory for a segment, and where that is. */
  datatype Kernel = Kernel(noRegion: bool, refused: bool, tbase: int)

  /** Large requests get a region of their own, but not the first one. */
  predicate Direct(nb: int, topsize: int) {
    nb >= MMAP_THRESHOLD && topsize != 0 && MapSize(nb) > nb
  }

  /** The chunk at p has been cut from the front of new memory, or from top with new memory at its end. */
  ghost predicate FromSegment(s: State, s': State, p: int, nb: int, tbase: int) {
    var n := SegmentSize(nb);
    && Grown(s.segs, s'.segs, s.o, tbase, n)
    && if s.o.top != 0 && !AtEnd(s.segs, tbase) && exists i :: InFront(s.segs, tbase, n, i) then
        p == tbase && s'.o == Prepended(s.T, s.o, p, n, nb)
      else
        var o := Topped(s.segs, s.o, tbase, n);
        p == o.top && s'.o == Cut(o, p, nb)
  }

  /** How the system has served a request; maps and footprint are those before. */
  ghost predicate FromSystem(h: Heap, s: State, p: int, nb: int, maps: Maps, footprint: int, k: Kernel)
    reads h, h.bins, h.bins.small, h.bins.large
  {
    if Direct(nb, s.o.topsize) && !k.noRegion then OwnRegion(h, s, p, nb, maps, footprint)
    else
      FromSegment(s, h.View(), p, nb, k.tbase) && h.maps == maps && h.footprint == footprint + SegmentSize(nb)
  }

  /** Memory for a segment. */
  method MoreMemory(h: Heap, nb: int) returns (p: int, ghost k: Kernel)
    requires h.Valid() && Padded(nb)
    modifies h, h.bins, h.bins.small, h.bins.large
    ensures if p != 0 then Served(h, old(h.View()), p, nb)
      else Refused(h, old(h.View())) && (k.refused || Unrepresentable(nb))
    ensures p == 0 ==> Nothing(h, old(h.View()), old(h.maps), old(h.footprint))
    ensures p != 0 ==> nb != MAX_SIZE && FromSegment(old(h.View()), h.View(), p, nb, k.tbase)
    ensures p != 0 ==> h.maps == old(h.maps) && h.footprint == old(h.footprint) + SegmentSize(nb)
  {
    ghost var s := h.View();
    k := Kernel(false, false, 0);
    Unchanged(s);
    var asize := SegmentSize(nb);
    GrainRounded(nb, TOP_FOOT + ALIGN);
    p := 0;
    if asize <= nb {
      return;
    }
    var tbase := Mmap(h, asize);
    k := Kernel(false, tbase == CMFAIL, tbase);
    if tbase != CMFAIL {
      p := Join(h, tbase, asize, nb);
      if p == 0 {
        p := TakeTop(h, nb, s);
      }
    }
  }

  /** Nothing has happened. */
  ghost predicate Nothing(h: Heap, s: State, maps: Maps, footprint: int)
    reads h, h.bins, h.bins.small, h.bins.large
  {
    h.View() == s && h.maps == maps && h.footprint == footprint
  }

  /** sys_alloc; it fails only when the kernel has refused, or the size cannot be represented */
  method SysAlloc(h: Heap, nb: int) returns (p: int, ghost k: Kernel)
    requires h.Valid() && Padded(nb)
    modifies h, h.bins, h.bins.small, h.bins.large
    ensures if p != 0 then Served(h, old(h.View()), p, nb)
      else Refused(h, old(h.View())) && (k.refused || Unrepresentable(nb))
    ensures p == 0 ==> Nothing(h, old(h.View()), old(h.maps), old(h.footprint))
    ensures p == 0 && Direct(nb, old(h.topsize)) ==> k.noRegion
    ensures p != 0 ==> nb != MAX_SIZE && FromSystem(h, old(h.View()), p, nb, old(h.maps), old(h.footprint), k)
  {
    ghost var noRegion := false;
    if nb >= MMAP_THRESHOLD && h.topsize != 0 {
      p, noRegion := MmapAlloc(h, nb);
      if p != 0 {
        k := Kernel(false, false, 0);
        return;
      }
    }
    p, k := MoreMemory(h, nb);
    k := k.(noRegion := noRegion);
  }
}
