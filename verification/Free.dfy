/** dlfree of malloc.c, and what gives memory back to the system: sys_trim and release_unused_segments. */
module Frees {
  import opened Tiling
  import opened Words
  import opened Ownership
  import opened Segments
  import opened Steps
  import opened Moves
  import opened Growing
  import opened Mapping
  import opened Regrouping
  import opened Regions
  import opened Heaps
  import opened Allocating
  import opened Freeing
  import opened SystemMemory
  import opened Prepending
  import opened Mallocs

  /** MUNMAP, which the kernel may refuse */
  method Munmap() returns (done: bool) {
    done := *;
  }

  /** Segment i starts with a free chunk that reaches what the top of a segment leaves at its end. */
  ghost predicate Releasable(T: Layout, segs: seq<Segment>, i: nat) {
    && 1 <= i < |segs|
    && var g := segs[i];
      g.base in T && T[g.base].Chunk? && !T[g.base].cinuse && g.base + T[g.base].size >= g.base + g.size - TOP_FOOT
  }

  /** None of the first n segments is. */
  ghost predicate NoneReleasable(T: Layout, segs: seq<Segment>, n: nat) {
    forall i :: 1 <= i < n ==> !Releasable(T, segs, i)
  }

  /** A segment that holds one free chunk and its record is not always one: its top may have had 8 bytes when it was
      left, and then the record starts 8 bytes too early. */
  lemma ReleasableWhen(s: State, i: nat)
    requires Sound(s) && 1 <= i < |s.segs| && Unused(s.T, s.segs, i, s.segs[i].base) && !s.T[s.segs[i].base].cinuse
    ensures var end := s.segs[i].base + s.segs[i].size; Releasable(s.T, s.segs, i) <==> s.segs[i].record == end - 40
    ensures !Releasable(s.T, s.segs, i) ==> s.segs[i].record == s.segs[i].base + s.segs[i].size - 48
  {
    assert Look(0);
    assert EndOk(s.T, s.segs[i], s.o.records) && Shape(s.segs[i]);
    CellAt(s.T, s.segs[i].record);
    RecordAligned(s.segs[i]);
  }

  lemma RecordAligned(g: Segment)
    requires Shape(g) && g.record % ALIGN == 0
    ensures (g.base + g.size - g.record) % ALIGN == 0
  {
    Eighth(g.base + g.size - g.record, 512 * (g.base / PAGE) + 8192 * (g.size / GRAIN) - g.record / ALIGN);
  }

  /** A free segment i, and what its guard reads. */
  lemma CoveredByFree(s: State, i: nat)
    requires Sound(s) && 1 <= i < |s.segs|
    ensures var p := s.segs[i].base;
      && p in s.T && s.T[p].Chunk? && p != s.o.top && s.o.top != 0 && p > 0
      && (HeadOf(s.m, p) % 4 == 1 <==> !s.T[p].cinuse) && SizeBits(HeadOf(s.m, p)) == s.T[p].size
      && (Releasable(s.T, s.segs, i) <==> !s.T[p].cinuse && p + s.T[p].size >= p + s.segs[i].size - TOP_FOOT)
      && (Releasable(s.T, s.segs, i) ==>
        Unused(s.T, s.segs, i, p) && s.T[p].pinuse && 256 <= s.T[p].size && FreeChunk(s, p, s.T[p].size))
  {
    assert Look(0);
    var p := s.segs[i].base;
    assert StartOk(s.T, s.segs[i]) && EndOk(s.T, s.segs[i], s.o.records) && Shape(s.segs[i]);
    CellAt(s.T, p);
    Unpack(s.T[p]);
    LowBitsOf(s.T[p]);
    TopHome(s);
    Tail(s);
    TopElsewhere(s);
    assert Held(s.T, s.o, p);
    LargeSize(s.segs[i].size);
  }

  /** Only the current segment can start with top. */
  lemma TopElsewhere(s: State)
    requires Consistent(s) && s.o.top != 0
    ensures forall i {:trigger s.segs[i]} :: 1 <= i < |s.segs| ==> s.segs[i].base != s.o.top
  {
    Tail(s);
    forall i | 1 <= i < |s.segs| ensures s.segs[i].base != s.o.top {
      assert Shape(s.segs[i]);
      assert Disjoint(s.segs[0].base, s.segs[0].size, s.segs[i].base, s.segs[i].size);
    }
  }

  lemma LowBitsOf(cell: Cell)
    requires cell.Chunk? && cell.size % ALIGN == 0
    ensures Pack(cell) % 4 == (if cell.cinuse then 2 else 0) + (if cell.pinuse then 1 else 0)
  {
    LowBits(cell.size / ALIGN, (if cell.cinuse then 2 else 0) + (if cell.pinuse then 1 else 0));
  }

  lemma LargeSize(n: int)
    requires n > 0 && n % GRAIN == 0
    ensures n >= GRAIN
  {
  }

  /** The state without segment i, and its accounts. */
  lemma FewerState(s: State, maps: Maps, footprint: int, peak: int, i: nat) returns (s': State)
    requires Sound(s) && Accounted(s.T, s.segs, maps, footprint, peak) && 1 <= i < |s.segs| && s.o.top != 0
    requires var p := s.segs[i].base;
      p in s.T && s.T[p].Chunk? && FreeChunk(s, p, s.T[p].size) && Unused(s.T, s.segs, i, p)
    ensures s'.m == s.m && s'.segs == Fewer(s.segs, i)
    ensures var o := Drop(s.o, s.segs[i].base); s'.o == o.(records := o.records - {s.segs[i].record})
    ensures Sound(s') && Preserved(s, s', 0) && s'.o.live == s.o.live
    ensures Accounted(s'.T, s'.segs, maps, footprint - s.segs[i].size, peak) && PartOf(s'.T, s.T)
  {
    var p := s.segs[i].base;
    var g := OpenFree(s, p, s.T[p].size);
    s' := DropSegment(g, s.o.top + s.o.topsize, i, p, s.segs[i].record);
    SoundShape(s);
    assert Shape(s.segs[i]);
    FewerAccounted(s.T, s'.T, s.segs, i, maps, footprint, peak);
    NoZero(s);
    Unchanged(s);
    forall c | c in s.o.live ensures Intact(s, s', c) { assert Intact(g, s', c); }
  }

  /** What the owners are without the free chunk at p. */
  lemma DropFree(s: State, p: int)
    requires Sound(s) && p in s.T && s.T[p].Chunk? && FreeChunk(s, p, s.T[p].size) && p > 0
    ensures p == s.o.dv ==> Drop(s.o, p) == s.o.(dv := 0, dvsize := 0) && s.o.dvsize == s.T[p].size && p !in s.o.binned
    ensures p != s.o.dv ==>
      p in s.o.binned && s.o.binned[p] == s.T[p].size && Drop(s.o, p) == s.o.(binned := s.o.binned - {p})
  {
    assert Look(0);
    OpenAt(s.T, s.o, p);
    if p == s.o.dv { DropVictim(s.T, s.o, p, p); } else { DropBinned(s.T, s.o, p, p, p); }
  }

  /** The chunk leaves dv or its tree. */
  method Withdraw(h: Heap, p: int, psize: int)
    requires h.bins.Valid() && (p != h.dv ==> p in h.bins.held && h.bins.held[p] == psize) && psize >= 0
    modifies h`dv, h`dvsize, h.bins, h.bins.small, h.bins.large
    ensures h.bins.Valid()
    ensures h.bins.held == if p == old(h.dv) then old(h.bins.held) else old(h.bins.held) - {p}
    ensures h.dv == (if p == old(h.dv) then 0 else old(h.dv)) &&
      h.dvsize == (if p == old(h.dv) then 0 else old(h.dvsize))
  {
    if p == h.dv {
      h.dv, h.dvsize := 0, 0;
    } else {
      h.bins.Unlink(p, psize);
    }
  }

  /** Segment i has gone from s, and released is its size; or all are there as they were, and released is 0. */
  ghost predicate Gone(h: Heap, s: State, footprint: int, i: nat, released: int)
    requires i < |s.segs|
    reads h
  {
    && released >= 0 && h.footprint == footprint - released && PartOf(h.T, s.T)
    && (if released > 0 then released == s.segs[i].size && h.segs == Fewer(s.segs, i)
      else h.segs == s.segs && h.T == s.T)
  }

  /** The segments before segment i stay what they are. */
  lemma StillNone(h: Heap, s: State, footprint: int, i: nat, released: int)
    requires 1 <= i < |s.segs| && Gone(h, s, footprint, i, released) && NoneReleasable(s.T, s.segs, i)
    ensures NoneReleasable(h.T, h.segs, i)
  {
    forall j | 1 <= j < i ensures !Releasable(h.T, h.segs, j) {
      assert !Releasable(s.T, s.segs, j);
    }
  }

  /** The segment at index i is given back, if it is unused and the kernel takes it. */
  method ReleaseSegment(h: Heap, i: nat) returns (released: int, ghost refused: bool)
    requires h.Valid() && 1 <= i < |h.segs|
    modifies h`segs, h`T, h`records, h`footprint, h`dv, h`dvsize, h.bins, h.bins.small, h.bins.large
    ensures Refused(h, old(h.View())) && Gone(h, old(h.View()), old(h.footprint), i, released)
    ensures released == 0 ==> refused || !Releasable(h.T, h.segs, i)
  {
    ghost var s := h.View();
    Unchanged(s);
    released, refused := 0, false;
    var p, size := h.segs[i].base, h.segs[i].size;
    CoveredByFree(s, i);
    var psize := SizeBits(HeadOf(h.m, p));
    if HeadOf(h.m, p) % 4 == 1 && p + psize >= p + size - TOP_FOOT {
      released := Release1(h, i, p, size, psize);
      refused := released == 0;
    }
  }

  method Release1(h: Heap, i: nat, p: int, size: int, psize: int) returns (released: int)
    requires h.Valid() && 1 <= i < |h.segs| && h.top != 0 && p == h.segs[i].base && size == h.segs[i].size
    requires p > 0 && p in h.T && h.T[p].Chunk? && h.T[p].size == psize >= 256 && FreeChunk(h.View(), p, psize) &&
      Unused(h.T, h.segs, i, p)
    modifies h`segs, h`T, h`records, h`footprint, h`dv, h`dvsize, h.bins, h.bins.small, h.bins.large
    ensures Refused(h, old(h.View())) && Gone(h, old(h.View()), old(h.footprint), i, released)
  {
    ghost var s := h.View();
    DropFree(s, p);
    ghost var s' := FewerState(s, h.maps, h.footprint, h.maxFootprint, i);
    SizePositive(s, i);
    Withdraw(h, p, psize);
    released := GiveBack(h, i, p, size, psize, s, s');
  }

  /** The kernel is asked to take the segment, whose chunk is in no bin; s is the state before, s' the one without
      the segment. */
  method GiveBack(h: Heap, i: nat, p: int, size: int, psize: int, ghost s: State, ghost s': State)
      returns (released: int)
    requires i < |h.segs| && size > 0 && s'.m == h.m && s'.segs == Fewer(h.segs, i) && s'.o.live == h.live &&
      s'.o.binned == h.bins.held
    requires s'.o.dv == h.dv && s'.o.dvsize == h.dvsize && s'.o.top == h.top && s'.o.topsize == h.topsize
    requires Sound(s') && Preserved(s, s', 0) && s'.o.live == s.o.live && h.bins.Valid()
    requires Accounted(s'.T, s'.segs, h.maps, h.footprint - size, h.maxFootprint)
    requires Sound(s) && p in s.T && s.T[p] == Chunk(psize, false, true) && FreeChunk(s, p, psize) && p > 0 &&
      psize >= 256
    requires h.m == s.m && h.T == s.T && h.segs == s.segs && h.top == s.o.top && h.topsize == s.o.topsize
    requires h.live == s.o.live && h.records == s.o.records && h.bins.held == s.o.binned - {p}
    requires if p == s.o.dv then h.dv == 0 && h.dvsize == 0 else h.dv == s.o.dv && h.dvsize == s.o.dvsize
    requires Accounted(s.T, h.segs, h.maps, h.footprint, h.maxFootprint) && PartOf(s'.T, s.T) && h.segs[i].size == size
    modifies h`segs, h`T, h`records, h`footprint, h.bins, h.bins.small, h.bins.large
    ensures Refused(h, s) && Gone(h, s, old(h.footprint), i, released)
  {
    var done := Munmap();
    if done {
      released := size;
      Forget(h, i, size, s');
    } else {
      released := 0;
      PutBack(h, s, p, psize);
    }
  }

  /** The record of segment i is unlinked. */
  method Forget(h: Heap, i: nat, size: int, ghost s': State)
    requires i < |h.segs| && s'.m == h.m && s'.segs == Fewer(h.segs, i)
    requires s'.o.binned == h.bins.held && s'.o.dv == h.dv && s'.o.dvsize == h.dvsize
    requires s'.o.top == h.top && s'.o.topsize == h.topsize && s'.o.live == h.live
    modifies h`segs, h`T, h`records, h`footprint
    ensures h.View() == s' && h.footprint == old(h.footprint) - size
  {
    h.footprint := h.footprint - size;
    h.segs := h.segs[..i] + h.segs[i + 1..];
    h.T, h.records := s'.T, s'.o.records;
    h.Is(s');
  }

  lemma SizePositive(s: State, i: nat)
    requires Sound(s) && i < |s.segs|
    ensures s.segs[i].size > 0
  {
    SoundShape(s);
    assert Shape(s.segs[i]);
  }

  /** The kernel has refused: the chunk goes to a tree. */
  method PutBack(h: Heap, ghost s: State, p: int, psize: int)
    requires Sound(s) && p in s.T && s.T[p] == Chunk(psize, false, true) && FreeChunk(s, p, psize) && p > 0 &&
      psize >= 256
    requires h.bins.Valid() && h.m == s.m && h.T == s.T && h.segs == s.segs && h.top == s.o.top &&
      h.topsize == s.o.topsize
    requires h.live == s.o.live && h.records == s.o.records && h.bins.held == s.o.binned - {p}
    requires if p == s.o.dv then h.dv == 0 && h.dvsize == 0 else h.dv == s.o.dv && h.dvsize == s.o.dvsize
    requires Accounted(s.T, h.segs, h.maps, h.footprint, h.maxFootprint)
    modifies h.bins, h.bins.small, h.bins.large
    ensures Refused(h, s)
  {
    DropFree(s, p);
    SizeFits(s, p);
    FreeIsFree(s, p, psize);
    h.bins.Insert(p, psize);
    if p == s.o.dv {
      RebinVictim(s);
      assert s.o.binned - {p} == s.o.binned;
      h.Is(s.(o := s.o.(binned := s.o.binned[p := psize], dv := 0, dvsize := 0)));
    } else {
      assert (s.o.binned - {p})[p := psize] == s.o.binned;
      h.Is(s);
    }
    NoZero(s);
    Unchanged(s);
    forall c | c in s.o.live ensures Intact(s, h.View(), c) { assert Intact(s, s, c); }
  }

  /** One more step that refuses nobody anything. */
  lemma StillRefused(h: Heap, s: State, g: State)
    requires Sound(s) && Preserved(s, g, 0) && g.o.live == s.o.live && Refused(h, g)
    ensures Refused(h, s)
  {
    NoZero(s);
    PreservedTrans(s, g, h.View(), 0, 0);
  }

  /** release_unused_segments */
  method ReleaseUnusedSegments(h: Heap) returns (released: int, ghost refused: bool)
    requires h.Valid()
    modifies h`segs, h`T, h`records, h`footprint, h`dv, h`dvsize, h`releaseChecks, h.bins, h.bins.small, h.bins.large
    ensures Refused(h, old(h.View())) && released == old(h.footprint) - h.footprint >= 0
    ensures refused || NoneReleasable(h.T, h.segs, |h.segs|)
    ensures h.releaseChecks == if |old(h.segs)| - 1 > MAX_RELEASE_CHECK_RATE then |old(h.segs)| - 1 else
      MAX_RELEASE_CHECK_RATE
  {
    ghost var s := h.View();
    Unchanged(s);
    released, refused := 0, false;
    var nsegs, i := 0, 1;
    while i < |h.segs|
      invariant Refused(h, s) && released == old(h.footprint) - h.footprint >= 0 && 1 <= i
      invariant nsegs + |h.segs| - i == |s.segs| - 1 && (i <= |h.segs| || nsegs == 0)
      invariant refused || NoneReleasable(h.T, h.segs, i)
      decreases |h.segs| - i
    {
      nsegs := nsegs + 1;
      ghost var g, footprint := h.View(), h.footprint;
      ghost var no;
      var size;
      size, no := ReleaseSegment(h, i);
      StillRefused(h, s, g);
      if !refused { StillNone(h, g, footprint, i, size); }
      refused := refused || no;
      if size > 0 {
        released := released + size;
      } else {
        i := i + 1;
      }
    }
    h.releaseChecks := if nsegs > MAX_RELEASE_CHECK_RATE then nsegs else MAX_RELEASE_CHECK_RATE;
  }

  /** has_segment_link: the entry of a later segment lies in g */
  predicate HasSegmentLink(segs: seq<Segment>, g: Segment) {
    exists i :: 1 <= i < |segs| && Holds(g, segs[i].record + 2 * WORD)
  }

  /** How much sys_trim takes off top: all whole units that leave pad bytes and more. */
  function Excess(topsize: int, pad: int): int
    requires topsize > pad
  {
    ((topsize - pad + GRAIN - 1) / GRAIN - 1) * GRAIN
  }

  lemma ExcessFits(topsize: int, pad: int)
    requires topsize > pad
    ensures var extra := Excess(topsize, pad); 0 <= extra < topsize - pad <= extra + GRAIN && extra % GRAIN == 0
  {
  }

  /** The end of the current segment moves back by extra bytes. */
  method Shrink(h: Heap, extra: int)
    requires h.Valid() && h.top != 0 && h.segs != [] && 0 < extra < h.topsize && extra % GRAIN == 0
    modifies h`m, h`top, h`topsize, h`trimCheck, h`segs, h`T, h`footprint
    ensures Refused(h, old(h.View())) && h.topsize == old(h.topsize) - extra && h.top == old(h.top)
    ensures h.footprint == old(h.footprint) - extra && h.trimCheck == TRIM_THRESHOLD
  {
    ghost var s := h.View();
    Opposite(extra);
    ghost var s' := MovedState(s, h.maps, h.footprint, h.maxFootprint, 0, -extra);
    h.segs := h.segs[0 := h.segs[0].(size := h.segs[0].size - extra)];
    h.footprint := h.footprint - extra;
    InitTop(h, h.top, h.topsize - extra);
    h.T := s'.T;
    h.Is(s');
  }

  lemma Opposite(x: int)
    requires x % GRAIN == 0
    ensures -x % GRAIN == 0
  {
  }

  /** The end of the current segment may go back: the segment is as large, and no later record lies in it. */
  predicate Trimmable(segs: seq<Segment>, extra: int)
    requires segs != []
  {
    segs[0].size >= extra && !HasSegmentLink(segs, segs[0])
  }

  /** sys_trim's first part: the kernel may take back the excess of top */
  method TrimTop(h: Heap, pad: int) returns (released: int, ghost refused: bool)
    requires h.Valid() && h.top != 0 && h.topsize > pad >= 0
    modifies h`m, h`top, h`topsize, h`trimCheck, h`segs, h`T, h`footprint
    ensures Refused(h, old(h.View())) && released >= 0 && h.topsize == old(h.topsize) - released > pad &&
      h.top == old(h.top)
    ensures released == 0 || released == Excess(old(h.topsize), pad)
    ensures h.footprint == old(h.footprint) - released
    ensures if released == 0 then h.View() == old(h.View()) && h.trimCheck == old(h.trimCheck) else
      h.trimCheck == TRIM_THRESHOLD
    ensures old(h.segs) != [] && (!refused && Trimmable(old(h.segs), Excess(old(h.topsize), pad)) ==>
      released == Excess(old(h.topsize), pad))
  {
    ghost var s := h.View();
    Unchanged(s);
    TopAligned(s);
    released, refused := 0, false;
    var extra := Excess(h.topsize, pad);
    ExcessFits(h.topsize, pad);
    assert Holds(h.segs[0], h.top);
    var i := SegmentHolding(h.segs, h.top);
    if h.segs[i].size >= extra && !HasSegmentLink(h.segs, h.segs[i]) {
      var done := Munmap();
      refused := !done;
      if done {
        released := extra;
      }
    }
    if released != 0 {
      Shrink(h, released);
    }
  }

  /** What is left of top once more than pad bytes of it have been given back: the source keeps at least one unit. */
  ghost predicate TopTrimmed(segs: seq<Segment>, topsize: int, pad: int, left: int, refused: bool)
  {
    if topsize <= pad then left == topsize
    else
      && segs != [] && (left == topsize || left == topsize - Excess(topsize, pad))
      && (!refused && Trimmable(segs, Excess(topsize, pad)) ==> left == topsize - Excess(topsize, pad))
  }

  /** sys_trim's two parts: top, then segments that are not used at all */
  method TrimAll(h: Heap, pad: int) returns (released: int, ghost refused: bool, ghost held: bool)
    requires h.Valid() && h.top != 0 && pad >= 0
    modifies h`m, h`top, h`topsize, h`trimCheck, h`segs, h`T, h`footprint, h`records, h`dv, h`dvsize, h`releaseChecks,
      h.bins, h.bins.small, h.bins.large
    ensures Refused(h, old(h.View())) && released == old(h.footprint) - h.footprint >= 0
    ensures TopTrimmed(old(h.segs), old(h.topsize), pad, h.topsize, refused)
    ensures h.topsize != old(h.topsize) ==> released > 0
    ensures held || NoneReleasable(h.T, h.segs, |h.segs|)
    ensures h.trimCheck == if h.topsize == old(h.topsize) then old(h.trimCheck) else TRIM_THRESHOLD
  {
    ghost var s := h.View();
    Unchanged(s);
    released, refused := 0, false;
    if h.topsize > pad {
      released, refused := TrimTop(h, pad);
    }
    ghost var g := h.View();
    var more;
    more, held := ReleaseUnusedSegments(h);
    StillRefused(h, s, g);
    released := released + more;
  }

  /**
    * What sys_trim leaves behind: unless the kernel has refused to take its end, top has no more than it has to, and
    * unless it has refused to take a segment, no segment that could go is there; if nothing went and top is large, it
    * is not tried again.
    */
  ghost predicate Trimmed(h: Heap, s: State, pad: int, trimCheck: int, trimmed: bool, refused: bool,
      held: bool)
    reads h
  {
    && TopTrimmed(s.segs, s.o.topsize, pad, h.topsize, refused)
    && (held || NoneReleasable(h.T, h.segs, |h.segs|))
    && h.trimCheck ==
      if h.topsize != s.o.topsize then TRIM_THRESHOLD
      else if !trimmed && s.o.topsize > trimCheck then MAX_SIZE
      else trimCheck
  }

  /** sys_trim */
  method SysTrim(h: Heap, pad0: int) returns (trimmed: bool, ghost refused: bool, ghost held: bool)
    requires h.Valid() && pad0 >= 0
    modifies h`m, h`top, h`topsize, h`trimCheck, h`segs, h`T, h`footprint, h`records, h`dv, h`dvsize, h`releaseChecks,
      h.bins, h.bins.small, h.bins.large
    ensures Refused(h, old(h.View())) && h.footprint <= old(h.footprint)
    ensures trimmed <==> h.footprint < old(h.footprint)
    ensures if pad0 < MAX_REQUEST && old(h.top) != 0 then
        Trimmed(h, old(h.View()), pad0 + TOP_FOOT, old(h.trimCheck), trimmed, refused, held)
      else !trimmed && h.View() == old(h.View()) && h.trimCheck == old(h.trimCheck)
  {
    ghost var s := h.View();
    Unchanged(s);
    var released := 0;
    refused, held := false, false;
    if pad0 < MAX_REQUEST && h.top != 0 {
      released, refused, held := TrimAll(h, pad0 + TOP_FOOT);
      if released == 0 && h.topsize > h.trimCheck {
        h.trimCheck := MAX_SIZE;
      }
    }
    trimmed := released != 0;
  }

  /** The user has given back the chunk at p, and only that. */
  ghost predicate TakenBack(h: Heap, s: State, p: int)
    reads h, h.bins, h.bins.small, h.bins.large
  {
    h.Valid() && Preserved(s, h.View(), p) && h.live == s.o.live - {p}
  }

  /** The head of a chunk of the user tells what it is. */
  lemma UserHead(s: State, maps: Maps, footprint: int, peak: int, p: int)
    requires Sound(s) && p in s.o.live && Accounted(s.T, s.segs, maps, footprint, peak)
    ensures p > 0 && p in s.T && (s.T[p].Mapped? || (s.T[p].Chunk? && s.T[p].cinuse))
    ensures HeadOf(s.m, p) % 4 == 0 <==> s.T[p].Mapped?
    ensures s.T[p].Mapped? ==> HeadOf(s.m, p) == s.T[p].size && Get(s.m, p) == s.T[p].offset
    ensures s.T[p].Chunk? ==> SizeBits(HeadOf(s.m, p)) == s.T[p].size
  {
    assert Look(0);
    CellAt(s.T, p);
    assert FootAt(s.m, s.T, p);
    if s.T[p].Chunk? {
      Unpack(s.T[p]);
      LowBitsOf(s.T[p]);
    } else {
      assert Homed(s.T, maps, p);
      FourInEight(s.T[p].size);
    }
  }

  lemma FourInEight(n: int)
    requires n % ALIGN == 0
    ensures n % 4 == 0
  {
  }

  /** The user's chunk at p and its region have gone, if the kernel took that; nothing else has changed. */
  ghost predicate RegionGone(h: Heap, s: State, p: int, maps: Maps, footprint: int, refused: bool)
    requires p in s.T && s.T[p].Mapped?
    reads h, h.bins, h.bins.small, h.bins.large
  {
    && h.View().o == s.o.(live := s.o.live - {p}) && h.m == s.m && h.segs == s.segs
    && (if refused then h.maps == maps && h.footprint == footprint
      else
        h.maps == maps - {p - s.T[p].offset} && h.footprint == footprint - (s.T[p].size + s.T[p].offset + 4 * WORD))
  }

  /** dlfree of a directly mapped chunk; the kernel may refuse to take the region */
  method FreeMapped(h: Heap, p: int) returns (ghost refused: bool)
    requires h.Valid() && p in h.live && p in h.T && h.T[p].Mapped?
    requires HeadOf(h.m, p) == h.T[p].size && Get(h.m, p) == h.T[p].offset && SizeBits(HeadOf(h.m, p)) == h.T[p].size
    modifies h`T, h`live, h`maps, h`footprint
    ensures TakenBack(h, old(h.View()), p)
    ensures RegionGone(h, old(h.View()), p, old(h.maps), old(h.footprint), refused)
  {
    ghost var s := h.View();
    var prevsize := Get(h.m, p);
    var psize := SizeBits(HeadOf(h.m, p)) + prevsize + 4 * WORD;
    ghost var s' := DropMap(s, p);
    UnmappedAccounted(s.T, p, h.segs, h.maps, h.footprint, h.maxFootprint);
    refused := GiveRegion(h, p - prevsize, psize, s'.T);
    h.T, h.live := s'.T, s'.o.live;
    h.Is(s');
  }

  /** The kernel is asked to take a region. */
  method GiveRegion(h: Heap, start: int, size: int, ghost T: Layout) returns (ghost refused: bool)
    requires Accounted(T, h.segs, h.maps, h.footprint, h.maxFootprint)
    requires Accounted(T, h.segs, h.maps - {start}, h.footprint - size, h.maxFootprint)
    modifies h`maps, h`footprint
    ensures Accounted(T, h.segs, h.maps, h.footprint, h.maxFootprint)
    ensures if refused then h.maps == old(h.maps) && h.footprint == old(h.footprint)
      else h.maps == old(h.maps) - {start} && h.footprint == old(h.footprint) - size
  {
    var done := Munmap();
    refused := !done;
    if done {
      h.footprint := h.footprint - size;
      h.maps := h.maps - {start};
    }
  }

  lemma BackFrom(h: Heap, s: State, g: State, p: int)
    requires Sound(s) && Preserved(s, g, p) && g.o.live == s.o.live - {p} && Refused(h, g)
    ensures TakenBack(h, s, p)
  {
    NoZero(s);
    PreservedTrans(s, g, h.View(), p, 0);
  }

  /** What is in h is g, as far as memory, owners and segments go. */
  ghost predicate Only(h: Heap, o: Owners, segs: seq<Segment>, footprint: int, trimCheck: int)
    reads h, h.bins, h.bins.small, h.bins.large
  {
    h.View().o == o && h.segs == segs && h.footprint == footprint && h.trimCheck == trimCheck
  }

  /** How many chunks of 256 bytes and more may go to the trees until the segments are looked at, after one more. */
  function CountedDown(checks: int): int {
    (checks - 1) % SPACE
  }

  /**
    * What the chunk at p and its free neighbours become, and what follows: a top beyond the threshold is trimmed, and
    * when the count of chunks that went to the trees has run down, the segments are looked at; nothing else happens.
    * s is the state before.
    */
  ghost predicate GivenBack(h: Heap, s: State, p: int, footprint: int, trimCheck: int, checks: int, trimmed: bool,
      refused: bool, held: bool)
    requires p in s.T && s.T[p].Chunk?
    reads h, h.bins, h.bins.small, h.bins.large
  {
    var o, a := Freed(s, p), SpaceStart(s, p);
    if a == o.top then
      if o.topsize <= trimCheck then Only(h, o, s.segs, footprint, trimCheck) && h.releaseChecks == checks
      else Trimmed(h, s.(o := o), TOP_FOOT, trimCheck, trimmed, refused, held) && (trimmed <==> h.footprint < footprint)
    else if a != o.dv && a in o.binned && o.binned[a] >= 256 then
      if CountedDown(checks) != 0 then
        Only(h, o, s.segs, footprint, trimCheck) && h.releaseChecks == CountedDown(checks)
      else
        (held || NoneReleasable(h.T, h.segs, |h.segs|)) && h.trimCheck == trimCheck
    else
      Only(h, o, s.segs, footprint, trimCheck) && h.releaseChecks == checks
  }

  /** Free space is top, dv or in a bin, only one of these. */
  lemma OnePlace(s: State, a: int)
    requires Sound(s) && a > 0
    ensures a == s.o.top ==> a != s.o.dv && a !in s.o.binned
    ensures a == s.o.dv ==> a !in s.o.binned
  {
    assert Look(0);
  }

  /** dlfree of a chunk in a segment: it is consolidated, and memory may go back to the system */
  method FreeInSegment(h: Heap, p: int, psize: int) returns (ghost trimmed: bool, ghost refused: bool, ghost held: bool)
    requires h.Valid() && p in h.live && p in h.T && h.T[p].Chunk? && h.T[p].size == psize
    modifies h, h.bins, h.bins.small, h.bins.large
    ensures TakenBack(h, old(h.View()), p)
    ensures GivenBack(h, old(h.View()), p, old(h.footprint), old(h.trimCheck), old(h.releaseChecks), trimmed, refused,
      held)
  {
    ghost var s := h.View();
    trimmed, refused, held := false, false, false;
    var place := Consolidate(h, p, psize);
    ghost var g := h.View();
    Unchanged(g);
    OnePlace(g, SpaceStart(s, p));
    match place {
      case Topmost(tsize) =>
        if tsize > h.trimCheck {
          trimmed, refused, held := SysTrim(h, 0);
        }
      case Victimized =>
      case Binned(size) =>
        if size >= 256 {
          h.releaseChecks := CountedDown(h.releaseChecks);
          if h.releaseChecks == 0 {
            var released;
            released, held := ReleaseUnusedSegments(h);
          }
        }
    }
    BackFrom(h, s, g, p);
  }

  /** dlfree */
  method Free(h: Heap, mem: int) returns (ghost trimmed: bool, ghost refused: bool, ghost held: bool)
    requires h.Valid() && (mem != 0 ==> mem - 2 * WORD in h.live)
    modifies h, h.bins, h.bins.small, h.bins.large
    ensures if mem == 0 then h.Valid() && h.View() == old(h.View()) else TakenBack(h, old(h.View()), mem - 2 * WORD)
    ensures var s, p := old(h.View()), mem - 2 * WORD;
      mem != 0 && p in s.T && s.T[p].Mapped? ==> RegionGone(h, s, p, old(h.maps), old(h.footprint), refused)
    ensures var s, p := old(h.View()), mem - 2 * WORD;
      mem != 0 && p in s.T && s.T[p].Chunk? ==>
        GivenBack(h, s, p, old(h.footprint), old(h.trimCheck), old(h.releaseChecks), trimmed, refused, held)
    ensures var T, p := old(h.T), mem - 2 * WORD; mem != 0 ==> p in T && (T[p].Mapped? || T[p].Chunk?)
  {
    trimmed, refused, held := false, false, false;
    if mem != 0 {
      var p := mem - 2 * WORD;
      UserHead(h.View(), h.maps, h.footprint, h.maxFootprint, p);
      if HeadOf(h.m, p) % 4 == 0 {
        MappedBits(h.View(), h.maps, h.footprint, h.maxFootprint, p);
        refused := FreeMapped(h, p);
      } else {
        trimmed, refused, held := FreeInSegment(h, p, SizeBits(HeadOf(h.m, p)));
      }
    }
  }

  lemma MappedBits(s: State, maps: Maps, footprint: int, peak: int, p: int)
    requires Accounted(s.T, s.segs, maps, footprint, peak) && p in s.T && s.T[p].Mapped?
    ensures SizeBits(s.T[p].size) == s.T[p].size
  {
    assert Look(0);
    assert Homed(s.T, maps, p);
  }
}
