/** Directly mapped chunks of malloc.c come and go; each has a region to itself. */
module Mapping {
  import opened Tiling
  import opened Words
  import opened Ownership
  import opened Segments
  import opened Steps
  import opened Moves
  import opened Swapping
  import opened Growing

  /** The cells and the state with one directly mapped chunk more. */
  ghost predicate Mapping(s: State, s': State, c: int, size: int, offset: int) {
    && c !in s.T && s'.T == s.T[c := Mapped(size, offset)] && s'.segs == s.segs && s'.o == s.o.(live := s.o.live + {c})
  }

  /** The words of a directly mapped chunk, and what it may write besides. */
  ghost predicate MapWords(m: Memory, m': Memory, c: int, size: int, offset: int, base: int, len: int) {
    WritesIn(m, m', base, base + len) && Get(m', c) == offset && HeadOf(m', c) == size
  }

  /** A chunk in its own region: offset bytes in front of it, and the mapping's foot behind it. */
  predicate InRegion(c: int, size: int, offset: int, base: int, len: int) {
    base + offset == c && offset >= 0 && offset % ALIGN == 0 && size > 0 && len == offset + size + 4 * WORD
  }

  lemma MapTiled(T: Layout, T': Layout, c: int, size: int, offset: int, b: int)
    requires Tiled(T) && T' == T[c := Mapped(size, offset)] && c > 0 && c % ALIGN == 0 && size > 0 && offset >= 0
    requires c !in T && b == c + size + 4 * WORD
    requires forall d {:trigger T[d]} :: d in T ==> d + Extent(T[d]) <= c || b <= d
    ensures Tiled(T')
  {
    forall d | d in T' ensures CellOk(T', d) {
      if d != c {
        CellAt(T, d);
        assert T[d] == T'[d];
        if T[d].Chunk? && !T[d].pinuse {
          var e :| EndsAt(T, e, d);
          assert EndsAt(T', e, d);
        }
      } else {
        forall e | e in T' ensures !(c < e < b) {
          if e != c { assert T[e] == T'[e]; CellAt(T, e); }
        }
      }
    }
  }

  lemma MapWritten(m: Memory, m': Memory, T: Layout, T': Layout, c: int, size: int, offset: int, base: int, len: int)
    requires Tiled(T) && Written(m, T) && T' == T[c := Mapped(size, offset)] && c !in T
    requires InRegion(c, size, offset, base, len) && MapWords(m, m', c, size, offset, base, len) && base % ALIGN == 0
    requires forall d {:trigger T[d]} :: d in T ==>
      (d + Extent(T[d]) <= base || base + len <= d) && (T[d].Chunk? ==> d + T[d].size != base)
    ensures Written(m', T')
  {
    forall d | d in T' ensures HeadOf(m', d) == Pack(T'[d]) && FootAt(m', T', d) {
      if d != c {
        CellAt(T, d);
        assert T[d] == T'[d];
        assert HeadOf(m, d) == Pack(T[d]) && FootAt(m, T, d);
        if d < base { Before(d, base); }
        if T[d].Chunk? { assert d + T[d].size in T; }
      }
    }
  }

  lemma MapOwned(s: State, s': State, c: int, size: int, offset: int)
    requires Owned(s.T, s.o) && Mapping(s, s', c, size, offset)
    ensures Owned(s'.T, s'.o)
  {
    forall d | d in s'.T ensures Held(s'.T, s'.o, d) {
      if d != c { assert Held(s.T, s.o, d); }
    }
  }

  lemma MapSegments(s: State, s': State, c: int, size: int, offset: int)
    requires Consistent(s) && Mapping(s, s', c, size, offset)
    requires Vacant(s.T, s.segs, c - offset, offset + size + 4 * WORD)
    ensures SegmentsOk(s'.T, s'.segs, s'.o.records, s'.o.top + s'.o.topsize)
  {
    var T, T' := s.T, s'.T;
    forall d | d in T' ensures Placed(T', s.segs, d) {
      if d != c { assert Placed(T, s.segs, d); }
    }
    forall d, i | d in T' && T'[d].Mapped? && 0 <= i < |s.segs| ensures MapApart(T', d, s.segs[i]) {
      if d != c { assert MapApart(T, d, s.segs[i]); }
    }
    forall i | 0 <= i < |s.segs| ensures StartOk(T', s.segs[i]) { assert StartOk(T, s.segs[i]); }
    forall i | 1 <= i < |s.segs| ensures EndOk(T', s.segs[i], s.o.records) { assert EndOk(T, s.segs[i], s.o.records); }
    forall f | f in T' ensures FenceOk(T', f, s.o.records) {
      if f != c { assert FenceOk(T, f, s.o.records); }
    }
    forall f | f in T' && T'[f].Foot? ensures f == s.o.top + s.o.topsize { assert T[f].Foot?; }
  }

  /** A vacant region gets one chunk. */
  lemma AddMap(s: State, m': Memory, c: int, size: int, offset: int, base: int, len: int) returns (s': State)
    requires Sound(s) && InRegion(c, size, offset, base, len) && MapWords(s.m, m', c, size, offset, base, len)
    requires Vacant(s.T, s.segs, base, len)
    ensures s'.m == m' && Mapping(s, s', c, size, offset)
    ensures Sound(s') && Preserved(s, s', 0) && c !in s.o.live
  {
    assert Look(0);
    var T' := s.T[c := Mapped(size, offset)];
    s' := State(m', T', s.o.(live := s.o.live + {c}), s.segs);
    PageStart(base);
    AlignedEnd(base, offset);
    forall d | d in s.T
      ensures d != c && (d + Extent(s.T[d]) <= base || base + len <= d) && (s.T[d].Chunk? ==> d + s.T[d].size != base)
    {
      Clearance(s.T, s.segs, base, len, d);
    }
    MapTiled(s.T, T', c, size, offset, base + len);
    MapWritten(s.m, m', s.T, T', c, size, offset, base, len);
    MapOwned(s, s', c, size, offset);
    MapSegments(s, s', c, size, offset);
    forall d | d in s.o.live ensures Intact(s, s', d) { MapIntact(s, s', base, len, d); }
  }

  lemma PageStart(base: int)
    requires base % PAGE == 0
    ensures base % ALIGN == 0
  {
    Eighth(base, 512 * (base / PAGE));
  }

  lemma MapIntact(s: State, s': State, base: int, len: int, d: int)
    requires Tiled(s.T) && WritesIn(s.m, s'.m, base, base + len) && base % ALIGN == 0 && len >= 0
    requires d in s.T && d in s'.T && s'.T[d] == s.T[d] && d in s'.o.live
    requires (d + Extent(s.T[d]) <= base || base + len <= d) && (s.T[d].Chunk? ==> d + s.T[d].size != base)
    ensures Intact(s, s', d)
  {
    CellAt(s.T, d);
    if s.T[d].Chunk? && d < base {
      AlignedEnd(d, s.T[d].size);
      Before(d + s.T[d].size, base);
    }
  }

  lemma DropMapTiled(T: Layout, c: int)
    requires Tiled(T) && c in T && T[c].Mapped?
    ensures Tiled(T - {c})
  {
    var T' := T - {c};
    forall d | d in T' ensures CellOk(T', d) {
      CellAt(T, d);
      if T[d].Chunk? && !T[d].pinuse {
        var e :| EndsAt(T, e, d);
        assert EndsAt(T', e, d);
      }
    }
  }

  lemma DropMapCells(s: State, s': State, c: int)
    requires Consistent(s) && c in s.T && s.T[c].Mapped?
    requires s'.m == s.m && s'.T == s.T - {c} && s'.segs == s.segs && s'.o == s.o.(live := s.o.live - {c})
    ensures Written(s'.m, s'.T) && Owned(s'.T, s'.o) && AllPlaced(s'.T, s'.segs)
  {
    forall d | d in s'.T ensures FootAt(s.m, s'.T, d) && Held(s'.T, s'.o, d) && Placed(s'.T, s.segs, d) {
      assert FootAt(s.m, s.T, d) && Held(s.T, s.o, d) && Placed(s.T, s.segs, d);
    }
  }

  /** A directly mapped chunk is gone. */
  lemma DropMap(s: State, c: int) returns (s': State)
    requires Sound(s) && c in s.o.live && c in s.T && s.T[c].Mapped?
    ensures s'.m == s.m && s'.T == s.T - {c} && s'.segs == s.segs && s'.o == s.o.(live := s.o.live - {c})
    ensures Sound(s') && Preserved(s, s', c)
  {
    assert Look(0);
    s' := State(s.m, s.T - {c}, s.o.(live := s.o.live - {c}), s.segs);
    DropMapTiled(s.T, c);
    DropMapCells(s, s', c);
    DropMapSegments(s, s', c);
    forall d | d in s.o.live && d != c ensures Intact(s, s', d) { }
  }

  lemma DropMapSegments(s: State, s': State, c: int)
    requires Consistent(s) && c in s.T && s.T[c].Mapped? && s'.T == s.T - {c}
    ensures MapsApart(s'.T, s.segs) && Ends(s'.T, s.segs, s.o.records) && FootOk(s'.T, s.segs, s.o.top + s.o.topsize)
  {
    var T, T' := s.T, s'.T;
    forall d, i | d in T' && T'[d].Mapped? && 0 <= i < |s.segs| ensures MapApart(T', d, s.segs[i]) {
      assert MapApart(T, d, s.segs[i]);
    }
    forall i | 0 <= i < |s.segs| ensures StartOk(T', s.segs[i]) { assert StartOk(T, s.segs[i]); }
    forall i | 1 <= i < |s.segs| ensures EndOk(T', s.segs[i], s.o.records) { assert EndOk(T, s.segs[i], s.o.records); }
    forall f | f in T' ensures FenceOk(T', f, s.o.records) { assert FenceOk(T, f, s.o.records); }
    forall f | f in T' && T'[f].Foot? ensures f == s.o.top + s.o.topsize { assert T[f].Foot?; }
  }
}
