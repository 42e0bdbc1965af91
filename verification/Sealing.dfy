/** add_segment of malloc.c seals the segment that had top: its record and fenceposts take the place of the foot. */
module Sealing {
  import opened Tiling
  import opened Words
  import opened Ownership
  import opened Segments
  import opened Steps
  import opened Moves
  import opened Swapping
  import opened Growing

  const RECORD := 24

  /** Where add_segment puts the record: in the foot, or over a top too small to be a chunk. */
  function RecordPlace(top: int, topsize: int): int {
    if topsize < MIN_CHUNK then top else top + topsize
  }

  /** The cells that take the place of top and its foot. */
  function SealCells(top: int, csp: int, end: int): Layout {
    if csp == top then
      map[top := Chunk(RECORD, true, true), top + RECORD := Fence(end - top - RECORD)]
    else
      map[top := Chunk(csp - top, false, true), csp := Chunk(RECORD, true, false),
        csp + RECORD := Fence(end - csp - RECORD)]
  }

  /** What add_segment has written in the old segment. */
  ghost predicate SealWords(m: Memory, m': Memory, top: int, csp: int, end: int) {
    && WritesIn(m, m', top + WORD, end)
    && HeadOf(m', csp) == RECORD + 2 + (if csp == top then 1 else 0)
    && HeadOf(m', csp + RECORD) == WORD + 3
    && (csp != top ==> HeadOf(m', top) == csp - top + 1 && Get(m', csp) == csp - top)
  }

  ghost predicate SealPlace(top: int, csp: int, end: int) {
    && top > 0 && top % ALIGN == 0 && csp % ALIGN == 0 && end - 48 <= csp <= end - 40
    && (csp == top || (top + MIN_CHUNK <= csp && (csp - top) % ALIGN == 0))
  }

  predicate NoFoot(R: Layout) {
    forall c {:trigger R[c]} :: c in R ==> !R[c].Foot?
  }

  lemma SealFills(top: int, csp: int, end: int)
    requires SealPlace(top, csp, end)
    ensures Fills(SealCells(top, csp, end), top, end) && NoFoot(SealCells(top, csp, end))
  {
    var R := SealCells(top, csp, end);
    forall c | c in R ensures top <= c < end && c + Extent(R[c]) <= end && (R[c].Chunk? ==> c + R[c].size in R) {
      assert c == top || c == csp || c == csp + RECORD;
    }
  }

  lemma SealTiled(top: int, csp: int, end: int)
    requires SealPlace(top, csp, end)
    ensures Tiled(SealCells(top, csp, end))
  {
    var R := SealCells(top, csp, end);
    AlignedEnd(csp, RECORD);
    assert csp != top ==> EndsAt(R, top, csp);
    forall c | c in R ensures CellOk(R, c) {
      assert c == top || c == csp || c == csp + RECORD;
    }
  }

  lemma SealWritten(m: Memory, m': Memory, top: int, csp: int, end: int)
    requires SealWords(m, m', top, csp, end) && SealPlace(top, csp, end)
    ensures Written(m', SealCells(top, csp, end))
  {
    var R := SealCells(top, csp, end);
    forall c | c in R ensures HeadOf(m', c) == Pack(R[c]) && FootAt(m', R, c) {
      assert c == top || c == csp || c == csp + RECORD;
    }
  }

  /** The owners once the segment is sealed: the rest of top is in a bin. */
  function SealOwners(o: Owners, csp: int): Owners {
    var binned := if csp == o.top then o.binned else o.binned[o.top := csp - o.top];
    o.(binned := binned, top := 0, topsize := 0, records := o.records + {csp})
  }

  lemma SealOwned(T: Layout, T': Layout, o: Owners, foot: int, csp: int, end: int)
    requires Owned(T, o) && o.top > 0 && TailOf(T, o.top, foot) && SealPlace(o.top, csp, end) &&
      csp == RecordPlace(o.top, o.topsize)
    requires Retailed(T, T', SealCells(o.top, csp, end), o.top, foot) && foot == o.top + o.topsize
    ensures Owned(T', SealOwners(o, csp))
  {
    var o' := SealOwners(o, csp);
    forall c | c in T' ensures Held(T', o', c) {
      if c in T && c != o.top && c != foot { assert Held(T, o, c); }
    }
    forall c | c in o.binned ensures c in T && c in T' && T'[c] == T[c] { }
    forall c | c in o.live ensures c in T && c in T' && T'[c] == T[c] && c != csp { }
    forall c | c in o.records ensures c in T && c in T' && T'[c] == T[c] { }
  }

  function Recorded(segs: seq<Segment>, csp: int): seq<Segment>
    requires segs != []
  {
    segs[0 := segs[0].(record := csp)]
  }

  lemma RecordedApart(segs: seq<Segment>, csp: int)
    requires segs != [] && Shaped(segs) && Segments.Apart(segs)
    ensures Shaped(Recorded(segs, csp)) && Segments.Apart(Recorded(segs, csp))
  {
    forall i | 0 <= i < |segs| ensures Shape(Recorded(segs, csp)[i]) { assert Shape(segs[i]); }
    forall i, j | 0 <= i < |segs| && 0 <= j < |segs| && i != j
      ensures Disjoint(Recorded(segs, csp)[i].base, Recorded(segs, csp)[i].size, Recorded(segs, csp)[j].base,
        Recorded(segs, csp)[j].size)
    {
      assert Disjoint(segs[i].base, segs[i].size, segs[j].base, segs[j].size);
    }
  }

  /** Where things are in the segment that is sealed. */
  ghost predicate SealSetting(T: Layout, T': Layout, segs: seq<Segment>, top: int, foot: int, csp: int) {
    Setting(T, T', segs, SealCells(top, csp, foot + TOP_FOOT), top, foot, csp)
  }

  ghost predicate Setting(T: Layout, T': Layout, segs: seq<Segment>, R: Layout, top: int, foot: int, csp: int) {
    && segs != [] && TailOf(T, top, foot) && segs[0].base <= top && foot + TOP_FOOT == segs[0].base + segs[0].size
    && SealPlace(top, csp, foot + TOP_FOOT) && Fills(R, top, foot + TOP_FOOT) && NoFoot(R)
    && Retailed(T, T', R, top, foot)
  }

  lemma RecordedMaps(T: Layout, T': Layout, segs: seq<Segment>, top: int, foot: int, csp: int)
    requires SealSetting(T, T', segs, top, foot, csp) && MapsApart(T, segs)
    ensures MapsApart(T', Recorded(segs, csp))
  {
    forall c, i | c in T' && T'[c].Mapped? && 0 <= i < |segs| ensures MapApart(T', c, Recorded(segs, csp)[i]) {
      assert c in T && T'[c] == T[c];
      assert MapApart(T, c, segs[i]);
    }
  }

  lemma RecordedPlaced(T: Layout, T': Layout, segs: seq<Segment>, top: int, foot: int, csp: int)
    requires SealSetting(T, T', segs, top, foot, csp) && AllPlaced(T, segs)
    ensures AllPlaced(T', Recorded(segs, csp))
  {
    var R := SealCells(top, csp, foot + TOP_FOOT);
    forall c | c in T' ensures Placed(T', Recorded(segs, csp), c) {
      if c in R {
        assert R[c] == T'[c];
        assert R[c].Chunk? ==> c + R[c].size < foot + TOP_FOOT;
        assert InSegment(Recorded(segs, csp)[0], c, c + Reach(T'[c]));
      } else {
        assert T'[c] == T[c];
        assert Placed(T, segs, c);
        if !T[c].Mapped? {
          var i :| 0 <= i < |segs| && InSegment(segs[i], c, c + Reach(T[c]));
          assert InSegment(Recorded(segs, csp)[i], c, c + Reach(T'[c]));
        }
      }
    }
  }

  lemma RecordedEnds(T: Layout, T': Layout, segs: seq<Segment>, top: int, foot: int, csp: int, records: set<int>)
    requires SealSetting(T, T', segs, top, foot, csp) && Ends(T, segs, records) && FootOk(T, segs, foot)
    requires forall r :: r in records ==> r in T && T[r].Chunk? && T[r].cinuse
    ensures var segs', records' := Recorded(segs, csp), records + {csp};
      && (forall i {:trigger StartOk(T', segs'[i])} :: 0 <= i < |segs'| ==> StartOk(T', segs'[i]))
      && (forall i {:trigger EndOk(T', segs'[i], records')} :: 0 <= i < |segs'| ==> EndOk(T', segs'[i], records'))
      && (forall r :: r in records' ==> exists i :: 0 <= i < |segs'| && segs'[i].record == r)
  {
    var segs', records', R := Recorded(segs, csp), records + {csp}, SealCells(top, csp, foot + TOP_FOOT);
    forall i | 0 <= i < |segs'| ensures StartOk(T', segs'[i]) {
      assert StartOk(T, segs[i]);
      RetailedStarts(T, T', R, top, foot, segs[i]);
    }
    forall i | 0 <= i < |segs'| ensures EndOk(T', segs'[i], records') {
      if i == 0 {
        assert T'[csp] == R[csp] && T'[csp + RECORD] == R[csp + RECORD];
      } else {
        assert EndOk(T, segs[i], records);
        RetailedEnds(T, T', R, top, foot, segs[i], records);
      }
    }
    forall r | r in records' ensures exists i :: 0 <= i < |segs'| && segs'[i].record == r {
      if r == csp { assert segs'[0].record == r; } else {
        var i :| 1 <= i < |segs| && segs[i].record == r;
        assert segs'[i].record == r;
      }
    }
  }

  lemma RecordedFences(T: Layout, T': Layout, segs: seq<Segment>, top: int, foot: int, csp: int, records: set<int>)
    requires SealSetting(T, T', segs, top, foot, csp) && Ends(T, segs, records) && FootOk(T, segs, foot)
    requires forall r :: r in records ==> r in T && T[r].Chunk? && T[r].cinuse
    ensures forall f {:trigger FenceOk(T', f, records + {csp})} :: f in T' ==> FenceOk(T', f, records + {csp})
    ensures forall f {:trigger T'[f].Foot?} :: f in T' ==> !T'[f].Foot?
  {
    var R := SealCells(top, csp, foot + TOP_FOOT);
    forall f | f in T' ensures FenceOk(T', f, records + {csp}) && !T'[f].Foot? {
      if f in R {
        assert T'[f] == R[f] && T'[csp] == R[csp];
      } else {
        assert T'[f] == T[f];
        assert FenceOk(T, f, records);
        RetailedFences(T, T', R, top, foot, records, f);
      }
    }
  }

  lemma Place(top: int, topsize: int)
    requires top > 0 && top % ALIGN == 0 && topsize > 0 && topsize % ALIGN == 0
    ensures SealPlace(top, RecordPlace(top, topsize), top + topsize + TOP_FOOT)
  {
    AlignedEnd(top, topsize);
  }

  /** The cells R take the place of top and its foot. */
  lemma SetCells(s: State, m': Memory, R: Layout, csp: int, foot: int) returns (T': Layout)
    requires Consistent(s) && s.o.top != 0 && foot == s.o.top + s.o.topsize
    requires Tiled(R) && Written(m', R) && WritesIn(s.m, m', s.o.top + WORD, foot + TOP_FOOT)
    requires SealPlace(s.o.top, csp, foot + TOP_FOOT) && Fills(R, s.o.top, foot + TOP_FOOT) && NoFoot(R)
    ensures Setting(s.T, T', s.segs, R, s.o.top, foot, csp) && Tiled(T') && Written(m', T')
    ensures Swapped(s.T, T', R, s.o.top, foot + TOP_FOOT) && Swappable(s.T, R, s.o.top, foot + TOP_FOOT)
  {
    Tail(s);
    T' := ReplaceTail(s.m, m', s.T, R, s.o.top, foot, foot + TOP_FOOT);
  }

  lemma SealedCells(s: State, m': Memory, csp: int, foot: int) returns (T': Layout)
    requires Consistent(s) && s.o.top != 0 && csp == RecordPlace(s.o.top, s.o.topsize) && foot == s.o.top + s.o.topsize
    requires SealWords(s.m, m', s.o.top, csp, foot + TOP_FOOT)
    ensures SealSetting(s.T, T', s.segs, s.o.top, foot, csp) && Tiled(T') && Written(m', T') && s.o.top % ALIGN == 0
    ensures var R, b := SealCells(s.o.top, csp, foot + TOP_FOOT), foot + TOP_FOOT;
      Swapped(s.T, T', R, s.o.top, b) && Swappable(s.T, R, s.o.top, b)
  {
    var top, b := s.o.top, foot + TOP_FOOT;
    var R := SealCells(top, csp, b);
    Tail(s);
    Place(top, s.o.topsize);
    SealFills(top, csp, b);
    SealTiled(top, csp, b);
    SealWritten(s.m, m', top, csp, b);
    T' := SetCells(s, m', R, csp, foot);
  }

  lemma SealSound(s: State, s': State, csp: int, foot: int)
    requires Consistent(s) && s.o.top > 0 && csp == RecordPlace(s.o.top, s.o.topsize) && foot == s.o.top + s.o.topsize
    requires SealSetting(s.T, s'.T, s.segs, s.o.top, foot, csp) && Tiled(s'.T) && Written(s'.m, s'.T)
    requires s'.o == SealOwners(s.o, csp) && s'.segs == Recorded(s.segs, csp)
    ensures Sealed(s')
  {
    var top := s.o.top;
    SealOwned(s.T, s'.T, s.o, foot, csp, foot + TOP_FOOT);
    RecordedApart(s.segs, csp);
    RecordedMaps(s.T, s'.T, s.segs, top, foot, csp);
    RecordedPlaced(s.T, s'.T, s.segs, top, foot, csp);
    RecordedEnds(s.T, s'.T, s.segs, top, foot, csp, s.o.records);
    RecordedFences(s.T, s'.T, s.segs, top, foot, csp, s.o.records);
  }

  /** The segment that has top gets its record and fenceposts. */
  lemma Seal(s: State, m': Memory, csp: int) returns (s': State)
    requires Sound(s) && s.o.top != 0 && csp == RecordPlace(s.o.top, s.o.topsize) && s.segs != []
    requires SealWords(s.m, m', s.o.top, csp, s.o.top + s.o.topsize + TOP_FOOT)
    ensures s'.m == m' && s'.o == SealOwners(s.o, csp) && s'.segs == Recorded(s.segs, csp)
    ensures Topless(s') && Preserved(s, s', 0) && SameMaps(s.T, s'.T)
  {
    assert Look(0);
    var foot := s.o.top + s.o.topsize;
    var T' := SealedCells(s, m', csp, foot);
    s' := State(m', T', SealOwners(s.o, csp), Recorded(s.segs, csp));
    CellAt(s.T, s.o.top);
    SealSound(s, s', csp, foot);
    var R := SealCells(s.o.top, csp, foot + TOP_FOOT);
    forall c | c in s.o.live ensures Intact(s, s', c) {
      CellAt(s.T, c);
      SwapIntact(s, s', R, s.o.top, s.o.top + WORD, foot + TOP_FOOT, c);
    }
    forall c ensures SameMap(s.T, T', c) { }
  }
}
