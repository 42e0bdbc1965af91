/** A segment of malloc.c grows at its front, or goes back to the system. */
module Regrouping {
  import opened Tiling
  import opened Words
  import opened Ownership
  import opened Segments
  import opened Steps
  import opened Moves
  import opened Swapping
  import opened Growing
  import opened Sealing

  /** Segment i starts size bytes earlier. */
  function Extended(segs: seq<Segment>, i: nat, base: int, size: int): seq<Segment>
    requires i < |segs|
  {
    segs[i := Segment(base, segs[i].size + size, segs[i].record)]
  }

  ghost predicate Extends(T: Layout, segs: seq<Segment>, i: nat, base: int, size: int) {
    && i < |segs| && Vacant(T, segs, base, size) && Shape(Segment(base, size, 0)) && base + size == segs[i].base
  }

  lemma ExtendedShaped(T: Layout, segs: seq<Segment>, i: nat, base: int, size: int)
    requires Shaped(segs) && Segments.Apart(segs) && Extends(T, segs, i, base, size)
    ensures Shaped(Extended(segs, i, base, size)) && Segments.Apart(Extended(segs, i, base, size))
  {
    var segs' := Extended(segs, i, base, size);
    assert Shape(segs[i]);
    GrainSum(segs[i].size, size);
    forall j | 0 <= j < |segs| ensures Shape(segs'[j]) { assert Shape(segs[j]); }
    forall j, k | 0 <= j < |segs| && 0 <= k < |segs| && j != k
      ensures Disjoint(segs'[j].base, segs'[j].size, segs'[k].base, segs'[k].size)
    {
      assert Shape(segs[j]) && Shape(segs[k]);
      assert Disjoint(segs[j].base, segs[j].size, segs[k].base, segs[k].size);
    }
  }

  /** The new space as one chunk in use, which has no owner yet. */
  ghost predicate ExtendedBy(T: Layout, T': Layout, base: int, size: int) {
    && T' == T[base := Chunk(size, true, true)] && base !in T
    && (forall c {:trigger T[c]} :: c in T ==>
      !(base <= c < base + size) && (c + Extent(T[c]) <= base || base + size <= c) &&
        (T[c].Chunk? ==> c + T[c].size != base))
  }

  lemma ExtendedTiled(T: Layout, T': Layout, g: Segment, base: int, size: int)
    requires Tiled(T) && ExtendedBy(T, T', base, size) && StartOk(T, g) && g.base == base + size
    requires base > 0 && base % ALIGN == 0 && size > 0 && size % ALIGN == 0
    ensures Tiled(T') && Run(T', base, base + size)
  {
    forall c | c in T' ensures CellOk(T', c) {
      if c != base {
        CellAt(T, c);
        assert T[c] == T'[c];
        if T[c].Chunk? && !T[c].pinuse {
          var d :| EndsAt(T, d, c);
          assert EndsAt(T', d, c);
        }
      }
    }
  }

  lemma ExtendedWritten(m: Memory, m': Memory, T: Layout, T': Layout, base: int, size: int)
    requires Tiled(T) && Written(m, T) && ExtendedBy(T, T', base, size) && m' == PutHead(m, base, size + 3) &&
      base % ALIGN == 0
    ensures Written(m', T')
  {
    forall c | c in T' ensures HeadOf(m', c) == Pack(T'[c]) && FootAt(m', T', c) {
      if c != base {
        CellAt(T, c);
        assert T[c] == T'[c] && HeadOf(m, c) == Pack(T[c]) && FootAt(m, T, c);
        if T[c].Chunk? {
          AlignedEnd(c, T[c].size);
          Words.Apart(c + T[c].size, base);
        }
        Words.Apart(c, base);
      }
    }
  }

  lemma ExtendedOwned(T: Layout, T': Layout, o: Owners, base: int, size: int)
    requires Owned(T, o) && ExtendedBy(T, T', base, size) && size > 0
    ensures OwnedBut(T', o, base, base + size)
  {
    forall c | c in T' && !(base <= c < base + size) ensures Held(T', o, c) { assert Held(T, o, c); }
    forall c | c in o.binned ensures c in T && T'[c] == T[c] && !(base <= c < base + size) { assert T[c] == T[c]; }
    forall c | c in o.live ensures c in T && T'[c] == T[c] && !(base <= c < base + size) { assert T[c] == T[c]; }
    forall c | c in o.records ensures c in T && T'[c] == T[c] && !(base <= c < base + size) { assert T[c] == T[c]; }
    if o.dv != 0 { assert T[o.dv] == T'[o.dv]; }
    if o.top != 0 { assert T[o.top] == T'[o.top]; }
  }

  lemma ExtendedPlaced(T: Layout, T': Layout, segs: seq<Segment>, i: nat, base: int, size: int)
    requires Tiled(T) && AllPlaced(T, segs) && MapsApart(T, segs) && ExtendedBy(T, T', base, size) &&
      Extends(T, segs, i, base, size)
    requires Shaped(segs)
    ensures AllPlaced(T', Extended(segs, i, base, size)) && MapsApart(T', Extended(segs, i, base, size))
  {
    var segs' := Extended(segs, i, base, size);
    forall c | c in T' ensures Placed(T', segs', c) {
      if c == base {
        assert Shape(segs[i]);
        assert InSegment(segs'[i], c, c + Reach(T'[c]));
      } else {
        assert Placed(T, segs, c);
        if !T[c].Mapped? {
          var j :| 0 <= j < |segs| && InSegment(segs[j], c, c + Reach(T[c]));
          assert InSegment(segs'[j], c, c + Reach(T'[c]));
        }
      }
    }
    forall c, j | c in T' && T'[c].Mapped? && 0 <= j < |segs'| ensures MapApart(T', c, segs'[j]) {
      CellAt(T, c);
      assert MapApart(T, c, segs[j]) && VacantBy(T, c, base, size);
    }
  }

  lemma ExtendedEnds(T: Layout, T': Layout, segs: seq<Segment>, i: nat, base: int, size: int, records: set<int>,
      foot: int)
    requires Ends(T, segs, records) && FootOk(T, segs, foot) && ExtendedBy(T, T', base, size) &&
      Extends(T, segs, i, base, size)
    requires forall c :: c in T ==> c in T' && T'[c] == T[c]
    ensures Ends(T', Extended(segs, i, base, size), records) && FootOk(T', Extended(segs, i, base, size), foot)
  {
    var segs' := Extended(segs, i, base, size);
    forall j | 0 <= j < |segs'| ensures StartOk(T', segs'[j]) { assert StartOk(T, segs[j]); }
    forall j | 1 <= j < |segs'| ensures EndOk(T', segs'[j], records) { assert EndOk(T, segs[j], records); }
    forall r | r in records ensures exists j :: 1 <= j < |segs'| && segs'[j].record == r {
      var j :| 1 <= j < |segs| && segs[j].record == r;
      assert segs'[j].record == r;
    }
    forall f | f in T' ensures FenceOk(T', f, records) {
      if f != base { assert FenceOk(T, f, records); }
    }
    forall f | f in T' && T'[f].Foot? ensures f == foot { assert T[f].Foot?; }
  }

  /** The space in front of a segment joins it. */
  lemma Extend(s: State, i: nat, base: int, size: int) returns (g: State)
    requires Sound(s) && s.o.top != 0 && Extends(s.T, s.segs, i, base, size)
    ensures g.m == PutHead(s.m, base, size + 3) && g.o == s.o && g.segs == Extended(s.segs, i, base, size)
    ensures g.T == s.T[base := Chunk(size, true, true)]
    ensures Gapped(g, s.o.top + s.o.topsize, base, base + size) && g.T[base] == Chunk(size, true, true) &&
      g.T[base + size].Chunk?
    ensures Preserved(s, g, 0) && SameMaps(s.T, g.T) && base !in s.o.live && base > 0 && base % ALIGN == 0
  {
    assert Look(0);
    var T' := s.T[base := Chunk(size, true, true)];
    g := State(PutHead(s.m, base, size + 3), T', s.o, Extended(s.segs, i, base, size));
    PageAligned(Segment(base, size, 0));
    Eighth(size, (size - TOP_FOOT) / ALIGN + 5);
    assert StartOk(s.T, s.segs[i]);
    forall c | c in s.T
      ensures !(base <= c < base + size) && (c + Extent(s.T[c]) <= base || base + size <= c) &&
        (s.T[c].Chunk? ==> c + s.T[c].size != base)
    {
      Clearance(s.T, s.segs, base, size, c);
    }
    ExtendedTiled(s.T, T', s.segs[i], base, size);
    ExtendedWritten(s.m, g.m, s.T, T', base, size);
    ExtendedOwned(s.T, T', s.o, base, size);
    ExtendedShaped(s.T, s.segs, i, base, size);
    ExtendedPlaced(s.T, T', s.segs, i, base, size);
    ExtendedEnds(s.T, T', s.segs, i, base, size, s.o.records, s.o.top + s.o.topsize);
    forall c | c in s.o.live ensures Intact(s, g, c) { ExtendedIntact(s, g, base, size, c); }
    forall c ensures SameMap(s.T, T', c) { }
  }

  lemma ExtendedIntact(s: State, g: State, base: int, size: int, c: int)
    requires Tiled(s.T) && ExtendedBy(s.T, g.T, base, size) && g.m == PutHead(s.m, base, size + 3) &&
      base % ALIGN == 0 && size > WORD
    requires c in s.T && c in g.o.live
    ensures Intact(s, g, c)
  {
    CellAt(s.T, c);
    assert s.T[c] == g.T[c];
    if s.T[c].Chunk? && c < base {
      AlignedEnd(c, s.T[c].size);
      Before(c + s.T[c].size, base);
    }
  }

  function Fewer(segs: seq<Segment>, i: nat): seq<Segment>
    requires i < |segs|
  {
    segs[..i] + segs[i + 1..]
  }

  /** Where segment j of the shorter list was. */
  function Was(i: nat, j: nat): nat {
    if j < i then j else j + 1
  }

  /** Segment i holds one free chunk and its record, nothing else. */
  ghost predicate Unused(T: Layout, segs: seq<Segment>, i: nat, p: int) {
    && 1 <= i < |segs| && p == segs[i].base && p in T && T[p].Chunk? && p + T[p].size == segs[i].record
  }

  /** The three cells of such a segment. */
  lemma UnusedCells(T: Layout, segs: seq<Segment>, records: set<int>, foot: int, i: nat, p: int)
    requires Tiled(T) && SegmentsOk(T, segs, records, foot) && Unused(T, segs, i, p)
    ensures var r, end := segs[i].record, p + segs[i].size;
      && r in T && T[r].Chunk? && T[r].size == RECORD && T[r].cinuse && r in records && r + RECORD in T &&
        T[r + RECORD] == Fence(end - r - RECORD)
      && p < r < r + RECORD < end
      && (forall c {:trigger T[c]} :: c in T ==>
        c == p || c == r || c == r + RECORD || c + Extent(T[c]) <= p || end <= c)
      && (forall c {:trigger T[c]} :: c in T && c + Extent(T[c]) <= p && T[c].Chunk? ==> c + T[c].size < p)
  {
    var r, end := segs[i].record, p + segs[i].size;
    assert EndOk(T, segs[i], records);
    CellAt(T, p);
    CellAt(T, r);
    CellAt(T, r + RECORD);
    forall c | c in T
      ensures c == p || c == r || c == r + RECORD || c + Extent(T[c]) <= p || end <= c
      ensures c + Extent(T[c]) <= p && T[c].Chunk? ==> c + T[c].size < p
    {
      CellAt(T, c);
      OtherCell(T, segs, i, c);
    }
  }

  /** A chunk that starts before a segment ends before it. */
  lemma OtherCell(T: Layout, segs: seq<Segment>, i: nat, c: int)
    requires Tiled(T) && AllPlaced(T, segs) && Segments.Apart(segs) && Shaped(segs) && i < |segs| && c in T
    ensures T[c].Chunk? && c < segs[i].base ==> c + T[c].size < segs[i].base
  {
    assert Placed(T, segs, c);
    if T[c].Chunk? {
      var j :| 0 <= j < |segs| && InSegment(segs[j], c, c + Reach(T[c]));
      CellAt(T, c);
      assert Shape(segs[i]);
    }
  }

  ghost predicate Dropped(T: Layout, T': Layout, p: int, r: int) {
    && (forall c {:trigger c in T'} {:trigger T'[c]} :: c in T' <==> c in T && c != p && c != r && c != r + RECORD)
    && (forall c {:trigger T'[c]} :: c in T' ==> T'[c] == T[c])
  }

  lemma DroppedTiled(T: Layout, T': Layout, segs: seq<Segment>, records: set<int>, foot: int, i: nat, p: int)
    requires Tiled(T) && SegmentsOk(T, segs, records, foot) && Unused(T, segs, i, p) &&
      Dropped(T, T', p, segs[i].record)
    ensures Tiled(T')
  {
    UnusedCells(T, segs, records, foot, i, p);
    forall c | c in T' ensures CellOk(T', c) {
      assert T'[c] == T[c];
      CellAt(T, c);
      if T[c].Chunk? {
        var n := c + T[c].size;
        assert T[n] == T[n];
        if !T[c].pinuse {
          var d :| EndsAt(T, d, c);
          assert T[d].Chunk?;
          assert EndsAt(T', d, c);
        }
      }
    }
  }

  lemma DroppedWritten(m: Memory, T: Layout, T': Layout, p: int, r: int)
    requires Written(m, T) && Dropped(T, T', p, r)
    ensures Written(m, T')
  {
    forall c | c in T' ensures HeadOf(m, c) == Pack(T'[c]) && FootAt(m, T', c) {
      assert T'[c] == T[c] && HeadOf(m, c) == Pack(T[c]) && FootAt(m, T, c);
    }
  }

  lemma DroppedOwned(T: Layout, T': Layout, o: Owners, p: int, r: int)
    requires OwnedBut(T, o, p, r) && Dropped(T, T', p, r) && p < r && r in o.records && r + RECORD in T &&
      T[r + RECORD].Fence?
    requires forall c {:trigger T[c]} :: c in T && p < c < r ==> false
    requires p in T && T[p].Chunk?
    ensures Owned(T', o.(records := o.records - {r}))
  {
    var o' := o.(records := o.records - {r});
    forall c | c in T' ensures Held(T', o', c) {
      assert T'[c] == T[c];
      assert Held(T, o, c);
    }
    forall c | c in o.binned || c in o.live || c in o'.records ensures c in T' && T'[c] == T[c] { }
    if o.dv != 0 { assert T'[o.dv] == T[o.dv]; }
    if o.top != 0 { assert T'[o.top] == T[o.top] && T'[o.top + o.topsize] == T[o.top + o.topsize]; }
  }

  lemma FewerApart(segs: seq<Segment>, i: nat)
    requires i < |segs| && Shaped(segs) && Segments.Apart(segs)
    ensures Shaped(Fewer(segs, i)) && Segments.Apart(Fewer(segs, i))
  {
    var segs' := Fewer(segs, i);
    forall j | 0 <= j < |segs'| ensures Shape(segs'[j]) { assert Shape(segs[Was(i, j)]); }
    forall j, k | 0 <= j < |segs'| && 0 <= k < |segs'| && j != k
      ensures Disjoint(segs'[j].base, segs'[j].size, segs'[k].base, segs'[k].size)
    {
      assert segs'[j] == segs[Was(i, j)] && segs'[k] == segs[Was(i, k)];
    }
  }

  lemma DroppedPlaced(T: Layout, T': Layout, segs: seq<Segment>, records: set<int>, foot: int, i: nat, p: int)
    requires Tiled(T) && SegmentsOk(T, segs, records, foot) && Unused(T, segs, i, p) &&
      Dropped(T, T', p, segs[i].record)
    ensures AllPlaced(T', Fewer(segs, i)) && MapsApart(T', Fewer(segs, i))
  {
    UnusedCells(T, segs, records, foot, i, p);
    forall c | c in T' ensures Placed(T', Fewer(segs, i), c) {
      assert T'[c] == T[c];
      assert Placed(T, segs, c);
      ReachPositive(T, c);
      StillPlaced(T, T', segs, i, c);
    }
    forall c, j | c in T' && T'[c].Mapped? && 0 <= j < |segs| - 1 ensures MapApart(T', c, Fewer(segs, i)[j]) {
      assert MapApart(T, c, segs[Was(i, j)]);
    }
  }

  lemma StillPlaced(T: Layout, T': Layout, segs: seq<Segment>, i: nat, c: int)
    requires i < |segs| && c in T && c in T' && T'[c] == T[c] && Placed(T, segs, c)
    requires !T[c].Mapped? ==> !InSegment(segs[i], c, c + Reach(T[c]))
    ensures Placed(T', Fewer(segs, i), c)
  {
    if !T[c].Mapped? {
      var j :| 0 <= j < |segs| && InSegment(segs[j], c, c + Reach(T[c]));
      assert Fewer(segs, i)[if j < i then j else j - 1] == segs[j];
    }
  }

  lemma DroppedEnds(T: Layout, T': Layout, segs: seq<Segment>, records: set<int>, foot: int, i: nat, p: int)
    requires Tiled(T) && SegmentsOk(T, segs, records, foot) && Unused(T, segs, i, p) &&
      Dropped(T, T', p, segs[i].record)
    requires !T[p].cinuse && forall r :: r in records ==> r in T && T[r].Chunk? && T[r].cinuse
    ensures Ends(T', Fewer(segs, i), records - {segs[i].record}) && FootOk(T', Fewer(segs, i), foot)
  {
    var segs', records' := Fewer(segs, i), records - {segs[i].record};
    UnusedCells(T, segs, records, foot, i, p);
    forall j | 0 <= j < |segs'| ensures StartOk(T', segs'[j]) && (j > 0 ==> EndOk(T', segs'[j], records')) {
      OtherSegment(T, segs, records, foot, i, p, Was(i, j));
    }
    FewerRecords(segs, records, i);
    forall f | f in T' ensures FenceOk(T', f, records') {
      assert T'[f] == T[f];
      assert FenceOk(T, f, records);
    }
    forall f | f in T' && T'[f].Foot? ensures f == foot { assert T[f].Foot?; }
  }

  /** Every other record is one of the segments that are left. */
  lemma FewerRecords(segs: seq<Segment>, records: set<int>, i: nat)
    requires 1 <= i < |segs| && forall r :: r in records ==> exists j :: 1 <= j < |segs| && segs[j].record == r
    ensures var segs' := Fewer(segs, i);
      forall r :: r in records - {segs[i].record} ==> exists j :: 1 <= j < |segs'| && segs'[j].record == r
  {
    var segs' := Fewer(segs, i);
    forall r | r in records - {segs[i].record} ensures exists j :: 1 <= j < |segs'| && segs'[j].record == r {
      var j :| 1 <= j < |segs| && segs[j].record == r;
      assert segs'[if j < i then j else j - 1].record == r;
    }
  }

  /** The other segments have their cells elsewhere. */
  lemma OtherSegment(T: Layout, segs: seq<Segment>, records: set<int>, foot: int, i: nat, p: int, k: nat)
    requires Tiled(T) && SegmentsOk(T, segs, records, foot) && Unused(T, segs, i, p) && k < |segs| && k != i
    requires !T[p].cinuse
    ensures var r := segs[i].record;
      && StartOk(T, segs[k]) && segs[k].base != p && segs[k].base != r && segs[k].base != r + RECORD
      && (k > 0 ==>
        EndOk(T, segs[k], records) && segs[k].record != p && segs[k].record != r &&
        segs[k].record + RECORD != r + RECORD)
  {
    UnusedCells(T, segs, records, foot, i, p);
    assert StartOk(T, segs[k]) && Shape(segs[k]) && Shape(segs[i]);
    assert Disjoint(segs[i].base, segs[i].size, segs[k].base, segs[k].size);
    if k > 0 { assert EndOk(T, segs[k], records); }
  }

  /** T' holds nothing that T does not hold. */
  ghost predicate PartOf(T': Layout, T: Layout) {
    forall c :: c in T' ==> c in T && T'[c] == T[c]
  }

  /** A segment without users goes back to the system. */
  lemma DropSegment(g: State, foot: int, i: nat, p: int, r: int) returns (s': State)
    requires Gapped(g, foot, p, r) && g.o.top != 0 && Unused(g.T, g.segs, i, p) && r == g.segs[i].record &&
      !g.T[p].cinuse
    ensures s'.m == g.m && s'.segs == Fewer(g.segs, i) && s'.o == g.o.(records := g.o.records - {r})
    ensures Sound(s') && Preserved(g, s', 0) && SameMaps(g.T, s'.T) && PartOf(s'.T, g.T)
  {
    assert Look(0);
    UnusedCells(g.T, g.segs, g.o.records, foot, i, p);
    var T' := g.T - {p, r, r + RECORD};
    s' := State(g.m, T', g.o.(records := g.o.records - {r}), Fewer(g.segs, i));
    DroppedTiled(g.T, T', g.segs, g.o.records, foot, i, p);
    DroppedWritten(g.m, g.T, T', p, r);
    CellAt(g.T, p);
    DroppedOwned(g.T, T', g.o, p, r);
    FewerApart(g.segs, i);
    DroppedPlaced(g.T, T', g.segs, g.o.records, foot, i, p);
    DroppedEnds(g.T, T', g.segs, g.o.records, foot, i, p);
    forall c | c in g.o.live ensures Intact(g, s', c) { }
    forall c ensures SameMap(g.T, T', c) { }
  }
}
