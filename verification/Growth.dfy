/** How the regions of a malloc.c heap come and go: a new top, a sealed segment, a moved end, direct mappings. */
module Growing {
  import opened Tiling
  import opened Words
  import opened Ownership
  import opened Segments
  import opened Steps
  import opened Moves
  import opened Swapping

  /** The region overlaps no segment and no directly mapped region. */
  ghost predicate Vacant(T: Layout, segs: seq<Segment>, base: int, size: int) {
    && base > 0 && base % PAGE == 0 && size > 0
    && (forall i {:trigger segs[i]} :: 0 <= i < |segs| ==> Disjoint(base, size, segs[i].base, segs[i].size))
    && (forall c {:trigger VacantBy(T, c, base, size)} :: c in T && T[c].Mapped? ==> VacantBy(T, c, base, size))
  }

  predicate VacantBy(T: Layout, c: int, base: int, size: int)
    requires c in T && T[c].Mapped?
  {
    Disjoint(base, size, RegionStart(T, c), RegionSize(T, c))
  }

  lemma PageAligned(g: Segment)
    requires Shape(g)
    ensures g.base % ALIGN == 0 && (g.size - TOP_FOOT) % ALIGN == 0 && g.size > TOP_FOOT
  {
    Eighth(g.base, 512 * (g.base / PAGE));
    Eighth(g.size - TOP_FOOT, 8192 * (g.size / GRAIN) - 5);
  }

  lemma Eighth(x: int, q: int)
    requires x == 8 * q
    ensures x % ALIGN == 0
  {
  }

  /** No cell is in a vacant region or reaches into it. */
  lemma Clearance(T: Layout, segs: seq<Segment>, base: int, size: int, c: int)
    requires Tiled(T) && AllPlaced(T, segs) && Vacant(T, segs, base, size) && c in T
    ensures !(base <= c < base + size) && (c + Extent(T[c]) <= base || base + size <= c)
    ensures T[c].Chunk? ==> c + T[c].size != base
  {
    CellAt(T, c);
    ReachPositive(T, c);
    if T[c].Mapped? {
      assert VacantBy(T, c, base, size);
    } else {
      assert Placed(T, segs, c);
      var i :| 0 <= i < |segs| && InSegment(segs[i], c, c + Reach(T[c]));
      assert Disjoint(base, size, segs[i].base, segs[i].size);
    }
  }

  /** Cells put into a vacant region swap with nothing. */
  lemma VacantSwap(T: Layout, segs: seq<Segment>, R: Layout, base: int, size: int)
    requires Tiled(T) && AllPlaced(T, segs) && Vacant(T, segs, base, size)
    requires forall c {:trigger R[c]} :: c in R ==> base <= c < base + size && c + Extent(R[c]) <= base + size
    ensures Swappable(T, R, base, base + size) && LowEnough(T, base, base)
  {
    forall c | c in T
      ensures !(base <= c < base + size) && (c + Extent(T[c]) <= base || base + size <= c) &&
        (T[c].Chunk? ==> c + T[c].size != base)
    {
      Clearance(T, segs, base, size, c);
    }
  }

  /** Every segment is complete: none has top. */
  ghost predicate AllSealed(T: Layout, segs: seq<Segment>, records: set<int>) {
    && Shaped(segs) && Segments.Apart(segs) && AllPlaced(T, segs) && MapsApart(T, segs)
    && (forall i {:trigger StartOk(T, segs[i])} :: 0 <= i < |segs| ==> StartOk(T, segs[i]))
    && (forall i {:trigger EndOk(T, segs[i], records)} :: 0 <= i < |segs| ==> EndOk(T, segs[i], records))
    && (forall r :: r in records ==> exists i :: 0 <= i < |segs| && segs[i].record == r)
    && (forall f {:trigger FenceOk(T, f, records)} :: f in T ==> FenceOk(T, f, records))
    && (forall f {:trigger T[f].Foot?} :: f in T ==> !T[f].Foot?)
  }

  ghost predicate Sealed(s: State) {
    Tiled(s.T) && Written(s.m, s.T) && Owned(s.T, s.o) && s.o.top == 0 && s.o.topsize == 0 &&
      AllSealed(s.T, s.segs, s.o.records)
  }

  ghost predicate Topless(s: State) {
    forall u {:trigger Look(u)} :: Look(u) ==> Sealed(s)
  }

  lemma Uninitialized(s: State)
    requires Sound(s) && s.o.top == 0
    ensures Topless(s) && s.segs == []
  {
    assert Look(0);
    forall f | f in s.T ensures !s.T[f].Foot? && FenceOk(s.T, f, s.o.records) {
      assert Placed(s.T, s.segs, f);
    }
  }

  /** init_top: head of top, and the size of the fake chunk behind it */
  function TopWords(m: Memory, top: int, topsize: int): Memory {
    PutHead(PutHead(m, top, topsize + 1), top + topsize, TOP_FOOT)
  }

  function TopCells(top: int, topsize: int): Layout {
    map[top := Chunk(topsize, false, true), top + topsize := Foot]
  }

  lemma TopCellsOk(m: Memory, top: int, topsize: int)
    requires top > 0 && top % ALIGN == 0 && topsize > 0 && topsize % ALIGN == 0
    ensures Tiled(TopCells(top, topsize)) && Written(TopWords(m, top, topsize), TopCells(top, topsize))
    ensures WritesIn(m, TopWords(m, top, topsize), top + WORD, top + topsize + TOP_FOOT)
  {
    var R, m' := TopCells(top, topsize), TopWords(m, top, topsize);
    AlignedEnd(top, topsize);
    forall c | c in R ensures CellOk(R, c) && HeadOf(m', c) == Pack(R[c]) && FootAt(m', R, c) {
      assert c == top || c == top + topsize;
    }
  }

  /** The first part of a new region becomes top. */
  ghost predicate ToppedBy(T: Layout, T': Layout, base: int, size: int) {
    size > TOP_FOOT && Swapped(T, T', TopCells(base, size - TOP_FOOT), base, base + size)
  }

  lemma NewTopOwned(T: Layout, T': Layout, o: Owners, base: int, size: int)
    requires Owned(T, o) && o.top == 0 && base > 0 && ToppedBy(T, T', base, size)
    requires forall c {:trigger c in T} :: c in T ==> c > 0 && !(base <= c < base + size)
    ensures Owned(T', o.(top := base, topsize := size - TOP_FOOT))
  {
    var o' := o.(top := base, topsize := size - TOP_FOOT);
    forall c | c in T' ensures Held(T', o', c) {
      if c in T { assert Held(T, o, c) && T'[c] == T[c]; }
    }
    forall c | c in o.binned ensures c in T && T'[c] == T[c] { }
  }

  /** A segment in front of the others, which is apart from them. */
  lemma FrontApart(segs: seq<Segment>, g: Segment)
    requires Shaped(segs) && Segments.Apart(segs) && Shape(g)
    requires forall i {:trigger segs[i]} :: 0 <= i < |segs| ==> Disjoint(g.base, g.size, segs[i].base, segs[i].size)
    ensures Shaped([g] + segs) && Segments.Apart([g] + segs)
  {
    var segs' := [g] + segs;
    forall i | 0 <= i < |segs'| ensures Shape(segs'[i]) {
      if i > 0 { assert Shape(segs[i - 1]); }
    }
    forall i, j | 0 <= i < |segs'| && 0 <= j < |segs'| && i != j
      ensures Disjoint(segs'[i].base, segs'[i].size, segs'[j].base, segs'[j].size)
    {
      if i > 0 { assert segs'[i] == segs[i - 1]; }
      if j > 0 { assert segs'[j] == segs[j - 1]; }
    }
  }

  /** A directly mapped chunk is in no segment's way after the step. */
  lemma FrontMaps(T: Layout, T': Layout, segs: seq<Segment>, g: Segment)
    requires MapsApart(T, segs) && Vacant(T, segs, g.base, g.size) && ToppedBy(T, T', g.base, g.size)
    ensures MapsApart(T', [g] + segs)
  {
    forall c, i | c in T' && T'[c].Mapped? && 0 <= i < |[g] + segs| ensures MapApart(T', c, ([g] + segs)[i]) {
      assert c in T && T'[c] == T[c];
      assert VacantBy(T, c, g.base, g.size);
      if i > 0 { assert MapApart(T, c, segs[i - 1]); }
    }
  }

  lemma FrontPlaced(T: Layout, T': Layout, segs: seq<Segment>, g: Segment)
    requires AllPlaced(T, segs) && ToppedBy(T, T', g.base, g.size)
    ensures AllPlaced(T', [g] + segs)
  {
    forall c | c in T' ensures Placed(T', [g] + segs, c) {
      if c in TopCells(g.base, g.size - TOP_FOOT) {
        assert InSegment(([g] + segs)[0], c, c + Reach(T'[c]));
      } else {
        assert Placed(T, segs, c) && T'[c] == T[c];
        if !T[c].Mapped? {
          var i :| 0 <= i < |segs| && InSegment(segs[i], c, c + Reach(T[c]));
          assert InSegment(([g] + segs)[i + 1], c, c + Reach(T'[c]));
        }
      }
    }
  }

  lemma FrontEnds(T: Layout, T': Layout, segs: seq<Segment>, g: Segment, records: set<int>)
    requires AllSealed(T, segs, records) && ToppedBy(T, T', g.base, g.size)
    requires forall c {:trigger c in T} :: c in T ==> !(g.base <= c < g.base + g.size)
    ensures Ends(T', [g] + segs, records) && FootOk(T', [g] + segs, g.base + g.size - TOP_FOOT)
  {
    var segs' := [g] + segs;
    forall i | 0 <= i < |segs'| ensures StartOk(T', segs'[i]) {
      if i > 0 { assert StartOk(T, segs[i - 1]); }
    }
    forall i | 1 <= i < |segs'| ensures EndOk(T', segs'[i], records) {
      assert EndOk(T, segs[i - 1], records);
    }
    forall r | r in records ensures exists i :: 1 <= i < |segs'| && segs'[i].record == r {
      var i :| 0 <= i < |segs| && segs[i].record == r;
      assert segs'[i + 1].record == r;
    }
    forall f | f in T' ensures FenceOk(T', f, records) && (T'[f].Foot? ==> f == g.base + g.size - TOP_FOOT) {
      if f in T { assert FenceOk(T, f, records) && !T[f].Foot?; }
    }
  }

  /** The cells of a new region with top, in a layout that has nothing there. */
  lemma NewTopCells(m: Memory, T: Layout, segs: seq<Segment>, g: Segment) returns (T': Layout)
    requires Tiled(T) && Written(m, T) && AllPlaced(T, segs) && Vacant(T, segs, g.base, g.size) && Shape(g)
    ensures ToppedBy(T, T', g.base, g.size) &&
      Swappable(T, TopCells(g.base, g.size - TOP_FOOT), g.base, g.base + g.size)
    ensures LowEnough(T, g.base, g.base) && g.base % ALIGN == 0 && forall c {:trigger c in T} :: c in T ==>
      c > 0 && !(g.base <= c < g.base + g.size)
    ensures var m' := TopWords(m, g.base, g.size - TOP_FOOT); WritesIn(m, m', g.base, g.base + g.size)
    ensures Tiled(T') && Written(TopWords(m, g.base, g.size - TOP_FOOT), T')
  {
    var R, b := TopCells(g.base, g.size - TOP_FOOT), g.base + g.size;
    var m' := TopWords(m, g.base, g.size - TOP_FOOT);
    PageAligned(g);
    TopCellsOk(m, g.base, g.size - TOP_FOOT);
    VacantSwap(T, segs, R, g.base, g.size);
    T' := SwapIs(T, R, g.base, b);
    SwapTiled(T, T', R, g.base, b);
    SwapWritten(m, m', T, T', R, g.base, b);
    forall c | c in T ensures c > 0 && !(g.base <= c < b) {
      Clearance(T, segs, g.base, g.size, c);
      CellAt(T, c);
    }
  }

  /** A new region becomes the current segment, nearly all of it top. */
  lemma NewTop(s: State, g: Segment) returns (s': State)
    requires Topless(s) && Vacant(s.T, s.segs, g.base, g.size) && Shape(g)
    ensures s'.m == TopWords(s.m, g.base, g.size - TOP_FOOT) && s'.segs == [g] + s.segs
    ensures s'.o == s.o.(top := g.base, topsize := g.size - TOP_FOOT)
    ensures Sound(s') && Preserved(s, s', 0) && SameMaps(s.T, s'.T)
  {
    assert Look(0);
    var T' := NewTopCells(s.m, s.T, s.segs, g);
    s' := State(TopWords(s.m, g.base, g.size - TOP_FOOT), T', s.o.(top := g.base, topsize := g.size - TOP_FOOT),
      [g] + s.segs);
    NewTopSound(s, s', g);
    forall c | c in s.o.live ensures Intact(s, s', c) {
      SwapIntact(s, s', TopCells(g.base, g.size - TOP_FOOT), g.base, g.base, g.base + g.size, c);
    }
    forall c ensures SameMap(s.T, T', c) { }
  }

  lemma NewTopSound(s: State, s': State, g: Segment)
    requires Sealed(s) && Vacant(s.T, s.segs, g.base, g.size) && Shape(g) && ToppedBy(s.T, s'.T, g.base, g.size)
    requires Tiled(s'.T) && Written(s'.m, s'.T) && s'.o == s.o.(top := g.base, topsize := g.size - TOP_FOOT) &&
      s'.segs == [g] + s.segs
    requires forall c {:trigger c in s.T} :: c in s.T ==> c > 0 && !(g.base <= c < g.base + g.size)
    ensures Sound(s')
  {
    NewTopOwned(s.T, s'.T, s.o, g.base, g.size);
    FrontApart(s.segs, g);
    FrontMaps(s.T, s'.T, s.segs, g);
    FrontPlaced(s.T, s'.T, s.segs, g);
    FrontEnds(s.T, s'.T, s.segs, g, s.o.records);
  }

  /** What there is from top on: top and its foot. */
  ghost predicate TailOf(T: Layout, top: int, foot: int) {
    && top in T && T[top].Chunk? && !T[top].cinuse && T[top].pinuse && foot == top + T[top].size && foot in T &&
      T[foot].Foot?
    && (forall c {:trigger T[c]} :: c in T ==> c + Extent(T[c]) <= top || c == top || c == foot || foot + TOP_FOOT <= c)
    && (forall c {:trigger T[c]} :: c in T && T[c].Chunk? && c + T[c].size == top ==> T[c].cinuse)
  }

  lemma Tail(s: State)
    requires Consistent(s) && s.o.top != 0
    ensures TailOf(s.T, s.o.top, s.o.top + s.o.topsize) && s.T[s.o.top].size == s.o.topsize > 0
    ensures s.o.top > 0 && s.o.top % ALIGN == 0 && s.o.topsize % ALIGN == 0
    ensures s.segs != [] && s.o.top + s.o.topsize + TOP_FOOT == s.segs[0].base + s.segs[0].size &&
      s.segs[0].base <= s.o.top
  {
    var top, foot := s.o.top, s.o.top + s.o.topsize;
    CellAt(s.T, top);
    CellAt(s.T, foot);
    forall c | c in s.T
      ensures c + Extent(s.T[c]) <= top || c == top || c == foot || foot + TOP_FOOT <= c
      ensures s.T[c].Chunk? && c + s.T[c].size == top ==> s.T[c].cinuse
    {
      CellAt(s.T, c);
    }
    TopHome(s);
  }

  /** No address is in two segments. */
  lemma SameSegment(segs: seq<Segment>, i: nat, j: nat, x: int)
    requires Segments.Apart(segs) && i < |segs| && j < |segs|
    requires segs[i].base <= x < segs[i].base + segs[i].size && segs[j].base <= x < segs[j].base + segs[j].size
    ensures i == j
  {
  }

  /** top is in the current segment. */
  lemma TopHome(s: State)
    requires Consistent(s) && s.o.top != 0
    ensures s.segs[0].base <= s.o.top
  {
    var top, foot := s.o.top, s.o.top + s.o.topsize;
    assert Placed(s.T, s.segs, top);
    var i :| 0 <= i < |s.segs| && InSegment(s.segs[i], top, top + Reach(s.T[top]));
    RunOf(s.T, top);
    RunHome(s.T, s.segs, top, foot, i);
    assert Shape(s.segs[0]);
    SameSegment(s.segs, i, 0, foot + TOP_FOOT - 1);
  }

  /** The cells from top on may be replaced by others that start with a chunk in use or a free one. */
  lemma TailSwap(T: Layout, R: Layout, top: int, foot: int, b: int)
    requires TailOf(T, top, foot) && foot + TOP_FOOT <= b && T[top].size > 0
    requires forall c {:trigger T[c]} :: c in T && c >= foot + TOP_FOOT ==> b <= c
    requires forall c {:trigger R[c]} :: c in R ==> top <= c < b && c + Extent(R[c]) <= b
    requires top in R && !R[top].Mapped? && PrevInUse(R[top])
    ensures Swappable(T, R, top, b) && LowEnough(T, top, top + WORD)
  {
  }

  /** All cells but top and its foot stay, and R takes the place of those two. */
  ghost predicate Retailed(T: Layout, T': Layout, R: Layout, top: int, foot: int) {
    && (forall c {:trigger T'[c]} {:trigger c in T'} :: c in T' <==> c in R || (c in T && c != top && c != foot))
    && (forall c {:trigger T'[c]} :: c in T && c != top && c != foot ==> c !in R && T'[c] == T[c])
    && (forall c {:trigger T'[c]} {:trigger R[c]} :: c in R ==> T'[c] == R[c])
    && top in R && R[top].Chunk? && R[top].pinuse
  }

  lemma Retail(T: Layout, T': Layout, R: Layout, top: int, foot: int, b: int)
    requires TailOf(T, top, foot) && foot + TOP_FOOT <= b && Swapped(T, T', R, top, b) && T[top].size > 0
    requires forall c {:trigger T[c]} :: c in T && c >= foot + TOP_FOOT ==> b <= c
    requires forall c {:trigger c in R} :: c in R ==> top <= c < b
    requires forall c {:trigger T[c]} :: c in T ==> Extent(T[c]) > 0
    requires top in R && R[top].Chunk? && R[top].pinuse
    ensures Retailed(T, T', R, top, foot)
  {
    forall c | c in T && c != top && c != foot ensures !(top <= c < b) {
      assert T[c] == T[c];
    }
  }

  lemma RetailedStarts(T: Layout, T': Layout, R: Layout, top: int, foot: int, g: Segment)
    requires Retailed(T, T', R, top, foot) && foot in T && T[foot].Foot? && StartOk(T, g)
    ensures StartOk(T', g)
  {
  }

  lemma RetailedEnds(T: Layout, T': Layout, R: Layout, top: int, foot: int, g: Segment, records: set<int>)
    requires Retailed(T, T', R, top, foot) && foot in T && T[foot].Foot? && top in T && T[top].Chunk? && !T[top].cinuse
    requires EndOk(T, g, records)
    ensures EndOk(T', g, records)
  {
  }

  lemma RetailedFences(T: Layout, T': Layout, R: Layout, top: int, foot: int, records: set<int>, f: int)
    requires Retailed(T, T', R, top, foot) && foot in T && T[foot].Foot? && top in T && T[top].Chunk? && !T[top].cinuse
    requires f in T && FenceOk(T, f, records) && f != foot && forall r :: r in records ==>
      r in T && T[r].Chunk? && T[r].cinuse
    ensures f != top ==> FenceOk(T', f, records)
  {
  }

  /** The current segment's end moves by delta, and top's foot with it. */
  ghost predicate EndMoves(s: State, delta: int) {
    && s.o.top != 0 && s.segs != [] && delta % GRAIN == 0 && s.o.topsize + delta > 0
    && var end := s.segs[0].base + s.segs[0].size;
      delta > 0 ==> end + delta <= SPACE && Vacant(s.T, s.segs, end, delta)
  }

  function Moved(segs: seq<Segment>, delta: int): seq<Segment>
    requires segs != []
  {
    segs[0 := segs[0].(size := segs[0].size + delta)]
  }

  lemma MovedShaped(segs: seq<Segment>, delta: int)
    requires segs != [] && Shaped(segs) && Segments.Apart(segs) && delta % GRAIN == 0 && segs[0].size + delta > 0
    requires var end := segs[0].base + segs[0].size;
      delta > 0 ==> end + delta <= SPACE && forall i {:trigger segs[i]} :: 0 <= i < |segs| ==>
        Disjoint(end, delta, segs[i].base, segs[i].size)
    ensures Shaped(Moved(segs, delta)) && Segments.Apart(Moved(segs, delta))
  {
    assert Shape(segs[0]);
    GrainSum(segs[0].size, delta);
    forall i | 0 <= i < |segs| ensures Shape(Moved(segs, delta)[i]) {
      assert Shape(segs[i]);
    }
    forall i, j | 0 <= i < |segs| && 0 <= j < |segs| && i != j
      ensures Disjoint(Moved(segs, delta)[i].base, Moved(segs, delta)[i].size, Moved(segs, delta)[j].base,
        Moved(segs, delta)[j].size)
    {
      assert Shape(segs[i]) && Shape(segs[j]);
      assert Disjoint(segs[i].base, segs[i].size, segs[j].base, segs[j].size);
    }
  }

  lemma GrainSum(a: int, b: int)
    requires a % GRAIN == 0 && b % GRAIN == 0
    ensures (a + b) % GRAIN == 0
  {
  }

  lemma MovedMaps(T: Layout, T': Layout, R: Layout, top: int, foot: int, segs: seq<Segment>, delta: int)
    requires Tiled(T) && MapsApart(T, segs) && Retailed(T, T', R, top, foot) && segs != [] && segs[0].size + delta > 0
    requires forall c {:trigger R[c]} :: c in R ==> !R[c].Mapped?
    requires delta > 0 ==> Vacant(T, segs, segs[0].base + segs[0].size, delta)
    ensures MapsApart(T', Moved(segs, delta))
  {
    forall c, i | c in T' && T'[c].Mapped? && 0 <= i < |segs| ensures MapApart(T', c, Moved(segs, delta)[i]) {
      assert c !in R && T'[c] == T[c];
      CellAt(T, c);
      assert MapApart(T, c, segs[i]);
      if delta > 0 { assert VacantBy(T, c, segs[0].base + segs[0].size, delta); }
    }
  }

  lemma MovedPlaced(T: Layout, T': Layout, top: int, foot: int, segs: seq<Segment>, topsize: int, delta: int)
    requires AllPlaced(T, segs) && Retailed(T, T', TopCells(top, topsize), top, foot) && segs != [] && topsize > 0
    requires segs[0].base <= top && top + topsize + TOP_FOOT == segs[0].base + segs[0].size + delta
    requires TailOf(T, top, foot) && foot + TOP_FOOT == segs[0].base + segs[0].size && Segments.Apart(segs) &&
      Shaped(segs) && Tiled(T)
    ensures AllPlaced(T', Moved(segs, delta))
  {
    forall c | c in T' ensures Placed(T', Moved(segs, delta), c) {
      if c in TopCells(top, topsize) {
        assert InSegment(Moved(segs, delta)[0], c, c + Reach(T'[c]));
      } else {
        assert T'[c] == T[c];
        assert Placed(T, segs, c);
        if !T[c].Mapped? {
          var i :| 0 <= i < |segs| && InSegment(segs[i], c, c + Reach(T[c]));
          CellAt(T, c);
          assert InSegment(Moved(segs, delta)[i], c, c + Reach(T'[c]));
        }
      }
    }
  }

  lemma MovedEnds(T: Layout, T': Layout, top: int, foot: int, segs: seq<Segment>, topsize: int, delta: int,
      records: set<int>)
    requires Ends(T, segs, records) && Retailed(T, T', TopCells(top, topsize), top, foot) && segs != [] && topsize > 0
    requires TailOf(T, top, foot) && forall r :: r in records ==> r in T && T[r].Chunk? && T[r].cinuse
    ensures Ends(T', Moved(segs, delta), records)
  {
    var segs' := Moved(segs, delta);
    forall i | 0 <= i < |segs'| ensures StartOk(T', segs'[i]) {
      assert StartOk(T, segs[i]);
      RetailedStarts(T, T', TopCells(top, topsize), top, foot, segs[i]);
    }
    forall i | 1 <= i < |segs'| ensures EndOk(T', segs'[i], records) {
      assert EndOk(T, segs[i], records);
      RetailedEnds(T, T', TopCells(top, topsize), top, foot, segs[i], records);
    }
    forall r | r in records ensures exists i :: 1 <= i < |segs'| && segs'[i].record == r {
      var i :| 1 <= i < |segs| && segs[i].record == r;
      assert segs'[i].record == r;
    }
    forall f | f in T' ensures FenceOk(T', f, records) {
      if f !in TopCells(top, topsize) {
        assert FenceOk(T, f, records);
        RetailedFences(T, T', TopCells(top, topsize), top, foot, records, f);
      }
    }
  }

  lemma MovedOwned(T: Layout, T': Layout, o: Owners, foot: int, topsize: int)
    requires Owned(T, o) && o.top != 0 && TailOf(T, o.top, foot) && topsize > 0
    requires Retailed(T, T', TopCells(o.top, topsize), o.top, foot)
    ensures Owned(T', o.(topsize := topsize))
  {
    forall c | c in T' ensures Held(T', o.(topsize := topsize), c) {
      if c in T && c != o.top && c != foot { assert Held(T, o, c); }
    }
  }

  /** Cells that may take the place of top and its foot. */
  ghost predicate Fills(R: Layout, top: int, b: int) {
    && top in R && R[top].Chunk? && R[top].pinuse
    && (forall c {:trigger c in R} :: c in R ==> top <= c < b)
    && (forall c {:trigger R[c]} :: c in R ==>
      c + Extent(R[c]) <= b && !R[c].Mapped? && (R[c].Chunk? ==> c + R[c].size in R))
  }

  /** The cells from top on are replaced. */
  lemma ReplaceTail(m: Memory, m': Memory, T: Layout, R: Layout, top: int, foot: int, b: int) returns (T': Layout)
    requires Tiled(T) && Written(m, T) && Tiled(R) && Written(m', R) && WritesIn(m, m', top + WORD, b)
    requires TailOf(T, top, foot) && foot + TOP_FOOT <= b && top % ALIGN == 0 && Fills(R, top, b)
    requires forall c {:trigger T[c]} :: c in T && c >= foot + TOP_FOOT ==> b <= c
    ensures Tiled(T') && Written(m', T') && Retailed(T, T', R, top, foot) && Swapped(T, T', R, top, b) &&
      Swappable(T, R, top, b)
  {
    forall c | c in T ensures Extent(T[c]) > 0 { CellAt(T, c); }
    TailSwap(T, R, top, foot, b);
    T' := SwapIs(T, R, top, b);
    Retail(T, T', R, top, foot, b);
    SwapTiled(T, T', R, top, b);
    SwapWritten(m, m', T, T', R, top, b);
  }

  lemma TopFills(top: int, topsize: int, b: int)
    requires topsize > 0 && top + topsize + TOP_FOOT <= b
    ensures Fills(TopCells(top, topsize), top, b)
  {
    var R := TopCells(top, topsize);
    forall c | c in R ensures top <= c < b && c + Extent(R[c]) <= b && (R[c].Chunk? ==> c + R[c].size in R) {
      assert c == top || c == top + topsize;
    }
  }

  /** The cells once the end has moved. */
  lemma MovedCells(s: State, delta: int) returns (T': Layout)
    requires Consistent(s) && EndMoves(s, delta)
    ensures var m', top, foot := TopWords(s.m, s.o.top, s.o.topsize + delta), s.o.top, s.o.top + s.o.topsize;
      var R, b := TopCells(top, s.o.topsize + delta), if delta > 0 then foot + delta + TOP_FOOT else foot + TOP_FOOT;
      && Tiled(T') && Written(m', T') && Retailed(s.T, T', R, top, foot) && TailOf(s.T, top, foot)
      && Swapped(s.T, T', R, top, b) && Swappable(s.T, R, top, b) && WritesIn(s.m, m', top + WORD, b) &&
        top % ALIGN == 0
      && s.segs[0].base <= top && foot + TOP_FOOT == s.segs[0].base + s.segs[0].size
  {
    var m', top, foot := TopWords(s.m, s.o.top, s.o.topsize + delta), s.o.top, s.o.top + s.o.topsize;
    var R, b := TopCells(top, s.o.topsize + delta), if delta > 0 then foot + delta + TOP_FOOT else foot + TOP_FOOT;
    Tail(s);
    GrainAligned(s.o.topsize, delta);
    TopCellsOk(s.m, top, s.o.topsize + delta);
    assert Shape(s.segs[0]);
    TopFills(top, s.o.topsize + delta, b);
    forall c | c in s.T && delta > 0 ensures c >= foot + TOP_FOOT ==> b <= c {
      Clearance(s.T, s.segs, foot + TOP_FOOT, delta, c);
    }
    T' := ReplaceTail(s.m, m', s.T, R, top, foot, b);
  }

  lemma GrainAligned(n: int, delta: int)
    requires n % ALIGN == 0 && delta % GRAIN == 0
    ensures (n + delta) % ALIGN == 0
  {
    Eighth(n + delta, n / ALIGN + 8192 * (delta / GRAIN));
  }

  lemma MoveEnd(s: State, delta: int) returns (s': State)
    requires Sound(s) && EndMoves(s, delta)
    ensures s'.m == TopWords(s.m, s.o.top, s.o.topsize + delta) && s'.segs == Moved(s.segs, delta)
    ensures s'.o == s.o.(topsize := s.o.topsize + delta)
    ensures Sound(s') && Preserved(s, s', 0) && SameMaps(s.T, s'.T)
  {
    assert Look(0);
    var T' := MovedCells(s, delta);
    s' := State(TopWords(s.m, s.o.top, s.o.topsize + delta), T', s.o.(topsize := s.o.topsize + delta),
      Moved(s.segs, delta));
    MovedSound(s, s', delta);
    var foot := s.o.top + s.o.topsize;
    var R, b := TopCells(s.o.top, s.o.topsize + delta), if delta > 0 then foot + delta + TOP_FOOT else foot + TOP_FOOT;
    forall c | c in s.o.live ensures Intact(s, s', c) {
      CellAt(s.T, c);
      SwapIntact(s, s', R, s.o.top, s.o.top + WORD, b, c);
    }
    forall c ensures SameMap(s.T, T', c) { }
  }

  lemma MovedSound(s: State, s': State, delta: int)
    requires Consistent(s) && EndMoves(s, delta) && s'.segs == Moved(s.segs, delta) &&
      s'.o == s.o.(topsize := s.o.topsize + delta)
    requires Tiled(s'.T) && Written(s'.m, s'.T)
    requires Retailed(s.T, s'.T, TopCells(s.o.top, s.o.topsize + delta), s.o.top, s.o.top + s.o.topsize)
    ensures Sound(s')
  {
    var top, foot, topsize := s.o.top, s.o.top + s.o.topsize, s.o.topsize + delta;
    Tail(s);
    MovedShaped(s.segs, delta);
    MovedMaps(s.T, s'.T, TopCells(top, topsize), top, foot, s.segs, delta);
    MovedPlaced(s.T, s'.T, top, foot, s.segs, topsize, delta);
    MovedEnds(s.T, s'.T, top, foot, s.segs, topsize, delta, s.o.records);
    MovedOwned(s.T, s'.T, s.o, foot, topsize);
  }
}
