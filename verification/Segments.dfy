/** The regions malloc.c has mapped: segments of chunks, and directly mapped chunks on their own. */
module Segments {
  import opened Tiling

  /** record is the chunk that keeps the segment's entry in the list; the first entry is static. */
  datatype Segment = Segment(base: int, size: int, record: int)

  const SPACE := 0x1_0000_0000
  const PAGE := 4096
  const GRAIN := 0x1_0000

  predicate InSegment(g: Segment, a: int, b: int) {
    g.base <= a && b <= g.base + g.size
  }

  /** The last byte a cell needs: a chunk also needs a cell behind it. */
  function Reach(cell: Cell): int {
    Extent(cell) + if cell.Chunk? then 1 else 0
  }

  ghost predicate Placed(T: Layout, segs: seq<Segment>, c: int)
    requires c in T
  {
    T[c].Mapped? || exists i :: 0 <= i < |segs| && InSegment(segs[i], c, c + Reach(T[c]))
  }

  predicate Disjoint(a: int, m: int, b: int, n: int) {
    a + m <= b || b + n <= a
  }

  /** The region of a directly mapped chunk. */
  function RegionStart(T: Layout, c: int): int
    requires c in T && T[c].Mapped?
  {
    c - T[c].offset
  }

  function RegionSize(T: Layout, c: int): int
    requires c in T && T[c].Mapped?
  {
    T[c].offset + Extent(T[c])
  }

  ghost predicate Apart(segs: seq<Segment>) {
    forall i, j :: 0 <= i < |segs| && 0 <= j < |segs| && i != j ==>
      Disjoint(segs[i].base, segs[i].size, segs[j].base, segs[j].size)
  }

  predicate Shape(g: Segment) {
    0 < g.base && g.base % PAGE == 0 && g.size > 0 && g.size % GRAIN == 0 && g.base + g.size <= SPACE
  }

  ghost predicate Shaped(segs: seq<Segment>) {
    forall i {:trigger Shape(segs[i])} :: 0 <= i < |segs| ==> Shape(segs[i])
  }

  /** Mapped chunks keep clear of the segments. */
  ghost predicate MapsApart(T: Layout, segs: seq<Segment>) {
    forall c, i {:trigger MapApart(T, c, segs[i])} :: c in T && T[c].Mapped? && 0 <= i < |segs| ==>
      MapApart(T, c, segs[i])
  }

  predicate MapApart(T: Layout, c: int, g: Segment)
    requires c in T && T[c].Mapped?
  {
    Disjoint(RegionStart(T, c), RegionSize(T, c), g.base, g.size)
  }

  /** A segment starts with a chunk that has nothing before it. */
  predicate StartOk(T: Layout, g: Segment) {
    g.base in T && T[g.base].Chunk? && T[g.base].pinuse
  }

  /** Every segment but the current one ends in its record and a fence. */
  predicate EndOk(T: Layout, g: Segment, records: set<int>) {
    var r, end := g.record, g.base + g.size;
    && r in records && r in T && T[r].Chunk? && T[r].cinuse && T[r].size == 24
    && r + 24 in T && T[r + 24] == Fence(end - r - 24)
    && g.base <= r && end - 48 <= r <= end - 40
  }

  ghost predicate Ends(T: Layout, segs: seq<Segment>, records: set<int>) {
    && (forall i :: 0 <= i < |segs| ==> StartOk(T, segs[i]))
    && (forall i :: 1 <= i < |segs| ==> EndOk(T, segs[i], records))
    && (forall r :: r in records ==> exists i :: 1 <= i < |segs| && segs[i].record == r)
    && (forall f {:trigger FenceOk(T, f, records)} :: f in T ==> FenceOk(T, f, records))
  }

  /** What is before a fence is a record. */
  predicate FenceOk(T: Layout, f: int, records: set<int>)
    requires f in T
  {
    T[f].Fence? ==> f - 24 in records && f - 24 in T && T[f - 24].Chunk? && T[f - 24].size == 24
  }

  /** Top's foot is the only one, at the very end of the current segment. */
  ghost predicate FootOk(T: Layout, segs: seq<Segment>, foot: int) {
    && (segs != [] ==> foot + TOP_FOOT == segs[0].base + segs[0].size)
    && (forall f {:trigger T[f].Foot?} :: f in T && T[f].Foot? ==> f == foot)
  }

  ghost predicate AllPlaced(T: Layout, segs: seq<Segment>) {
    forall c {:trigger Placed(T, segs, c)} :: c in T ==> Placed(T, segs, c)
  }

  ghost predicate SegmentsOk(T: Layout, segs: seq<Segment>, records: set<int>, foot: int) {
    && Shaped(segs) && Apart(segs) && AllPlaced(T, segs) && MapsApart(T, segs)
    && Ends(T, segs, records) && FootOk(T, segs, foot)
  }

  /** The cell behind a chunk is in the same segment. */
  lemma NextHome(T: Layout, segs: seq<Segment>, c: int, i: nat)
    requires Tiled(T) && AllPlaced(T, segs) && Apart(segs) && c in T && T[c].Chunk?
    requires i < |segs| && InSegment(segs[i], c, c + Reach(T[c]))
    ensures var n := c + T[c].size; n in T && !T[n].Mapped? && InSegment(segs[i], n, n + Reach(T[n]))
  {
    assert CellOk(T, c);
    var n := c + T[c].size;
    assert CellOk(T, n) && Placed(T, segs, n);
    var j :| 0 <= j < |segs| && InSegment(segs[j], n, n + Reach(T[n]));
    if i != j { assert Disjoint(segs[i].base, segs[i].size, segs[j].base, segs[j].size); }
  }

  /** A run of chunks lies in one segment, with room behind it. */
  lemma {:induction false} RunHome(T: Layout, segs: seq<Segment>, a: int, b: int, i: nat)
    requires Tiled(T) && AllPlaced(T, segs) && Apart(segs) && Run(T, a, b)
    requires i < |segs| && InSegment(segs[i], a, a + Reach(T[a]))
    ensures InSegment(segs[i], a, b + Reach(T[b]))
    decreases b - a
  {
    var n := a + T[a].size;
    assert CellOk(T, a);
    NextHome(T, segs, a, i);
    if n < b {
      RunHome(T, segs, n, b, i);
    }
  }

  /** What a run becomes stays in the segment, and no segment starts inside it. */
  lemma StartsKept(T: Layout, T': Layout, segs: seq<Segment>, a: int, b: int, i: nat, j: nat)
    requires Tiled(T) && Apart(segs) && Shaped(segs) && SameOutside(T, T', a, b) && a < b
    requires i < |segs| && j < |segs| && InSegment(segs[i], a, b + Reach(T[b])) && StartOk(T, segs[j])
    ensures StartOk(T', segs[j])
  {
    CellAt(T, b);
    assert Shape(segs[j]);
    if i != j { assert Disjoint(segs[i].base, segs[i].size, segs[j].base, segs[j].size); }
  }

  lemma EndKept(T: Layout, T': Layout, g: Segment, records: set<int>, a: int, b: int)
    requires Tiled(T) && SameOutside(T, T', a, b) && Run(T, a, b) && EndOk(T, g, records)
    requires forall r :: r in records ==> !(a <= r < b)
    ensures EndOk(T', g, records)
  {
    assert CellOk(T, g.record) && CellOk(T, a);
  }

  lemma ReachPositive(T: Layout, c: int)
    requires Tiled(T) && c in T
    ensures Reach(T[c]) > 0
  {
    assert CellOk(T, c);
  }

  lemma PlacedKept(T: Layout, T': Layout, segs: seq<Segment>, a: int, b: int, i: nat, c: int)
    requires AllPlaced(T, segs) && SameOutside(T, T', a, b) && a < b
    requires i < |segs| && InSegment(segs[i], a, b + Reach(T[b])) && Reach(T[b]) > 0
    requires c in T' && (a <= c < b ==> T'[c].Chunk? && c + T'[c].size <= b)
    ensures Placed(T', segs, c)
  {
    if a <= c < b {
      assert InSegment(segs[i], c, c + Reach(T'[c]));
    } else if c == b {
      assert InSegment(segs[i], c, c + Reach(T'[c]));
    } else {
      assert Placed(T, segs, c);
    }
  }

  lemma EndsKept(T: Layout, T': Layout, segs: seq<Segment>, records: set<int>, a: int, b: int, i: nat)
    requires Tiled(T) && Apart(segs) && Shaped(segs) && Ends(T, segs, records) && SameOutside(T, T', a, b) &&
      Run(T, a, b)
    requires i < |segs| && InSegment(segs[i], a, b + Reach(T[b]))
    requires forall r :: r in records ==> !(a <= r < b)
    requires forall c :: c in T' && a <= c < b ==> T'[c].Chunk?
    ensures Ends(T', segs, records)
  {
    forall j | 0 <= j < |segs| ensures StartOk(T', segs[j]) { StartsKept(T, T', segs, a, b, i, j); }
    forall j | 1 <= j < |segs| ensures EndOk(T', segs[j], records) { EndKept(T, T', segs[j], records, a, b); }
    forall f | f in T' ensures FenceOk(T', f, records) {
      if T'[f].Fence? { assert f in T && FenceOk(T, f, records); }
    }
  }

  /** Nothing but a record comes before a fence. */
  lemma BeforeFence(T: Layout, segs: seq<Segment>, records: set<int>, c: int)
    requires Tiled(T) && Ends(T, segs, records) && c in T && T[c].Chunk? && c + T[c].size in T &&
      T[c + T[c].size].Fence?
    ensures c in records
  {
    var r := c + T[c].size - 24;
    assert FenceOk(T, c + T[c].size, records);
    assert CellOk(T, c) && CellOk(T, r);
  }

  lemma MapsKept(T: Layout, T': Layout, segs: seq<Segment>, a: int, b: int)
    requires MapsApart(T, segs) && SameOutside(T, T', a, b)
    requires forall c :: c in T' && a <= c < b ==> T'[c].Chunk?
    ensures MapsApart(T', segs)
  {
    forall c, i | c in T' && T'[c].Mapped? && 0 <= i < |segs| ensures MapApart(T', c, segs[i]) {
      assert MapApart(T, c, segs[i]);
    }
  }

  lemma FootStays(T: Layout, T': Layout, segs: seq<Segment>, foot: int, a: int, b: int)
    requires FootOk(T, segs, foot) && SameOutside(T, T', a, b)
    requires forall c :: c in T' && a <= c < b ==> T'[c].Chunk?
    ensures FootOk(T', segs, foot)
  {
  }

  /** What the chunks of a run become respects the segments like the run did. */
  lemma SegmentsKept(T: Layout, T': Layout, segs: seq<Segment>, records: set<int>, foot: int, a: int, b: int)
    requires Tiled(T) && SegmentsOk(T, segs, records, foot) && SameOutside(T, T', a, b) && Run(T, a, b)
    requires forall r :: r in records ==> !(a <= r < b)
    requires forall c :: c in T' && a <= c < b ==> T'[c].Chunk? && c + T'[c].size <= b
    ensures SegmentsOk(T', segs, records, foot)
  {
    assert Placed(T, segs, a);
    var i :| 0 <= i < |segs| && InSegment(segs[i], a, a + Reach(T[a]));
    RunHome(T, segs, a, b, i);
    ReachPositive(T, b);
    EndsKept(T, T', segs, records, a, b, i);
    MapsKept(T, T', segs, a, b);
    FootStays(T, T', segs, foot, a, b);
    forall c | c in T' ensures Placed(T', segs, c) { PlacedKept(T, T', segs, a, b, i, c); }
  }
}
