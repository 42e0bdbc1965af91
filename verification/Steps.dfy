/** The steps every operation of malloc.c is made of: chunks lose their owner, are joined or cut, and get one again. */
module Steps {
  import opened Tiling
  import opened Words
  import opened Ownership
  import opened Segments

  /** Memory, what is in it, who owns it, and the regions it lies in. */
  datatype State = State(m: Memory, T: Layout, o: Owners, segs: seq<Segment>)

  /** To mention it makes the definitions of Sound and Gapped available, which keeps them out of proofs that have no
      use for them. */
  ghost predicate Look(u: int) { true }

  ghost predicate Consistent(s: State) {
    && Tiled(s.T) && Written(s.m, s.T) && Owned(s.T, s.o)
    && SegmentsOk(s.T, s.segs, s.o.records, s.o.top + s.o.topsize)
    && (s.o.top == 0 <==> s.segs == [])
  }

  ghost predicate Sound(s: State) {
    forall u {:trigger Look(u)} :: Look(u) ==> Consistent(s)
  }

  ghost predicate Unowned(s: State, foot: int, a: int, b: int) {
    && Tiled(s.T) && Written(s.m, s.T) && OwnedBut(s.T, s.o, a, b)
    && SegmentsOk(s.T, s.segs, s.o.records, foot) && s.segs != []
    && (s.o.top == 0 || s.o.top + s.o.topsize == foot)
  }

  /** The chunks from a to b have no owner for the moment; foot is where top ends. */
  ghost predicate Gapped(s: State, foot: int, a: int, b: int) {
    Run(s.T, a, b) && forall u {:trigger Look(u)} :: Look(u) ==> Unowned(s, foot, a, b)
  }

  function Release(s: State, c: int): State {
    s.(o := Drop(s.o, c))
  }

  lemma Open(s: State, c: int)
    requires Sound(s) && c in s.T && s.T[c].Chunk? && c !in s.o.records
    ensures Gapped(Release(s, c), s.o.top + s.o.topsize, c, c + s.T[c].size)
  {
    assert Look(0);
    OpenAt(s.T, s.o, c);
    TakeOut(s.T, s.o, c, c, c);
    RunOf(s.T, c);
    assert Placed(s.T, s.segs, c);
  }

  /** The chunk behind the gap joins it. */
  lemma WidenUp(s: State, foot: int, a: int, b: int)
    requires Gapped(s, foot, a, b) && s.T[b].Chunk? && b !in s.o.records
    ensures Gapped(Release(s, b), foot, a, b + s.T[b].size)
  {
    assert Look(0);
    TakeOut(s.T, s.o, a, b, b);
    RunOf(s.T, b);
    RunJoin(s.T, a, b, b + s.T[b].size);
  }

  /** The chunk before the gap joins it. */
  lemma WidenDown(s: State, foot: int, a: int, b: int, c: int)
    requires Gapped(s, foot, a, b) && c in s.T && s.T[c].Chunk? && c + s.T[c].size == a && c !in s.o.records
    ensures Gapped(Release(s, c), foot, c, b)
  {
    assert Look(0);
    assert CellOk(s.T, c);
    TakeOut(s.T, s.o, a, b, c);
    RunOf(s.T, c);
    RunJoin(s.T, c, a, b);
  }

  /** The chunk that fills the gap may go to this owner. */
  predicate Fits(cell: Cell, next: Cell, o: Owners, role: Role) {
    cell.Chunk? && match role {
      case User => cell.cinuse && cell.size >= MIN_CHUNK
      case Bin => !cell.cinuse && cell.size >= MIN_CHUNK
      case Victim => !cell.cinuse && cell.size >= MIN_CHUNK && o.dv == 0
      case Top => !cell.cinuse && next.Foot? && o.top == 0
    }
  }

  /** The gap becomes one chunk, in use if u. */
  lemma CloseOne(s: State, foot: int, a: int, b: int, u: bool, role: Role, m': Memory, T': Layout) returns (s': State)
    requires Gapped(s, foot, a, b) && CanEnd(s.T[b], u) && (u || s.T[a].pinuse) && IsOne(s.T, T', a, b, u)
    requires Fits(Chunk(b - a, u, true), s.T[b], s.o, role) && (s.o.top != 0 <==> role != Top)
    requires Written(m', T')
    ensures s' == State(m', T', Give(s.o, a, b - a, role), s.segs) && Sound(s')
  {
    assert Look(0);
    OneTiled(s.T, T', a, b, u);
    SameOwners(s.T, T', s.o, a, b);
    OneHanded(T', s.o, a, b, role);
    SegmentsKept(s.T, T', s.segs, s.o.records, foot, a, b);
    s' := State(m', T', Give(s.o, a, b - a, role), s.segs);
  }

  lemma OneHanded(T: Layout, o: Owners, a: int, b: int, role: Role)
    requires Tiled(T) && OwnedBut(T, o, a, b) && a in T && b in T
    requires T[a].Chunk? && T[a].size == b - a && Fits(T[a], T[b], o, role)
    ensures Owned(T, Give(o, a, b - a, role))
  {
    HandOver(T, o, a, b, role);
    Closed(T, Give(o, a, b - a, role), b, b);
  }

  /** The gap becomes two chunks. */
  lemma CloseTwo(s: State, foot: int, a: int, b: int, n: int, u: bool, v: bool, first: Role, second: Role, m': Memory,
      T': Layout) returns (s': State)
    requires Gapped(s, foot, a, b) && CanEnd(s.T[b], v) && (u || s.T[a].pinuse) && (u || v)
    requires 0 < n < b - a && n % ALIGN == 0 && IsTwo(s.T, T', a, b, n, u, v)
    requires Fits(Chunk(n, u, true), Chunk(b - a - n, v, u), s.o, first)
    requires Fits(Chunk(b - a - n, v, u), s.T[b], Give(s.o, a, n, first), second)
    requires s.o.top != 0 <==> second != Top
    requires Written(m', T')
    ensures s' == State(m', T', Give(Give(s.o, a, n, first), a + n, b - a - n, second), s.segs) && Sound(s')
  {
    assert Look(0);
    TwoTiled(s.T, T', a, b, n, u, v);
    SameOwners(s.T, T', s.o, a, b);
    SegmentsKept(s.T, T', s.segs, s.o.records, foot, a, b);
    TwoHanded(T', s.o, a, b, n, first, second);
    s' := State(m', T', Give(Give(s.o, a, n, first), a + n, b - a - n, second), s.segs);
  }

  lemma TwoHanded(T: Layout, o: Owners, a: int, b: int, n: int, first: Role, second: Role)
    requires Tiled(T) && OwnedBut(T, o, a, b) && a in T && a + n in T && b in T
    requires T[a].Chunk? && T[a].size == n && T[a + n].Chunk? && T[a + n].size == b - a - n
    requires Fits(T[a], T[a + n], o, first) && Fits(T[a + n], T[b], Give(o, a, n, first), second)
    ensures Owned(T, Give(Give(o, a, n, first), a + n, b - a - n, second))
  {
    CellAt(T, a + n);
    HandOver(T, o, a, b, first);
    HandOver(T, Give(o, a, n, first), a + n, b, second);
    Closed(T, Give(Give(o, a, n, first), a + n, b - a - n, second), b, b);
  }
}
