/** The chunk layout of malloc.c: which addresses hold a chunk header, and what the header says. */

/**
  * A header is the head word of one chunk: its size, its own in-use bit and
  * the in-use bit of the chunk before it. A segment ends in a fence (a
  * fencepost) or, if it holds `top`, in the foot that follows top. A directly
  * mapped chunk has neither bit set and keeps its offset inside the mapping.
  */
module Tiling {
  datatype Cell =
    | Chunk(size: int, cinuse: bool, pinuse: bool)
    | Fence(room: int)
    | Foot
    | Mapped(size: int, offset: int)

  type Layout = map<int, Cell>

  const WORD := 4
  const ALIGN := 8
  const MIN_CHUNK := 16
  const TOP_FOOT := 40

  /** The bytes of address space a cell stands for, from its address up. */
  function Extent(cell: Cell): int {
    match cell
    case Chunk(s, _, _) => s
    case Fence(room) => room
    case Foot => TOP_FOOT
    case Mapped(s, _) => s + 4 * WORD
  }

  /** The previous-in-use bit in a head word; top's foot has it clear. */
  function PrevInUse(cell: Cell): bool {
    match cell
    case Chunk(_, _, p) => p
    case Fence(_) => true
    case Foot => false
    case Mapped(_, _) => false
  }

  ghost predicate Clear(T: Layout, a: int, b: int) {
    forall d :: d in T ==> !(a < d < b)
  }

  /** The chunk at c reaches another cell, which knows whether c is in use. */
  ghost predicate Next(T: Layout, c: int)
    requires c in T && T[c].Chunk?
  {
    var s := T[c].size;
    s > 0 && s % ALIGN == 0 && c + s in T && !T[c + s].Mapped? && PrevInUse(T[c + s]) == T[c].cinuse
  }

  /** What the debug checkers of malloc.c demand of the cell at c. */
  ghost predicate CellOk(T: Layout, c: int)
    requires c in T
  {
    && c > 0 && c % ALIGN == 0
    && Clear(T, c, c + Extent(T[c]))
    && match T[c] {
      case Chunk(_, u, p) =>
        && Next(T, c)
        && (!u ==> p)
        && (!p ==> Precedes(T, c))
      case Fence(room) => room > 0
      case Foot => true
      case Mapped(s, o) => s > 0 && 0 <= o
    }
  }

  /** A free chunk ends at c. */
  ghost predicate Precedes(T: Layout, c: int) {
    exists d :: EndsAt(T, d, c)
  }

  predicate EndsAt(T: Layout, d: int, c: int) {
    d in T && T[d].Chunk? && !T[d].cinuse && d + T[d].size == c
  }

  ghost predicate Tiled(T: Layout) {
    forall c {:trigger CellOk(T, c)} :: c in T ==> CellOk(T, c)
  }

  lemma CellAt(T: Layout, c: int)
    requires Tiled(T) && c in T
    ensures CellOk(T, c)
  {
  }

  function WithPrev(cell: Cell, u: bool): Cell {
    if cell.Chunk? then cell.(pinuse := u) else cell
  }

  function Without(T: Layout, a: int, b: int): Layout {
    map c | c in T && !(a <= c < b) :: T[c]
  }

  /** The chunks between a and b become one chunk. */
  function One(T: Layout, a: int, b: int, u: bool): Layout
    requires a in T && T[a].Chunk? && b in T
  {
    Without(T, a, b)[a := Chunk(b - a, u, T[a].pinuse)][b := WithPrev(T[b], u)]
  }

  /** The chunks between a and b become a chunk of n bytes and one with the rest. */
  function Two(T: Layout, a: int, b: int, n: int, u: bool, v: bool): Layout
    requires a in T && T[a].Chunk? && b in T
  {
    Without(T, a, b)[a := Chunk(n, u, T[a].pinuse)][a + n := Chunk(b - a - n, v, u)][b := WithPrev(T[b], v)]
  }

  /** Consecutive chunks fill the space from a to b. */
  ghost predicate Run(T: Layout, a: int, b: int) {
    && a in T && T[a].Chunk? && a < b && b in T && !T[b].Mapped?
    && forall d :: d in T && a <= d < b ==> T[d].Chunk?
  }

  lemma RunOf(T: Layout, c: int)
    requires Tiled(T) && c in T && T[c].Chunk?
    ensures Run(T, c, c + T[c].size)
  {
    assert CellOk(T, c);
  }

  lemma RunJoin(T: Layout, a: int, b: int, c: int)
    requires Run(T, a, b) && Run(T, b, c)
    ensures Run(T, a, c)
  {
  }

  /** The last chunk of a run may be in use or not, as far as what follows it goes. */
  ghost predicate CanEnd(cell: Cell, u: bool) {
    match cell
    case Chunk(_, c, _) => u || c
    case Fence(_) => u
    case Foot => !u
    case Mapped(_, _) => false
  }

  /** T' has exactly one chunk between a and b, in use if u. */
  ghost predicate IsOne(T: Layout, T': Layout, a: int, b: int, u: bool) {
    SameOutside(T, T', a, b) && T'[a].size == b - a && T'[a].cinuse == u && PrevInUse(T'[b]) == u && Clear(T', a, b)
  }

  /** T' has exactly two chunks between a and b, in use if u and v. */
  ghost predicate IsTwo(T: Layout, T': Layout, a: int, b: int, n: int, u: bool, v: bool) {
    && SameOutside(T, T', a, b)
    && T'[a].size == n && T'[a].cinuse == u && Clear(T', a, a + n)
    && a + n in T' && T'[a + n] == Chunk(b - a - n, v, u) && Clear(T', a + n, b)
    && PrevInUse(T'[b]) == v
  }

  lemma MakeOne(T: Layout, a: int, b: int, u: bool) returns (T': Layout)
    requires Run(T, a, b) && CanEnd(T[b], u)
    ensures IsOne(T, T', a, b, u)
  {
    T' := One(T, a, b, u);
  }

  lemma MakeTwo(T: Layout, a: int, b: int, n: int, u: bool, v: bool) returns (T': Layout)
    requires Run(T, a, b) && CanEnd(T[b], v) && 0 < n < b - a
    ensures IsTwo(T, T', a, b, n, u, v)
  {
    T' := Two(T, a, b, n, u, v);
  }

  lemma OneTiled(T: Layout, T': Layout, a: int, b: int, u: bool)
    requires Tiled(T) && Run(T, a, b) && CanEnd(T[b], u) && (u || T[a].pinuse) && IsOne(T, T', a, b, u)
    ensures Tiled(T')
  {
    CellAt(T, a);
    CellAt(T, b);
    First(T, T', a, b);
    After(T, T', a, b, a);
    forall c | c in T' && c != a && c != b ensures CellOk(T', c) {
      Elsewhere(T, T', a, b, c);
    }
  }

  lemma TwoTiled(T: Layout, T': Layout, a: int, b: int, n: int, u: bool, v: bool)
    requires Tiled(T) && Run(T, a, b) && IsTwo(T, T', a, b, n, u, v) && CanEnd(T[b], v)
    requires (u || T[a].pinuse) && (u || v) && 0 < n < b - a && n % ALIGN == 0
    ensures Tiled(T')
  {
    CellAt(T, a);
    CellAt(T, b);
    First(T, T', a, b);
    Second(T', a, b, n);
    After(T, T', a, b, a + n);
    forall c | c in T' && c != a && c != b && c != a + n ensures CellOk(T', c) {
      Elsewhere(T, T', a, b, c);
    }
  }

  /** The chunk that now starts the run. */
  lemma First(T: Layout, T': Layout, a: int, b: int)
    requires Tiled(T) && SameOutside(T, T', a, b) && a < b
    requires Next(T', a) && Clear(T', a, a + T'[a].size) && (T'[a].cinuse || T[a].pinuse)
    ensures CellOk(T', a)
  {
    assert CellOk(T, a) && CellOk(T, b);
    if !T[a].pinuse { StillPrecedes(T, T', a, b, a); }
  }

  /** The chunk that was cut off the first. */
  lemma Second(T: Layout, a: int, b: int, n: int)
    requires a in T && T[a].Chunk? && a + n in T && T[a + n].Chunk? && T[a].size == n
    requires Next(T, a) && Next(T, a + n) && Clear(T, a + n, b) && a + n + T[a + n].size == b
    requires a > 0 && a % ALIGN == 0 && n > 0 && n % ALIGN == 0 && (T[a].cinuse || T[a + n].cinuse)
    ensures CellOk(T, a + n)
  {
    if !T[a].cinuse { assert EndsAt(T, a, a + n); }
  }

  /** What follows the run, of which d is the last chunk. */
  lemma After(T: Layout, T': Layout, a: int, b: int, d: int)
    requires Tiled(T) && SameOutside(T, T', a, b) && a < b
    requires d in T' && T'[d].Chunk? && d + T'[d].size == b && Next(T', d) && CanEnd(T[b], T'[d].cinuse)
    ensures CellOk(T', b)
  {
    assert CellOk(T, b);
    if !T'[d].cinuse { assert EndsAt(T', d, b); }
  }

  /** T' differs from T only between a and b, and in the previous-in-use bit at b. */
  ghost predicate SameOutside(T: Layout, T': Layout, a: int, b: int) {
    && (forall c :: c in T && !(a <= c <= b) ==> c in T' && T'[c] == T[c])
    && (forall c :: c in T' && !(a <= c <= b) ==> c in T)
    && a in T && a in T' && T[a].Chunk? && T'[a].Chunk? && T[a].pinuse == T'[a].pinuse
    && b in T && b in T' && !T[b].Mapped? && T'[b] == WithPrev(T[b], PrevInUse(T'[b]))
  }

  lemma StillPrecedes(T: Layout, T': Layout, a: int, b: int, c: int)
    requires Tiled(T) && SameOutside(T, T', a, b) && a < b && !(a < c <= b)
    requires c in T && T[c].Chunk? && !T[c].pinuse
    ensures Precedes(T', c)
  {
    assert CellOk(T, c) && CellOk(T, b) && CellOk(T, a);
    var d :| EndsAt(T, d, c);
    assert CellOk(T, d);
    assert EndsAt(T', d, c);
  }

  lemma Elsewhere(T: Layout, T': Layout, a: int, b: int, c: int)
    requires Tiled(T) && SameOutside(T, T', a, b) && a < b
    requires c in T && !(a <= c <= b)
    ensures CellOk(T', c)
  {
    assert CellOk(T, c) && CellOk(T, b) && CellOk(T, a);
    if T[c].Chunk? && !T[c].pinuse { StillPrecedes(T, T', a, b, c); }
  }
}
