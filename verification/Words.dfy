/** Memory as malloc.c writes it: 32-bit words, chunk headers among them. */
module Words {
  import opened Tiling

  type Memory = map<int, int>

  function Get(m: Memory, a: int): int {
    if a in m then m[a] else 0
  }

  /** The head word of a cell: sizes are multiples of 8, the two low bits say what is in use. */
  function Pack(cell: Cell): int {
    match cell
    case Chunk(s, c, p) => s + (if c then 2 else 0) + (if p then 1 else 0)
    case Fence(_) => WORD + 3
    case Foot => TOP_FOOT
    case Mapped(s, _) => s
  }

  /** chunksize: the head with the flag bits masked off */
  function SizeBits(w: int): int { w / 8 * 8 }

  predicate CBit(w: int) { w / 2 % 2 == 1 }

  predicate PBit(w: int) { w % 2 == 1 }

  function SetPBit(w: int): int { if PBit(w) then w else w + 1 }

  function ClearPBit(w: int): int { if PBit(w) then w - 1 else w }

  function HeadOf(m: Memory, p: int): int { Get(m, p + WORD) }

  function PutHead(m: Memory, p: int, w: int): Memory { m[p + WORD := w] }

  function PutFoot(m: Memory, n: int, s: int): Memory { m[n := s] }

  /** set_size_and_pinuse_of_free_chunk */
  function FreeHead(m: Memory, p: int, s: int): Memory {
    PutFoot(PutHead(m, p, s + 1), p + s, s)
  }

  /** clear_pinuse */
  function ClearPrev(m: Memory, n: int): Memory {
    PutHead(m, n, ClearPBit(HeadOf(m, n)))
  }

  /** set_free_with_pinuse */
  function FreeWithPrev(m: Memory, p: int, s: int, n: int): Memory {
    FreeHead(ClearPrev(m, n), p, s)
  }

  /** head |= PINUSE_BIT */
  function MarkPrev(m: Memory, n: int): Memory {
    PutHead(m, n, SetPBit(HeadOf(m, n)))
  }

  /** set_inuse */
  function UseHead(m: Memory, p: int, s: int): Memory {
    MarkPrev(PutHead(m, p, s + 2 + if PBit(HeadOf(m, p)) then 1 else 0), p + s)
  }

  /** set_inuse_and_pinuse */
  function UseBoth(m: Memory, p: int, s: int): Memory {
    MarkPrev(PutHead(m, p, s + 3), p + s)
  }

  /** set_size_and_pinuse_of_inuse_chunk */
  function UseSize(m: Memory, p: int, s: int): Memory {
    PutHead(m, p, s + 3)
  }

  /** The head word of a chunk can be taken apart again. */
  lemma Unpack(cell: Cell)
    requires cell.Chunk? ==> cell.size % ALIGN == 0
    requires cell.Mapped? ==> cell.size % ALIGN == 0
    ensures PBit(Pack(cell)) == PrevInUse(cell)
    ensures CBit(Pack(cell)) == (cell.Fence? || (cell.Chunk? && cell.cinuse))
    ensures (cell.Chunk? || cell.Mapped?) ==> SizeBits(Pack(cell)) == cell.size
    ensures cell.Chunk? ==> Pack(cell.(pinuse := true)) == SetPBit(Pack(cell))
    ensures cell.Chunk? ==> Pack(cell.(pinuse := false)) == ClearPBit(Pack(cell))
  {
    if cell.Chunk? || cell.Mapped? {
      FlagBits(cell.size / ALIGN, Pack(cell) - cell.size);
    }
  }

  lemma FlagBits(k: int, b: int)
    requires 0 <= b < 8
    ensures SizeBits(8 * k + b) == 8 * k
    ensures CBit(8 * k + b) == (b / 2 % 2 == 1) && PBit(8 * k + b) == (b % 2 == 1)
  {
    Eights(k, b);
    Twos(4 * k, b);
    Twos(2 * k, b / 2);
  }

  lemma Eights(k: int, b: int)
    requires 0 <= b < 8
    ensures (8 * k + b) / 8 == k
  {
  }

  lemma Twos(k: int, b: int)
    ensures (2 * k + b) / 2 == k + b / 2 && (2 * k + b) % 2 == b % 2
  {
  }

  /** Every cell's header is in memory, and so are the feet of free chunks. */
  ghost predicate HeadsIn(m: Memory, T: Layout) {
    forall c {:trigger HeadOf(m, c)} :: c in T ==> HeadOf(m, c) == Pack(T[c])
  }

  ghost predicate FootAt(m: Memory, T: Layout, c: int)
    requires c in T
  {
    match T[c]
    case Chunk(s, u, _) => !u && c + s in T && T[c + s].Chunk? ==> Get(m, c + s) == s
    case Fence(_) => true
    case Foot => true
    case Mapped(_, o) => Get(m, c) == o
  }

  ghost predicate FeetIn(m: Memory, T: Layout) {
    forall c {:trigger FootAt(m, T, c)} :: c in T ==> FootAt(m, T, c)
  }

  ghost predicate Written(m: Memory, T: Layout) {
    HeadsIn(m, T) && FeetIn(m, T)
  }

  /** prev_chunk: the foot of the chunk before p leads to it. */
  lemma FindPrev(m: Memory, T: Layout, p: int)
    requires Tiled(T) && Written(m, T) && p in T && T[p].Chunk? && !T[p].pinuse
    ensures var prev := p - Get(m, p);
      prev in T && T[prev] == Chunk(Get(m, p), false, true) && Get(m, p) > 0
  {
    assert CellOk(T, p);
    var d :| EndsAt(T, d, p);
    assert CellOk(T, d) && FootAt(m, T, d);
  }

  /** One past the last payload word of a cell the user holds. */
  function PayloadEnd(T: Layout, c: int): int
    requires c in T
  {
    match T[c]
    case Chunk(s, _, _) => c + s + WORD
    case Fence(_) => c
    case Foot => c
    case Mapped(s, _) => c + s
  }

  /** The payload words of the cell at c are the same in both memories, up to address hi. */
  ghost predicate Kept(m: Memory, m': Memory, c: int, hi: int) {
    forall a :: c + 2 * WORD <= a < hi ==> Get(m', a) == Get(m, a)
  }

  /** Only header and foot words at a, r and b were written. */
  ghost predicate WritesAt(m: Memory, m': Memory, a: int, r: int, b: int) {
    forall x :: x != a + WORD && x != r + WORD && x != b + WORD && x != r && x != b ==> Get(m', x) == Get(m, x)
  }

  lemma Apart(c: int, x: int)
    requires c % ALIGN == 0 && x % ALIGN == 0
    ensures c != x + WORD
  {
  }

  lemma AlignedEnd(c: int, s: int)
    requires c % ALIGN == 0 && s % ALIGN == 0
    ensures (c + s) % ALIGN == 0
  {
  }

  /** Words at chunk boundaries other than r and b were left alone. */
  lemma FootKept(m: Memory, m': Memory, a: int, r: int, b: int, x: int)
    requires WritesAt(m, m', a, r, b) && x != r && x != b
    requires a % ALIGN == 0 && r % ALIGN == 0 && b % ALIGN == 0 && x % ALIGN == 0
    ensures Get(m', x) == Get(m, x)
  {
    Apart(x, a);
    Apart(x, r);
    Apart(x, b);
  }

  /** Head words other than those at a, r and b were left alone. */
  lemma HeadKept(m: Memory, m': Memory, a: int, r: int, b: int, c: int)
    requires WritesAt(m, m', a, r, b) && c != a && c != r && c != b
    requires r % ALIGN == 0 && b % ALIGN == 0 && c % ALIGN == 0
    ensures HeadOf(m', c) == HeadOf(m, c)
  {
    Apart(r, c);
    Apart(b, c);
  }

  /** Cells elsewhere are written as before. */
  lemma Outside(m: Memory, m': Memory, T: Layout, T': Layout, a: int, r: int, b: int, c: int)
    requires Tiled(T) && Written(m, T) && SameOutside(T, T', a, b) && WritesAt(m, m', a, r, b)
    requires a < r <= b && r % ALIGN == 0 && c in T && !(a <= c <= b)
    ensures HeadOf(m', c) == Pack(T'[c]) && FootAt(m', T', c)
  {
    assert CellOk(T, a) && CellOk(T, b) && CellOk(T, c) && FootAt(m, T, c);
    HeadKept(m, m', a, r, b, c);
    if T[c].Chunk? {
      AlignedEnd(c, T[c].size);
      FootKept(m, m', a, r, b, c + T[c].size);
    }
    if T[c].Mapped? { FootKept(m, m', a, r, b, c); }
  }

  /** What follows the run keeps its own foot. */
  lemma EndFoot(m: Memory, m': Memory, T: Layout, T': Layout, a: int, r: int, b: int)
    requires Tiled(T) && Written(m, T) && SameOutside(T, T', a, b) && WritesAt(m, m', a, r, b)
    requires a < r <= b && r % ALIGN == 0
    ensures FootAt(m', T', b)
  {
    assert CellOk(T, a) && CellOk(T, b) && FootAt(m, T, b);
    if T[b].Chunk? {
      AlignedEnd(b, T[b].size);
      FootKept(m, m', a, r, b, b + T[b].size);
    }
  }

  /** Memory after the chunks between a and b were made one. */
  lemma OneWritten(m: Memory, m': Memory, T: Layout, T': Layout, a: int, b: int, u: bool)
    requires Tiled(T) && Written(m, T) && Run(T, a, b) && IsOne(T, T', a, b, u) && WritesAt(m, m', a, b, b)
    requires HeadOf(m', a) == Pack(T'[a]) && HeadOf(m', b) == Pack(T'[b])
    requires !u && T[b].Chunk? ==> Get(m', b) == b - a
    ensures Written(m', T')
  {
    CellAt(T, b);
    EndFoot(m, m', T, T', a, b, b);
    forall c | c in T' && c != a && c != b ensures HeadOf(m', c) == Pack(T'[c]) && FootAt(m', T', c) {
      Outside(m, m', T, T', a, b, b, c);
    }
  }

  /** Memory after the chunks between a and b were made two. */
  lemma TwoWritten(m: Memory, m': Memory, T: Layout, T': Layout, a: int, b: int, n: int, u: bool, v: bool)
    requires Tiled(T) && Written(m, T) && Run(T, a, b) && IsTwo(T, T', a, b, n, u, v)
    requires WritesAt(m, m', a, a + n, b) && 0 < n < b - a && n % ALIGN == 0
    requires HeadOf(m', a) == Pack(T'[a]) && HeadOf(m', a + n) == Pack(T'[a + n]) && HeadOf(m', b) == Pack(T'[b])
    requires !v && T[b].Chunk? ==> Get(m', b) == b - a - n
    requires !u ==> Get(m', a + n) == n
    ensures Written(m', T')
  {
    CellAt(T, a);
    CellAt(T, b);
    AlignedEnd(a, n);
    EndFoot(m, m', T, T', a, a + n, b);
    forall c | c in T' && c != a && c != b && c != a + n ensures HeadOf(m', c) == Pack(T'[c]) && FootAt(m', T', c) {
      Outside(m, m', T, T', a, a + n, b, c);
    }
  }

  /** The head word at b, with its previous-in-use bit set or cleared. */
  lemma MarkedHead(m: Memory, T: Layout, b: int, u: bool)
    requires Tiled(T) && Written(m, T) && b in T && CanEnd(T[b], u)
    ensures (if u then SetPBit(HeadOf(m, b)) else ClearPBit(HeadOf(m, b))) == Pack(WithPrev(T[b], u))
  {
    CellAt(T, b);
    Unpack(T[b]);
  }

  /** Boundaries of a run are chunk addresses, so no head word is at one. */
  lemma RunEnds(m: Memory, T: Layout, a: int, b: int)
    requires Tiled(T) && Written(m, T) && Run(T, a, b)
    ensures a + WORD != b && a % ALIGN == 0 && b % ALIGN == 0
    ensures HeadOf(m, a) == Pack(T[a]) && HeadOf(m, b) == Pack(T[b])
  {
    CellAt(T, a);
    CellAt(T, b);
    Apart(b, a);
  }

  /** What a run that becomes one free chunk needs. */
  ghost predicate Freeing(m: Memory, T: Layout, T': Layout, a: int, b: int) {
    Tiled(T) && Written(m, T) && Run(T, a, b) && T[a].pinuse && IsOne(T, T', a, b, false)
  }

  /** set_free_with_pinuse(a, b - a, b) */
  lemma FreeRunWritten(m: Memory, T: Layout, T': Layout, a: int, b: int)
    requires Freeing(m, T, T', a, b) && T[b].Chunk? && T[b].cinuse
    ensures var m' := FreeWithPrev(m, a, b - a, b); Written(m', T') && WritesAt(m, m', a, b, b)
  {
    RunEnds(m, T, a, b);
    MarkedHead(m, T, b, false);
    OneWritten(m, FreeWithPrev(m, a, b - a, b), T, T', a, b, false);
  }

  /** set_size_and_pinuse_of_free_chunk(a, b - a), with something free just before b */
  lemma FreeMergedWritten(m: Memory, T: Layout, T': Layout, a: int, b: int)
    requires Freeing(m, T, T', a, b) && T[b].Chunk? && !T[b].pinuse
    ensures var m' := FreeHead(m, a, b - a); Written(m', T') && WritesAt(m, m', a, b, b)
  {
    RunEnds(m, T, a, b);
    OneWritten(m, FreeHead(m, a, b - a), T, T', a, b, false);
  }

  /** The run becomes part of top: only its head is written. */
  lemma TopWritten(m: Memory, T: Layout, T': Layout, a: int, b: int)
    requires Freeing(m, T, T', a, b) && T[b].Foot?
    ensures var m' := PutHead(m, a, b - a + 1); Written(m', T') && WritesAt(m, m', a, b, b)
  {
    RunEnds(m, T, a, b);
    OneWritten(m, PutHead(m, a, b - a + 1), T, T', a, b, false);
  }

  /** set_inuse_and_pinuse(a, b - a) */
  lemma UseBothWritten(m: Memory, T: Layout, T': Layout, a: int, b: int)
    requires Tiled(T) && Written(m, T) && Run(T, a, b) && IsOne(T, T', a, b, true) && CanEnd(T[b], true) && T[a].pinuse
    ensures var m' := UseBoth(m, a, b - a); Written(m', T') && WritesAt(m, m', a, b, b)
  {
    RunEnds(m, T, a, b);
    MarkedHead(m, T, b, true);
    OneWritten(m, UseBoth(m, a, b - a), T, T', a, b, true);
  }

  /** set_inuse(a, b - a) */
  lemma UseHeadWritten(m: Memory, T: Layout, T': Layout, a: int, b: int)
    requires Tiled(T) && Written(m, T) && Run(T, a, b) && IsOne(T, T', a, b, true) && CanEnd(T[b], true)
    ensures var m' := UseHead(m, a, b - a); Written(m', T') && WritesAt(m, m', a, b, b)
  {
    CellAt(T, a);
    RunEnds(m, T, a, b);
    Unpack(T[a]);
    MarkedHead(m, T, b, true);
    OneWritten(m, UseHead(m, a, b - a), T, T', a, b, true);
  }

  /** A run cut in two, the first part in use, the second if v. */
  ghost predicate Cutting(m: Memory, T: Layout, T': Layout, a: int, b: int, n: int, v: bool) {
    && Tiled(T) && Written(m, T) && Run(T, a, b) && IsTwo(T, T', a, b, n, true, v) && CanEnd(T[b], v)
    && 0 < n < b - a && n % ALIGN == 0
  }

  /** What the heads must read after the cut. */
  ghost predicate CutHeads(m': Memory, T: Layout, a: int, b: int, n: int, v: bool) {
    && a in T && T[a].Chunk? && b in T
    && HeadOf(m', a) == n + (if T[a].pinuse then 3 else 2)
    && HeadOf(m', a + n) == b - a - n + (if v then 3 else 1)
    && HeadOf(m', b) == Pack(WithPrev(T[b], v))
    && (!v && T[b].Chunk? ==> Get(m', b) == b - a - n)
  }

  lemma CutWritten(m: Memory, m': Memory, T: Layout, T': Layout, a: int, b: int, n: int, v: bool)
    requires Cutting(m, T, T', a, b, n, v) && WritesAt(m, m', a, a + n, b) && CutHeads(m', T, a, b, n, v)
    ensures Written(m', T')
  {
    TwoWritten(m, m', T, T', a, b, n, true, v);
  }

  lemma CutAligned(m: Memory, T: Layout, a: int, b: int, n: int)
    requires Tiled(T) && Written(m, T) && Run(T, a, b) && 0 < n < b - a && n % ALIGN == 0
    ensures HeadOf(m, a) == Pack(T[a]) && HeadOf(m, b) == Pack(T[b])
    ensures a + WORD != b && a + n + WORD != b && b + WORD != a + n && a + WORD != a + n
    ensures a % ALIGN == 0 && b % ALIGN == 0 && (a + n) % ALIGN == 0 && T[a].size % ALIGN == 0
  {
    CellAt(T, a);
    CellAt(T, b);
    AlignedEnd(a, n);
    Apart(b, a);
    Apart(b, a + n);
    Apart(a + n, a);
  }

  /** A free chunk is cut: the front in use, the rest free. */
  lemma CutFreeWritten(m: Memory, m': Memory, T: Layout, T': Layout, a: int, b: int, n: int)
    requires Cutting(m, T, T', a, b, n, false) && T[b].Chunk? && !T[b].pinuse && T[a].pinuse
    requires m' == FreeHead(UseSize(m, a, n), a + n, b - a - n) || m' == UseSize(FreeHead(m, a + n, b - a - n), a, n)
    ensures Written(m', T') && WritesAt(m, m', a, a + n, b)
  {
    CutAligned(m, T, a, b, n);
    CutWritten(m, m', T, T', a, b, n, false);
  }

  /** The same before a chunk in use that does not know yet. */
  lemma CutNewWritten(m: Memory, T: Layout, T': Layout, a: int, b: int, n: int)
    requires Cutting(m, T, T', a, b, n, false) && T[b].Chunk? && T[a].pinuse
    ensures var m' := FreeWithPrev(UseSize(m, a, n), a + n, b - a - n, b);
      Written(m', T') && WritesAt(m, m', a, a + n, b)
  {
    CutAligned(m, T, a, b, n);
    MarkedHead(m, T, b, false);
    CutWritten(m, FreeWithPrev(UseSize(m, a, n), a + n, b - a - n, b), T, T', a, b, n, false);
  }

  /** Top is cut: the front in use, the rest the new top. */
  lemma CutTopWritten(m: Memory, m': Memory, T: Layout, T': Layout, a: int, b: int, n: int)
    requires Cutting(m, T, T', a, b, n, false) && T[b].Foot? && T[a].pinuse
    requires m' == UseSize(PutHead(m, a + n, b - a - n + 1), a, n) ||
      m' == PutHead(UseSize(m, a, n), a + n, b - a - n + 1)
    ensures Written(m', T') && WritesAt(m, m', a, a + n, b)
  {
    CutAligned(m, T, a, b, n);
    CutWritten(m, m', T, T', a, b, n, false);
  }

  /** A chunk in use grows into top. */
  lemma GrowTopWritten(m: Memory, T: Layout, T': Layout, a: int, b: int, n: int)
    requires Cutting(m, T, T', a, b, n, false) && T[b].Foot?
    ensures var m' := PutHead(UseHead(m, a, n), a + n, b - a - n + 1);
      Written(m', T') && WritesAt(m, m', a, a + n, b) && Get(m', a + n) == Get(m, a + n)
  {
    CutAligned(m, T, a, b, n);
    Unpack(T[a]);
    CutWritten(m, PutHead(UseHead(m, a, n), a + n, b - a - n + 1), T, T', a, b, n, false);
  }

  /** A chunk in use grows into dv. */
  lemma GrowVictimWritten(m: Memory, T: Layout, T': Layout, a: int, b: int, n: int)
    requires Cutting(m, T, T', a, b, n, false) && T[b].Chunk?
    ensures var m' := ClearPrev(FreeHead(UseHead(m, a, n), a + n, b - a - n), b);
      Written(m', T') && WritesAt(m, m', a, a + n, b) && Get(m', a + n) == Get(m, a + n)
  {
    CutAligned(m, T, a, b, n);
    Unpack(T[a]);
    MarkedHead(m, T, b, false);
    CutWritten(m, ClearPrev(FreeHead(UseHead(m, a, n), a + n, b - a - n), b), T, T', a, b, n, false);
  }

  /** set_inuse on both parts, the front first. */
  lemma CutUsedWritten(m: Memory, T: Layout, T': Layout, a: int, b: int, n: int)
    requires Cutting(m, T, T', a, b, n, true)
    ensures var m' := UseHead(UseHead(m, a, n), a + n, b - a - n);
      Written(m', T') && WritesAt(m, m', a, a + n, b) && Get(m', a + n) == Get(m, a + n)
  {
    CutAligned(m, T, a, b, n);
    Unpack(T[a]);
    MarkedHead(m, T, b, true);
    CutWritten(m, UseHead(UseHead(m, a, n), a + n, b - a - n), T, T', a, b, n, true);
  }

  /** set_inuse on both parts, the back first. */
  lemma CutBackWritten(m: Memory, T: Layout, T': Layout, a: int, b: int, n: int)
    requires Cutting(m, T, T', a, b, n, true)
    ensures var m' := UseHead(UseHead(m, a + n, b - a - n), a, n);
      Written(m', T') && WritesAt(m, m', a, a + n, b) && Get(m', b) == Get(m, b)
  {
    CutAligned(m, T, a, b, n);
    Unpack(T[a]);
    MarkedHead(m, T, b, true);
    CutWritten(m, UseHead(UseHead(m, a + n, b - a - n), a, n), T, T', a, b, n, true);
  }

  /** No payload outside the run is written, up to the last word, which is the foot of the chunk behind. */
  lemma Harmless(m: Memory, m': Memory, T: Layout, a: int, r: int, b: int, c: int)
    requires Tiled(T) && WritesAt(m, m', a, r, b) && Run(T, a, b) && a + WORD <= r <= b
    requires c in T && !(a <= c < b)
    ensures Kept(m, m', c, PayloadEnd(T, c))
  {
    assert CellOk(T, c) && CellOk(T, a);
  }
}
