/** dispose_chunk and dlfree of malloc.c: a chunk the user gives back joins its free neighbours. */
module Freeing {
  import opened Tiling
  import opened Words
  import opened Ownership
  import opened Segments
  import opened Steps
  import opened Moves
  import opened Regions
  import opened Heaps

  /** Where the freed space went; Topmost and Binned tell its size. */
  datatype Place = Topmost(size: int) | Victimized | Binned(size: int)

  /** Where the free space starts that the chunk at p becomes part of: at the free chunk before it, if there is one. */
  ghost function SpaceStart(g: State, p: int): int
    requires p in g.T && g.T[p].Chunk?
  {
    if g.T[p].pinuse then p else p - Get(g.m, p)
  }

  /** Free space of n bytes at a is in a bin, or dv if that has grown. */
  ghost function Settle(o: Owners, dv: int, a: int, n: int): Owners {
    if a == dv then o.(dv := a, dvsize := n) else o.(binned := o.binned[a := n])
  }

  /**
    * Who owns what once the chunk at p, which has no owner, has joined its free neighbours: top takes all before it,
    * and so does dv; what is in a bin behind it is taken from there; the rest goes to a bin, unless dv was before it.
    */
  ghost function Joined(g: State, p: int): Owners
    requires p in g.T && g.T[p].Chunk?
  {
    var a, next := SpaceStart(g, p), p + g.T[p].size;
    var o := if a == p then g.o else Drop(g.o, a);
    if next == g.o.top then o.(top := a, topsize := g.o.topsize + (next - a))
    else if next == g.o.dv then o.(dv := a, dvsize := g.o.dvsize + (next - a))
    else if next in g.T && g.T[next].Chunk? && !g.T[next].cinuse then
      Settle(Drop(o, next), g.o.dv, a, next - a + g.T[next].size)
    else Settle(o, g.o.dv, a, next - a)
  }

  /** The same for a chunk of the user. */
  ghost function Freed(s: State, p: int): Owners
    requires p in s.T && s.T[p].Chunk?
  {
    Joined(s.(o := s.o.(live := s.o.live - {p})), p)
  }

  /** Who owns what once the free space from a joins what starts at b, if that is free. */
  ghost function Rest(T: Layout, o: Owners, a: int, b: int): Owners {
    if b == o.top then o.(top := a, topsize := o.topsize + (b - a))
    else if b == o.dv then o.(dv := a, dvsize := o.dvsize + (b - a))
    else if b in T && T[b].Chunk? && !T[b].cinuse then o.(binned := (o.binned - {b})[a := b - a + T[b].size])
    else o.(binned := o.binned[a := b - a])
  }

  /** So it is with a chunk of the user that has no free chunk before it. */
  lemma FreedIsRest(s: State, r: int)
    requires Sound(s) && r in s.o.live && r in s.T && s.T[r].Chunk? && s.T[r].pinuse
    ensures Freed(s, r) == Rest(s.T, s.o.(live := s.o.live - {r}), r, r + s.T[r].size)
  {
    assert Look(0);
    var o, b := s.o.(live := s.o.live - {r}), r + s.T[r].size;
    CellAt(s.T, r);
    if b != o.top && b != o.dv && s.T[b].Chunk? && !s.T[b].cinuse {
      assert Drop(o, b) == o.(binned := o.binned - {b});
    }
  }

  /** Where the free space is, and how big when it is top or in a bin. */
  ghost predicate IsAt(place: Place, o: Owners, a: int) {
    a > 0 &&
    match place
    case Topmost(n) => a == o.top && n == o.topsize
    case Victimized => a == o.dv
    case Binned(n) => a in o.binned && o.binned[a] == n
  }

  /** A gap that a chunk in use left, or one that grew from it. */
  ghost predicate Used(g: State, a: int, b: int) {
    g.o.top != 0 && a > 0 && b in g.T && g.T[b].Chunk?
  }

  /** A chunk of the user loses its owner. */
  lemma OpenUser(s: State, p: int) returns (g: State)
    requires Sound(s) && p in s.o.live && p in s.T && s.T[p].Chunk?
    ensures g == s.(o := s.o.(live := s.o.live - {p}))
    ensures Gapped(g, s.o.top + s.o.topsize, p, p + s.T[p].size) && Local(s, g, p)
    ensures Used(g, p, p + s.T[p].size) && g.T[p].cinuse && g.T[p].size >= MIN_CHUNK
  {
    assert Look(0);
    CellAt(s.T, p);
    OpenAt(s.T, s.o, p);
    DropUser(s.T, s.o, p, p, p);
    Open(s, p);
    g := Release(s, p);
    BehindUsed(s, p);
    assert Placed(s.T, s.segs, p);
    forall c | c in s.o.live && c != p ensures Intact(s, g, c) { }
    forall c ensures SameMap(s.T, g.T, c) { }
  }

  /** What follows a chunk of the user is a chunk. */
  lemma BehindUsed(s: State, p: int)
    requires Sound(s) && p in s.o.live && p in s.T && s.T[p].Chunk?
    ensures var b := p + s.T[p].size; b in s.T && s.T[b].Chunk?
  {
    assert Look(0);
    var b := p + s.T[p].size;
    CellAt(s.T, p);
    if s.T[b].Fence? { BeforeFence(s.T, s.segs, s.o.records, p); }
  }

  /** What follows a free chunk behind the gap is in use. */
  lemma BehindNext(g: State, foot: int, a: int, c: int)
    requires Gapped(g, foot, a, c) && g.o.top != 0 && c != g.o.top && g.T[c].Chunk? && !g.T[c].cinuse
    ensures var b := c + g.T[c].size; b in g.T && g.T[b].Chunk? && g.T[b].cinuse && !g.T[b].pinuse
  {
    assert Look(0);
    var b := c + g.T[c].size;
    CellAt(g.T, c);
    CellAt(g.T, b);
    CellAt(g.T, g.o.top);
  }

  /** The head of the chunk behind the gap tells whether it is in use. */
  lemma NextHead(g: State, foot: int, a: int, b: int)
    requires Gapped(g, foot, a, b) && g.T[b].Chunk?
    ensures CBit(HeadOf(g.m, b)) == g.T[b].cinuse && PBit(HeadOf(g.m, b)) == g.T[b].pinuse
    ensures SizeBits(HeadOf(g.m, b)) == g.T[b].size
  {
    assert Look(0);
    CellAt(g.T, b);
    Unpack(g.T[b]);
  }

  /** top and dv are free. */
  lemma UsedNext(g: State, foot: int, a: int, b: int)
    requires Gapped(g, foot, a, b) && g.o.top != 0 && g.T[b].Chunk? && g.T[b].cinuse
    ensures b != g.o.top && b != g.o.dv
  {
    assert Look(0);
    CellAt(g.T, a);
    CellAt(g.T, b);
    CellAt(g.T, g.o.top);
  }

  /** The head of the chunk at the start of the gap tells whether the one before it is in use. */
  lemma OwnHead(g: State, foot: int, a: int, b: int)
    requires Gapped(g, foot, a, b)
    ensures PBit(HeadOf(g.m, a)) == g.T[a].pinuse && g.o.dv != a
    ensures b == a + g.T[a].size ==> PrevInUse(g.T[b]) == g.T[a].cinuse
  {
    assert Look(0);
    CellAt(g.T, a);
    Unpack(g.T[a]);
  }

  /** How the head and foot words of a new free chunk are written. */
  ghost predicate FreeWords(g: State, a: int, b: int, role: Role, m': Memory)
    requires b in g.T
  {
    match role
    case User => false
    case Top => g.T[b].Foot? && g.o.top == 0 && m' == PutHead(g.m, a, b - a + 1)
    case Victim => g.o.dv == 0 && b - a >= MIN_CHUNK && FreeEnd(g, a, b, m')
    case Bin => b - a >= MIN_CHUNK && FreeEnd(g, a, b, m')
  }

  ghost predicate FreeEnd(g: State, a: int, b: int, m': Memory)
    requires b in g.T
  {
    && g.o.top != 0 && g.T[b].Chunk? && g.T[b].cinuse
    && (m' == FreeWithPrev(g.m, a, b - a, b) || (m' == FreeHead(g.m, a, b - a) && !g.T[b].pinuse))
  }

  /** The gap becomes one free chunk. */
  lemma FreeGap(g: State, foot: int, a: int, b: int, role: Role, m': Memory) returns (s': State)
    requires Gapped(g, foot, a, b) && a > 0 && g.T[a].pinuse && FreeWords(g, a, b, role, m')
    ensures s'.m == m' && s'.o == Give(g.o, a, b - a, role) && s'.segs == g.segs
    ensures Sound(s') && Changed(g, s', a, b, b) && s'.o.top != 0
  {
    assert Look(0);
    var T' := MakeOne(g.T, a, b, false);
    RunEnds(g.m, g.T, a, b);
    match role {
      case Top => TopWritten(g.m, g.T, T', a, b);
      case _ =>
        if m' == FreeWithPrev(g.m, a, b - a, b) {
          FreeRunWritten(g.m, g.T, T', a, b);
        } else {
          FreeMergedWritten(g.m, g.T, T', a, b);
        }
    }
    s' := CloseOne(g, foot, a, b, false, role, m', T');
  }

  /** The same, for a gap that grew from the one of g0. */
  lemma FreeGrown(g0: State, g: State, foot: int, a: int, b: int, role: Role, m': Memory) returns (s': State)
    requires Gapped(g, foot, a, b) && a > 0 && g.T[a].pinuse && FreeWords(g, a, b, role, m')
    requires Opened(g0, g, 0) && g0.o.top != 0 && g.o.live == g0.o.live
    ensures s'.m == m' && s'.o == Give(g.o, a, b - a, role) && s'.segs == g.segs
    ensures Sound(s') && Local(g0, s', 0) && s'.o.live == g0.o.live
  {
    s' := FreeGap(g, foot, a, b, role, m');
    Closing(g0, g, s', 0, foot, a, b, b);
  }

  /** Only the lists, trees and boundary words of one heap change. */
  ghost predicate Settled(h: Heap, g0: State)
    reads h, h.bins, h.bins.small, h.bins.large
  {
    h.Ready() && Local(g0, h.View(), 0) && h.live == g0.o.live
  }

  /** The gap from a to b has grown from that of g0. */
  ghost predicate Growing(h: Heap, g0: State, g: State, foot: int, a: int, b: int)
    reads h, h.bins, h.bins.small, h.bins.large
  {
    h.InGap(g, foot, a, b) && Used(g, a, b) && Opened(g0, g, 0) && g0.o.top != 0 && g.o.live == g0.o.live &&
      g.T[a].pinuse
  }

  /** consolidate backward: the free chunk that ends at p is found by its foot, and joins the gap */
  method TakePrev(h: Heap, p: int, ghost g0: State, ghost foot: int, ghost b: int) returns (a: int, ghost g: State)
    requires h.InGap(g0, foot, p, b) && g0.o.dv == h.dv && Used(g0, p, b) && !g0.T[p].pinuse
    modifies h.bins, h.bins.small, h.bins.large
    ensures Growing(h, g0, g, foot, a, b) && a == p - Get(h.m, p) < p && g.o.dv == if a == h.dv then 0 else g0.o.dv
    ensures g == Release(g0, a)
  {
    assert Look(0);
    FindPrev(h.m, h.T, p);
    var prevsize := Get(h.m, p);
    a := p - prevsize;
    CellAt(h.T, a);
    assert Held(h.T, g0.o, a);
    WidenDown(g0, foot, p, b, a);
    g := Release(g0, a);
    if a != h.dv {
      DropBinned(h.T, g0.o, p, b, a);
      h.bins.Unlink(a, prevsize);
    } else {
      DropVictim(h.T, g0.o, p, b);
    }
  }

  /** The chunk behind the gap is top, and joins it. */
  lemma JoinTop(g: State, foot: int, a: int, b: int) returns (g': State)
    requires Gapped(g, foot, a, b) && b == g.o.top != 0
    ensures g' == Release(g, b) && g'.o == g.o.(top := 0, topsize := 0)
    ensures Gapped(g', foot, a, foot) && foot == b + g.o.topsize && g.T[foot].Foot?
  {
    assert Look(0);
    DropTop(g.T, g.o, a, b);
    WidenUp(g, foot, a, b);
    g' := Release(g, b);
  }

  /** The chunk behind the gap is dv, and joins it. */
  lemma JoinVictim(g: State, foot: int, a: int, b: int) returns (g': State)
    requires Gapped(g, foot, a, b) && b == g.o.dv != 0 && g.o.top != 0
    ensures g' == Release(g, b) && g'.o == g.o.(dv := 0, dvsize := 0)
    ensures Gapped(g', foot, a, b + g.o.dvsize) && g.o.dvsize >= MIN_CHUNK
    ensures var e := b + g.o.dvsize; g.T[e].Chunk? && g.T[e].cinuse && !g.T[e].pinuse
  {
    assert Look(0);
    DropVictim(g.T, g.o, a, b);
    WidenUp(g, foot, a, b);
    BehindNext(g, foot, a, b);
    g' := Release(g, b);
  }

  /** The chunk behind the gap is in a bin, and joins the gap. */
  lemma JoinBinned(g: State, foot: int, a: int, b: int) returns (g': State)
    requires Gapped(g, foot, a, b) && g.T[b].Chunk? && !g.T[b].cinuse && b != g.o.dv && b != g.o.top && g.o.top != 0
    ensures b in g.o.binned && g.o.binned[b] == g.T[b].size > 0
    ensures g' == Release(g, b) && g'.o == g.o.(binned := g.o.binned - {b})
    ensures Gapped(g', foot, a, b + g.T[b].size)
    ensures var e := b + g.T[b].size; g.T[e].Chunk? && g.T[e].cinuse && !g.T[e].pinuse
  {
    assert Look(0);
    assert Held(g.T, g.o, b);
    DropBinned(g.T, g.o, a, b, b);
    WidenUp(g, foot, a, b);
    BehindNext(g, foot, a, b);
    g' := Release(g, b);
  }

  /** What Growing says of g0 and g. */
  ghost predicate GrownFrom(g0: State, g: State, foot: int, a: int, b: int) {
    && Gapped(g, foot, a, b) && Used(g, a, b) && g.T[a].pinuse
    && Opened(g0, g, 0) && g0.o.top != 0 && g.o.live == g0.o.live
  }

  lemma TopGrown(g0: State, g: State, foot: int, a: int, b: int) returns (s': State)
    requires GrownFrom(g0, g, foot, a, b) && b == g.o.top
    ensures var n := b - a + g.o.topsize;
      s'.m == PutHead(g.m, a, n + 1) && s'.o == g.o.(top := a, topsize := n) && s'.segs == g.segs
    ensures Sound(s') && Local(g0, s', 0) && a != g.o.dv
  {
    OwnHead(g, foot, a, b);
    var g' := JoinTop(g, foot, a, b);
    s' := FreeGrown(g0, g', foot, a, foot, Top, PutHead(g.m, a, b - a + g.o.topsize + 1));
  }

  lemma VictimGrown(g0: State, g: State, foot: int, a: int, b: int) returns (s': State)
    requires GrownFrom(g0, g, foot, a, b) && b == g.o.dv
    ensures var n := b - a + g.o.dvsize;
      s'.m == FreeHead(g.m, a, n) && s'.o == g.o.(dv := a, dvsize := n) && s'.segs == g.segs
    ensures Sound(s') && Local(g0, s', 0)
  {
    var g' := JoinVictim(g, foot, a, b);
    s' := FreeGrown(g0, g', foot, a, b + g.o.dvsize, Victim, FreeHead(g.m, a, b - a + g.o.dvsize));
  }

  /** top takes the space before it, and dv if it was there. */
  method IntoTop(h: Heap, a: int, psize: int, ghost g0: State, ghost g: State, ghost foot: int) returns (tsize: int)
    requires Growing(h, g0, g, foot, a, a + psize) && a + psize == h.top
    modifies h`m, h`dv, h`dvsize, h`top, h`topsize, h`T
    ensures Settled(h, g0) && tsize == h.topsize
    ensures h.View().o == g.o.(top := a, topsize := old(h.topsize) + psize)
  {
    ghost var s' := TopGrown(g0, g, foot, a, a + psize);
    tsize := h.topsize + psize;
    h.topsize, h.top := tsize, a;
    h.m := PutHead(h.m, a, tsize + 1);
    if a == h.dv {
      h.dv, h.dvsize := 0, 0;
    }
    h.T := s'.T;
    h.Is(s');
  }

  /** dv takes the space before it. */
  method IntoVictim(h: Heap, a: int, psize: int, ghost g0: State, ghost g: State, ghost foot: int)
    requires Growing(h, g0, g, foot, a, a + psize) && a + psize == h.dv
    modifies h`m, h`dv, h`dvsize, h`T
    ensures Settled(h, g0) && h.View().o == g.o.(dv := a, dvsize := old(h.dvsize) + psize)
  {
    ghost var s' := VictimGrown(g0, g, foot, a, a + psize);
    var dsize := h.dvsize + psize;
    h.dvsize, h.dv := dsize, a;
    h.m := FreeHead(h.m, a, dsize);
    h.T := s'.T;
    h.Is(s');
  }

  /** dv, which has grown to psize, stays dv. */
  method StayVictim(h: Heap, a: int, psize: int, m': Memory, ghost g0: State, ghost g: State, ghost foot: int)
    requires Growing(h, g0, g, foot, a, a + psize) && a == h.dv && g.o.dv == 0 && FreeWords(g, a, a + psize, Victim, m')
    modifies h`m, h`dvsize, h`T
    ensures Settled(h, g0) && h.View().o == g.o.(dv := a, dvsize := psize)
  {
    h.dvsize, h.m := psize, m';
    ghost var s' := FreeGrown(g0, g, foot, a, a + psize, Victim, m');
    h.T := s'.T;
    h.Is(s');
  }

  /** The gap becomes a free chunk in a bin. */
  method IntoBin(h: Heap, a: int, psize: int, m': Memory, ghost g0: State, ghost g: State, ghost foot: int)
    requires Growing(h, g0, g, foot, a, a + psize) && a != h.dv && FreeWords(g, a, a + psize, Bin, m')
    modifies h`m, h`T, h.bins, h.bins.small, h.bins.large
    ensures Settled(h, g0) && h.View().o == g.o.(binned := g.o.binned[a := psize])
  {
    h.m := m';
    ghost var s' := FreeGrown(g0, g, foot, a, a + psize, Bin, m');
    BinSize(g, foot, a, a + psize);
    h.bins.Insert(a, psize);
    h.T := s'.T;
    h.Is(s');
  }

  /** The gap fits in a bin: it is no bigger than its segment. */
  lemma BinSize(g: State, foot: int, a: int, b: int)
    requires Gapped(g, foot, a, b)
    ensures b - a < SPACE && (b - a) % ALIGN == 0 && a !in g.o.binned
  {
    assert Look(0);
    CellAt(g.T, a);
    CellAt(g.T, b);
    RunShort(g.T, g.segs, a, b);
    AlignedGap(a, b);
  }

  lemma AlignedGap(a: int, b: int)
    requires a % ALIGN == 0 && b % ALIGN == 0
    ensures (b - a) % ALIGN == 0
  {
  }

  lemma RunShort(T: Layout, segs: seq<Segment>, a: int, b: int)
    requires Tiled(T) && AllPlaced(T, segs) && Segments.Apart(segs) && Shaped(segs) && Run(T, a, b)
    ensures b - a < SPACE
  {
    assert Placed(T, segs, a);
    var i :| 0 <= i < |segs| && InSegment(segs[i], a, a + Reach(T[a]));
    RunHome(T, segs, a, b, i);
    assert Shape(segs[i]);
    ReachPositive(T, b);
  }

  /** consolidate forward, with a chunk that is in a bin */
  method TakeNext(h: Heap, next: int, ghost g0: State, ghost g: State, ghost foot: int, ghost a: int)
      returns (nsize: int, ghost g': State)
    requires Growing(h, g0, g, foot, a, next) && !g.T[next].cinuse && next != h.top && next != h.dv
    modifies h.bins, h.bins.small, h.bins.large
    ensures Growing(h, g0, g', foot, a, next + nsize) && g'.m == g.m && g'.o.dv == g.o.dv
    ensures nsize == g.T[next].size && g'.o == Drop(g.o, next)
    ensures var e := next + nsize; g'.T[e].cinuse && !g'.T[e].pinuse && nsize > 0
  {
    NextHead(g, foot, a, next);
    nsize := SizeBits(HeadOf(h.m, next));
    g' := JoinBinned(g, foot, a, next);
    h.bins.Unlink(next, nsize);
  }

  /** No chunk has joined the gap yet. */
  lemma NotGrown(h: Heap, g: State, foot: int, a: int, b: int)
    requires h.InGap(g, foot, a, b) && Used(g, a, b) && g.T[a].pinuse
    ensures Growing(h, g, g, foot, a, b)
  {
  }

  /** consolidate backward, if the chunk before p is free */
  method Backward(h: Heap, p: int, size: int, ghost g0: State, ghost foot: int) returns (a: int, ghost g: State)
    requires h.InGap(g0, foot, p, p + size) && Used(g0, p, p + size) && g0.o.dv == h.dv
    requires g0.T[p].cinuse
    modifies h.bins, h.bins.small, h.bins.large
    ensures Growing(h, g0, g, foot, a, p + size) && a == SpaceStart(g0, p) <= p && (g0.o.dv == a ==> a < p)
    ensures g == if a == p then g0 else Release(g0, a)
  {
    OwnHead(g0, foot, p, p + size);
    if !PBit(HeadOf(h.m, p)) {
      a, g := TakePrev(h, p, g0, foot, p + size);
    } else {
      a, g := p, g0;
      NotGrown(h, g0, foot, p, p + size);
    }
  }

  /** dispose_chunk, and what dlfree does with a chunk that is not directly mapped */
  method Coalesce(h: Heap, p: int, size: int, ghost g0: State, ghost foot: int) returns (place: Place)
    requires h.InGap(g0, foot, p, p + size) && Used(g0, p, p + size) && g0.o.dv == h.dv && size >= MIN_CHUNK
    requires g0.T[p].cinuse && g0.T[p].size == size
    modifies h`m, h`dv, h`dvsize, h`top, h`topsize, h`T, h.bins, h.bins.small, h.bins.large
    ensures Settled(h, g0)
    ensures h.View().o == Joined(g0, p) && IsAt(place, h.View().o, SpaceStart(g0, p))
  {
    OwnHead(g0, foot, p, p + size);
    var next := p + size;
    NextHead(g0, foot, p, next);
    if g0.T[next].cinuse { UsedNext(g0, foot, p, next); }
    var a;
    ghost var g;
    a, g := Backward(h, p, size, g0, foot);
    var psize := next - a;
    if a == h.dv && CBit(HeadOf(h.m, next)) && PBit(HeadOf(h.m, next)) {
      StayVictim(h, a, psize, FreeWithPrev(h.m, a, psize, next), g0, g, foot);
      place := Victimized;
    } else if !CBit(HeadOf(h.m, next)) {
      place := Forward(h, a, psize, g0, g, foot);
    } else {
      IntoBin(h, a, psize, FreeWithPrev(h.m, a, psize, next), g0, g, foot);
      place := Binned(psize);
    }
  }

  /** consolidate forward */
  method Forward(h: Heap, a: int, psize0: int, ghost g0: State, ghost g0': State, ghost foot: int)
      returns (place: Place)
    requires Growing(h, g0, g0', foot, a, a + psize0) && !g0'.T[a + psize0].cinuse && psize0 >= MIN_CHUNK
    requires g0'.o.dv == if a == h.dv then 0 else h.dv
    modifies h`m, h`dv, h`dvsize, h`top, h`topsize, h`T, h.bins, h.bins.small, h.bins.large
    ensures Settled(h, g0) && IsAt(place, h.View().o, a)
    ensures var o, next := g0'.o, a + psize0;
      h.View().o ==
        if next == old(h.top) then o.(top := a, topsize := old(h.topsize) + psize0)
        else if next == old(h.dv) then o.(dv := a, dvsize := old(h.dvsize) + psize0)
        else Settle(Drop(o, next), old(h.dv), a, psize0 + g0'.T[next].size)
  {
    var psize, next := psize0, a + psize0;
    if next == h.top {
      var tsize := IntoTop(h, a, psize, g0, g0', foot);
      place := Topmost(tsize);
    } else if next == h.dv {
      IntoVictim(h, a, psize, g0, g0', foot);
      place := Victimized;
    } else {
      var nsize;
      ghost var g;
      nsize, g := TakeNext(h, next, g0, g0', foot, a);
      psize := psize + nsize;
      var m' := FreeHead(h.m, a, psize);
      if a == h.dv {
        StayVictim(h, a, psize, m', g0, g, foot);
        place := Victimized;
      } else {
        IntoBin(h, a, psize, m', g0, g, foot);
        place := Binned(psize);
      }
    }
  }

  /** A chunk of the user joins its free neighbours, and its place is told. */
  method Consolidate(h: Heap, p: int, size: int) returns (place: Place)
    requires h.Valid() && p in h.live && p in h.T && h.T[p].Chunk? && h.T[p].size == size
    modifies h`m, h`dv, h`dvsize, h`top, h`topsize, h`T, h`live, h.bins, h.bins.small, h.bins.large
    ensures h.Valid() && h.live == old(h.live) - {p} && Local(old(h.View()), h.View(), p)
    ensures h.View().o == Freed(old(h.View()), p) && IsAt(place, h.View().o, SpaceStart(old(h.View()), p))
  {
    ghost var s := h.View();
    ghost var g := OpenUser(s, p);
    h.live := h.live - {p};
    place := Coalesce(h, p, size, g, s.o.top + s.o.topsize);
    NoZero(s);
    LocalTrans(s, g, h.View(), p, 0);
    StillAccounted(s.T, h.T, h.segs, h.maps, h.footprint, h.maxFootprint);
  }

  /** dispose_chunk */
  method Dispose(h: Heap, p: int, size: int)
    requires h.Valid() && p in h.live && p in h.T && h.T[p].Chunk? && h.T[p].size == size
    modifies h`m, h`dv, h`dvsize, h`top, h`topsize, h`T, h`live, h.bins, h.bins.small, h.bins.large
    ensures h.Valid() && h.live == old(h.live) - {p} && Local(old(h.View()), h.View(), p)
    ensures h.View().o == Freed(old(h.View()), p)
  {
    var _ := Consolidate(h, p, size);
  }
}
