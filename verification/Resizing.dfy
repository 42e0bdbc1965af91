/** try_realloc_chunk of malloc.c, for chunks in segments: a chunk of the user grows or shrinks where it is. */
module Resizing {
  import opened Tiling
  import opened Words
  import opened Ownership
  import opened Steps
  import opened Moves
  import opened Regions
  import opened Heaps
  import opened Allocating
  import opened Freeing

  /** The gap of a chunk of the user, perhaps with the free chunk behind it, in the heap as it is. */
  ghost predicate Holding(h: Heap, g0: State, g: State, foot: int, p: int, b: int)
    reads h, h.bins, h.bins.small, h.bins.large
  {
    && h.InGap(g, foot, p, b) && g.o.dv == h.dv && Opened(g0, g, 0) && g.m == g0.m
    && g0.o.top != 0 && g.o.top != 0 && g.o.live == g0.o.live && g.T[b].Chunk? && p > 0
  }

  /** The chunk at b is as big as it was, and free if it was. */
  ghost predicate SameNext(T: Layout, T': Layout, b: int) {
    b in T && b in T' && T[b].Chunk? && T'[b].Chunk? && T'[b].size == T[b].size && T'[b].cinuse == T[b].cinuse
  }

  /** The words of a chunk up to hi, which may be its next chunk's first. */
  lemma OwnKept(m: Memory, m': Memory, p: int, r: int, b: int, hi: int)
    requires WritesAt(m, m', p, r, b) && (r >= hi || Get(m', r) == Get(m, r)) && (b >= hi || Get(m', b) == Get(m, b))
    requires r + WORD >= hi && b + WORD >= hi
    ensures Kept(m, m', p, hi)
  {
    forall x | p + 2 * WORD <= x < hi ensures Get(m', x) == Get(m, x) {
    }
  }

  /** set_inuse on both parts of what the chunk holds, in either order. */
  lemma TwoUsed(g0: State, g: State, foot: int, p: int, b: int, nb: int, m': Memory) returns (s': State)
    requires Gapped(g, foot, p, b) && Opened(g0, g, 0) && g0.o.top != 0 && g.o.top != 0 && g.o.live == g0.o.live &&
      g.T[b].Chunk?
    requires MIN_CHUNK <= nb && b - p - nb >= MIN_CHUNK && nb % ALIGN == 0
    requires m' == UseHead(UseHead(g.m, p, nb), p + nb, b - p - nb) ||
      m' == UseHead(UseHead(g.m, p + nb, b - p - nb), p, nb)
    ensures s'.m == m' && s'.o == g.o.(live := g.o.live + {p} + {p + nb}) && s'.segs == g.segs
    ensures Sound(s') && Local(g0, s', 0)
    ensures p in s'.T && s'.T[p].Chunk? && s'.T[p].size == nb && p + nb in s'.T && s'.T[p + nb].Chunk? &&
      s'.T[p + nb].size == b - p - nb && s'.T[p + nb].pinuse && SameNext(g.T, s'.T, b)
    ensures m' == UseHead(UseHead(g.m, p, nb), p + nb, b - p - nb) ==> Kept(g.m, m', p, p + nb + WORD)
  {
    assert Look(0);
    var T' := MakeTwo(g.T, p, b, nb, true, true);
    if m' == UseHead(UseHead(g.m, p, nb), p + nb, b - p - nb) {
      CutUsedWritten(g.m, g.T, T', p, b, nb);
      OwnKept(g.m, m', p, p + nb, b, p + nb + WORD);
    } else {
      CutBackWritten(g.m, g.T, T', p, b, nb);
    }
    s' := CloseTwo(g, foot, p, b, nb, true, true, User, User, m', T');
    Closing(g0, g, s', 0, foot, p, p + nb, b);
  }

  /** set_inuse on the whole. */
  lemma OneUsed(g0: State, g: State, foot: int, p: int, b: int, hi: int) returns (s': State)
    requires Gapped(g, foot, p, b) && Opened(g0, g, 0) && g0.o.top != 0 && g.o.top != 0 && g.o.live == g0.o.live &&
      g.T[b].Chunk?
    requires b - p >= MIN_CHUNK && hi <= b
    ensures s'.m == UseHead(g.m, p, b - p) && s'.o == g.o.(live := g.o.live + {p}) && s'.segs == g.segs
    ensures Sound(s') && Local(g0, s', 0) && p in s'.T && s'.T[p].Chunk? && s'.T[p].size == b - p &&
      Kept(g.m, s'.m, p, hi)
  {
    assert Look(0);
    var T' := MakeOne(g.T, p, b, true);
    UseHeadWritten(g.m, g.T, T', p, b);
    s' := CloseOne(g, foot, p, b, true, User, UseHead(g.m, p, b - p), T');
    Closing(g0, g, s', 0, foot, p, b, b);
    OwnKept(g.m, s'.m, p, b, b, hi);
  }

  /** Growing into top. */
  lemma GrownTop(g0: State, g: State, p: int, foot: int, nb: int, hi: int) returns (s': State)
    requires Gapped(g, foot, p, foot) && Opened(g0, g, 0) && g0.o.top != 0 && g.o.top == 0 && g.o.live == g0.o.live &&
      g.T[foot].Foot?
    requires MIN_CHUNK <= nb < foot - p && nb % ALIGN == 0 && hi <= p + nb + WORD && hi <= foot && p > 0
    ensures s'.m == PutHead(UseHead(g.m, p, nb), p + nb, foot - p - nb + 1) && s'.segs == g.segs
    ensures s'.o == g.o.(live := g.o.live + {p}, top := p + nb, topsize := foot - p - nb)
    ensures Sound(s') && Local(g0, s', 0) && p in s'.T && s'.T[p].Chunk? && s'.T[p].size == nb && Kept(g.m, s'.m, p, hi)
  {
    assert Look(0);
    var T' := MakeTwo(g.T, p, foot, nb, true, false);
    GrowTopWritten(g.m, g.T, T', p, foot, nb);
    s' := CloseTwo(g, foot, p, foot, nb, true, false, User, Top,
      PutHead(UseHead(g.m, p, nb), p + nb, foot - p - nb + 1), T');
    Closing(g0, g, s', 0, foot, p, p + nb, foot);
    OwnKept(g.m, s'.m, p, p + nb, foot, hi);
  }

  /** Growing into dv. */
  lemma GrownVictim(g0: State, g: State, foot: int, p: int, b: int, nb: int, hi: int) returns (s': State)
    requires Gapped(g, foot, p, b) && Opened(g0, g, 0) && g0.o.top != 0 && g.o.top != 0 && g.o.dv == 0 &&
      g.o.live == g0.o.live
    requires g.T[b].Chunk? && g.T[b].cinuse && p > 0
    requires MIN_CHUNK <= nb && b - p - nb >= MIN_CHUNK && nb % ALIGN == 0 && hi <= p + nb + WORD
    ensures s'.m == ClearPrev(FreeHead(UseHead(g.m, p, nb), p + nb, b - p - nb), b) && s'.segs == g.segs
    ensures s'.o == g.o.(live := g.o.live + {p}, dv := p + nb, dvsize := b - p - nb)
    ensures Sound(s') && Local(g0, s', 0) && p in s'.T && s'.T[p].Chunk? && s'.T[p].size == nb && Kept(g.m, s'.m, p, hi)
  {
    assert Look(0);
    var T' := MakeTwo(g.T, p, b, nb, true, false);
    GrowVictimWritten(g.m, g.T, T', p, b, nb);
    s' := CloseTwo(g, foot, p, b, nb, true, false, User, Victim,
      ClearPrev(FreeHead(UseHead(g.m, p, nb), p + nb, b - p - nb), b), T');
    Closing(g0, g, s', 0, foot, p, p + nb, b);
    OwnKept(g.m, s'.m, p, p + nb, b, hi);
  }

  function Min(x: int, y: int): int { if x < y then x else y }

  /** The chunk at p, with the free space behind it, has nb bytes; top must not be used up. */
  ghost predicate Growable(s: State, p: int, nb: int)
    requires p in s.T && s.T[p].Chunk?
  {
    var n := s.T[p].size;
    var next := p + n;
    n >= nb ||
    if next == s.o.top then n + s.o.topsize > nb
    else if next == s.o.dv then n + s.o.dvsize >= nb
    else next in s.T && s.T[next].Chunk? && !s.T[next].cinuse && n + s.T[next].size >= nb
  }

  /**
    * Who owns what once the user's chunk at p has nb bytes: what it has too much is free, and joins what follows; what
    * it has too little comes from top, from dv or from the free chunk behind it, of which the rest stays free. Too
    * little for a chunk stays with it.
    */
  ghost function Shared(s: State, p: int, nb: int): Owners
    requires p in s.T && s.T[p].Chunk?
  {
    var n, r, o := s.T[p].size, p + nb, s.o;
    var next := p + n;
    if n >= nb then
      if n - nb < MIN_CHUNK then o else Rest(s.T, o, r, next)
    else if next == o.top then o.(top := r, topsize := o.topsize - (nb - n))
    else if next == o.dv then
      if n + o.dvsize - nb < MIN_CHUNK then o.(dv := 0, dvsize := 0) else o.(dv := r, dvsize := o.dvsize - (nb - n))
    else if next in s.T && s.T[next].Chunk? then
      var rest, left := o.binned - {next}, n + s.T[next].size - nb;
      o.(binned := if left < MIN_CHUNK then rest else rest[r := left])
    else o
  }

  /** The chunk of the user at p has been resized where it is: it has room for nb and hardly more, and keeps what it can
      hold of its contents. */
  ghost predicate Resized(h: Heap, s: State, p: int, nb: int)
    reads h, h.bins, h.bins.small, h.bins.large
  {
    && h.Valid() && Preserved(s, h.View(), p) && h.live == s.o.live && p in s.T && p in h.T && h.T[p].Chunk?
    && nb <= h.T[p].size < nb + MIN_CHUNK
    && Kept(s.m, h.m, p, Min(PayloadEnd(s.T, p), PayloadEnd(h.T, p)))
  }

  /** The chunk at p was the user's in s, and has no owner in g0. */
  ghost predicate LetGo(s: State, g0: State, p: int) {
    && Local(s, g0, p) && g0.m == s.m && g0.T == s.T && p in s.o.live && g0.o.live == s.o.live - {p} && p in s.T &&
      s.T[p].Chunk?
  }

  lemma Back(h: Heap, s: State, g0: State, s': State, p: int, n: int, nb: int)
    requires LetGo(s, g0, p) && Local(g0, s', 0) && Sound(s) && Sound(s')
    requires s'.o.live == g0.o.live + {p} && nb <= n < nb + MIN_CHUNK
    requires p in s'.T && s'.T[p].Chunk? && s'.T[p].size == n &&
      Kept(s.m, s'.m, p, Min(PayloadEnd(s.T, p), p + n + WORD))
    requires h.bins.Valid() && h.View() == s' && Accounted(g0.T, h.segs, h.maps, h.footprint, h.maxFootprint)
    ensures Resized(h, s, p, nb)
  {
    NoZero(s);
    LocalTrans(s, g0, s', p, 0);
    StillAccounted(g0.T, s'.T, h.segs, h.maps, h.footprint, h.maxFootprint);
  }

  /** The chunk at p has n bytes, and the heap is as s' says once the layout is. */
  method Adopt(h: Heap, ghost s: State, ghost g0: State, ghost s': State, ghost p: int, ghost n: int, ghost nb: int)
    requires LetGo(s, g0, p) && Local(g0, s', 0) && Sound(s) && Sound(s')
    requires s'.o.live == h.live == g0.o.live + {p} && nb <= n < nb + MIN_CHUNK
    requires p in s'.T && s'.T[p].Chunk? && s'.T[p].size == n &&
      Kept(s.m, s'.m, p, Min(PayloadEnd(s.T, p), p + n + WORD))
    requires h.bins.Valid() && h.View() == s'.(T := h.T)
    requires Accounted(g0.T, h.segs, h.maps, h.footprint, h.maxFootprint)
    modifies h`T
    ensures Resized(h, s, p, nb) && h.View() == s'
  {
    h.T := s'.T;
    Back(h, s, g0, s', p, n, nb);
  }

  /** The words of both parts have been written. */
  method SettleTwo(h: Heap, ghost p: int, ghost b: int, ghost nb: int, ghost g0: State, ghost g: State, ghost foot: int)
      returns (ghost s': State)
    requires Gapped(g, foot, p, b) && Opened(g0, g, 0) && g0.o.top != 0 && g.o.top != 0 && g.o.live == g0.o.live &&
      g.T[b].Chunk?
    requires MIN_CHUNK <= nb && b - p - nb >= MIN_CHUNK && nb % ALIGN == 0 && h.bins.Valid() && h.View() == g.(m := h.m)
    requires h.m == UseHead(UseHead(g.m, p, nb), p + nb, b - p - nb) ||
      h.m == UseHead(UseHead(g.m, p + nb, b - p - nb), p, nb)
    requires Accounted(g0.T, h.segs, h.maps, h.footprint, h.maxFootprint)
    modifies h`T, h`live
    ensures h.Valid() && h.View() == s' && Local(g0, s', 0) && s'.o == g.o.(live := g.o.live + {p} + {p + nb})
    ensures p in s'.T && s'.T[p].Chunk? && s'.T[p].size == nb && p + nb in s'.T && s'.T[p + nb].Chunk? &&
      s'.T[p + nb].size == b - p - nb && s'.T[p + nb].pinuse && SameNext(g.T, s'.T, b)
    ensures h.m == UseHead(UseHead(g.m, p, nb), p + nb, b - p - nb) ==> Kept(g.m, h.m, p, p + nb + WORD)
  {
    s' := TwoUsed(g0, g, foot, p, b, nb, h.m);
    h.T, h.live := s'.T, s'.o.live;
    h.Is(s');
    StillAccounted(g0.T, s'.T, h.segs, h.maps, h.footprint, h.maxFootprint);
  }

  /** The chunk keeps nb bytes of what it holds, and the rest is disposed of. */
  method SplitOff(h: Heap, p: int, size: int, nb: int, ghost s: State, ghost g0: State, ghost g: State, ghost foot: int)
    requires Sound(s) && LetGo(s, g0, p) && Holding(h, g0, g, foot, p, p + size) && p + nb !in s.o.live
    requires MIN_CHUNK <= nb && size - nb >= MIN_CHUNK && nb % ALIGN == 0
    requires Accounted(g0.T, h.segs, h.maps, h.footprint, h.maxFootprint)
    modifies h`m, h`dv, h`dvsize, h`top, h`topsize, h`T, h`live, h.bins, h.bins.small, h.bins.large
    ensures Resized(h, s, p, nb) && h.View().o == Rest(g.T, g.o.(live := s.o.live), p + nb, p + size)
  {
    var r, rsize := p + nb, size - nb;
    h.m := UseHead(UseHead(h.m, p, nb), r, rsize);
    ghost var s' := SettleTwo(h, p, p + size, nb, g0, g, foot);
    DisposeIn(h, r, rsize, s');
    LiveAgain(s.o.live, p);
    LiveLess(s.o.live, r);
    SplitBack(h, s, g0, s', p, nb);
  }

  /** dispose_chunk in the heap with this state */
  method DisposeIn(h: Heap, p: int, size: int, ghost s': State)
    requires h.Valid() && h.View() == s' && p in h.live && p in h.T && h.T[p].Chunk? && h.T[p].size == size
    modifies h`m, h`dv, h`dvsize, h`top, h`topsize, h`T, h`live, h.bins, h.bins.small, h.bins.large
    ensures h.Valid() && h.live == s'.o.live - {p} && Local(s', h.View(), p)
    ensures s'.T[p].pinuse ==> h.View().o == Rest(s'.T, s'.o.(live := s'.o.live - {p}), p, p + size)
  {
    if h.T[p].pinuse { FreedIsRest(s', p); }
    Dispose(h, p, size);
  }

  lemma SplitBack(h: Heap, s: State, g0: State, s': State, p: int, nb: int)
    requires LetGo(s, g0, p) && Local(g0, s', 0) && Sound(s) && s'.o.live == g0.o.live + {p} + {p + nb} &&
      p + nb !in s.o.live
    requires p in s'.T && s'.T[p].Chunk? && s'.T[p].size == nb > 0 && Kept(s.m, s'.m, p, p + nb + WORD)
    requires h.Valid() && Local(s', h.View(), p + nb) && h.live == s'.o.live - {p + nb}
    ensures Resized(h, s, p, nb)
  {
    NoZero(s);
    LocalTrans(s, g0, s', p, 0);
    PreservedTrans(s, s', h.View(), p, p + nb);
    assert Intact(s', h.View(), p);
    NotMapped(h, s', p);
  }

  /** A chunk in a segment stays one. */
  lemma NotMapped(h: Heap, s': State, p: int)
    requires h.Valid() && p in s'.T && s'.T[p].Chunk? && s'.T[p].size > 0 && p in h.live && p in s'.o.live && p != 0
    requires Local(s', h.View(), p + s'.T[p].size)
    ensures p in h.T && h.T[p].Chunk? && h.T[p].size == s'.T[p].size
  {
    assert Look(0);
    assert SameMap(s'.T, h.T, p) && Intact(s', h.View(), p);
  }

  /** The whole of what the chunk holds is in use. */
  method TakeAll(h: Heap, p: int, size: int, nb: int, ghost s: State, ghost g0: State, ghost g: State, ghost foot: int)
    requires Sound(s) && LetGo(s, g0, p) && Holding(h, g0, g, foot, p, p + size) && s.T[p].size <= size - ALIGN
    requires MIN_CHUNK <= nb <= size < nb + MIN_CHUNK
    requires Accounted(g0.T, h.segs, h.maps, h.footprint, h.maxFootprint)
    modifies h`m, h`T, h`live
    ensures Resized(h, s, p, nb) && h.View().o == g.o.(live := s.o.live)
  {
    h.m := UseHead(h.m, p, size);
    ghost var s' := OneUsed(g0, g, foot, p, p + size, PayloadEnd(s.T, p));
    h.T, h.live := s'.T, s'.o.live;
    h.Is(s');
    LiveAgain(s.o.live, p);
    Back(h, s, g0, s', p, size, nb);
  }

  /** The chunk of the user at p loses its owner. */
  lemma LetUserGo(h: Heap, p: int) returns (g0: State)
    requires h.Valid() && p in h.live && p in h.T && h.T[p].Chunk?
    ensures LetGo(h.View(), g0, p) && g0 == h.View().(o := h.View().o.(live := h.live - {p}))
    ensures Gapped(g0, h.top + h.topsize, p, p + h.T[p].size) && p > 0 && h.top != 0 && g0.T[p + h.T[p].size].Chunk?
    ensures h.dv != p && h.T[p].size >= MIN_CHUNK && h.T[p].size % ALIGN == 0
  {
    var s := h.View();
    NoZero(s);
    g0 := OpenUser(s, p);
    OwnHead(g0, h.top + h.topsize, p, p + h.T[p].size);
    assert Look(0);
    CellAt(h.T, p);
  }

  /** No user has a chunk inside another's. */
  lemma NoneInside(s: State, p: int, r: int)
    requires Sound(s) && p in s.T && s.T[p].Chunk? && p < r < p + s.T[p].size
    ensures r !in s.T && r !in s.o.live
  {
    assert Look(0);
    CellAt(s.T, p);
  }

  /** already big enough: what is left over is split off if it makes a chunk */
  method Fits(h: Heap, p: int, oldsize: int, nb: int)
    requires h.Valid() && p in h.live && p in h.T && h.T[p].Chunk? && h.T[p].size == oldsize >= nb >= MIN_CHUNK &&
      nb % ALIGN == 0
    modifies h`m, h`dv, h`dvsize, h`top, h`topsize, h`T, h`live, h.bins, h.bins.small, h.bins.large
    ensures Resized(h, old(h.View()), p, nb) && h.View().o == Shared(old(h.View()), p, nb)
  {
    ghost var s := h.View();
    if oldsize - nb >= MIN_CHUNK {
      ghost var g0 := LetUserGo(h, p);
      ghost var foot := h.top + h.topsize;
      NoneInside(s, p, p + nb);
      h.live := h.live - {p};
      SplitOff(h, p, oldsize, nb, s, g0, g0, foot);
    } else {
      NoZero(s);
      Unchanged(s);
    }
  }

  /** extend into top */
  method IntoTop(h: Heap, p: int, oldsize: int, nb: int) returns (ok: bool)
    requires h.Valid() && p in h.live && p in h.T && h.T[p].Chunk? && h.T[p].size == oldsize && nb % ALIGN == 0 &&
      nb > oldsize
    requires p + oldsize == h.top && h.top != 0
    modifies h`m, h`top, h`topsize, h`T, h`live
    ensures ok <==> Growable(old(h.View()), p, nb)
    ensures if ok then Resized(h, old(h.View()), p, nb) else h.Valid() && h.View() == old(h.View())
    ensures ok ==> h.View().o == Shared(old(h.View()), p, nb)
  {
    ghost var s := h.View();
    ok := oldsize + h.topsize > nb;
    if ok {
      ghost var g0 := LetUserGo(h, p);
      ghost var foot := h.top + h.topsize;
      ghost var g := JoinTop(g0, foot, p, h.top);
      ghost var s' := GrownTop(g0, g, p, foot, nb, p + oldsize + WORD);
      var newtop, newtopsize := p + nb, oldsize + h.topsize - nb;
      h.m := PutHead(UseHead(h.m, p, nb), newtop, newtopsize + 1);
      h.top, h.topsize := newtop, newtopsize;
      LiveAgain(h.live, p);
      Adopt(h, s, g0, s', p, nb, nb);
    }
  }

  lemma LiveAgain(live: set<int>, p: int)
    requires p in live
    ensures live - {p} + {p} == live
  {
  }

  lemma LiveLess(live: set<int>, r: int)
    requires r !in live
    ensures live + {r} - {r} == live
  {
  }

  /** The gap of the chunk and dv. */
  lemma WithVictim(h: Heap, p: int, oldsize: int) returns (g0: State, g: State)
    requires h.Valid() && p in h.live && p in h.T && h.T[p].Chunk? && h.T[p].size == oldsize
    requires p + oldsize == h.dv && h.dv != 0 && h.dv != h.top
    ensures var foot, b := h.top + h.topsize, h.dv + h.dvsize;
      && LetGo(h.View(), g0, p) && Gapped(g, foot, p, b) && Opened(g0, g, 0) && g.m == h.m && g.T == h.T &&
        g.o.live == g0.o.live
      && g.T[b].Chunk? && g.T[b].cinuse && p > 0
      && g.o == h.View().o.(live := h.live - {p}, dv := 0, dvsize := 0) && h.top != 0 && g.segs == h.segs
      && h.dvsize >= MIN_CHUNK && oldsize >= MIN_CHUNK
  {
    g0 := LetUserGo(h, p);
    g := JoinVictim(g0, h.top + h.topsize, p, h.dv);
  }

  /** extend into dv, which keeps the rest */
  method SplitVictim(h: Heap, p: int, oldsize: int, nb: int)
    requires h.Valid() && p in h.live && p in h.T && h.T[p].Chunk? && h.T[p].size == oldsize && nb % ALIGN == 0 &&
      nb > oldsize
    requires p + oldsize == h.dv && h.dv != 0 && h.dv != h.top && oldsize + h.dvsize - nb >= MIN_CHUNK
    modifies h`m, h`dv, h`dvsize, h`T
    ensures Resized(h, old(h.View()), p, nb) && h.View().o == Shared(old(h.View()), p, nb)
  {
    ghost var s := h.View();
    ghost var g0, g := WithVictim(h, p, oldsize);
    var dsize := oldsize + h.dvsize - nb;
    ghost var s' := GrownVictim(g0, g, h.top + h.topsize, p, p + oldsize + h.dvsize, nb, p + oldsize + WORD);
    var r := p + nb;
    h.m := ClearPrev(FreeHead(UseHead(h.m, p, nb), r, dsize), r + dsize);
    h.dvsize, h.dv := dsize, r;
    LiveAgain(h.live, p);
    Adopt(h, s, g0, s', p, nb, nb);
  }

  /** exhaust dv */
  method ExhaustVictim(h: Heap, p: int, oldsize: int, nb: int)
    requires h.Valid() && p in h.live && p in h.T && h.T[p].Chunk? && h.T[p].size == oldsize
    requires p + oldsize == h.dv && h.dv != 0 && h.dv != h.top && nb <= oldsize + h.dvsize < nb + MIN_CHUNK
    modifies h`m, h`dv, h`dvsize, h`T
    ensures Resized(h, old(h.View()), p, nb) && h.View().o == Shared(old(h.View()), p, nb)
  {
    ghost var s := h.View();
    ghost var g0, g := WithVictim(h, p, oldsize);
    var newsize := oldsize + h.dvsize;
    ghost var s' := OneUsed(g0, g, h.top + h.topsize, p, p + newsize, p + oldsize + WORD);
    h.m := UseHead(h.m, p, newsize);
    h.dvsize, h.dv := 0, 0;
    LiveAgain(h.live, p);
    Adopt(h, s, g0, s', p, newsize, nb);
  }

  /** extend into dv */
  method IntoVictim(h: Heap, p: int, oldsize: int, nb: int) returns (ok: bool)
    requires h.Valid() && p in h.live && p in h.T && h.T[p].Chunk? && h.T[p].size == oldsize && nb % ALIGN == 0 &&
      nb > oldsize
    requires p + oldsize == h.dv && h.dv != 0 && h.dv != h.top
    modifies h`m, h`dv, h`dvsize, h`T
    ensures ok <==> Growable(old(h.View()), p, nb)
    ensures if ok then Resized(h, old(h.View()), p, nb) else h.Valid() && h.View() == old(h.View())
    ensures ok ==> h.View().o == Shared(old(h.View()), p, nb)
  {
    ok := oldsize + h.dvsize >= nb;
    if ok {
      if oldsize + h.dvsize - nb >= MIN_CHUNK {
        SplitVictim(h, p, oldsize, nb);
      } else {
        ExhaustVictim(h, p, oldsize, nb);
      }
    }
  }

  /** extend into next free chunk */
  method IntoNext(h: Heap, p: int, oldsize: int, nb: int) returns (ok: bool)
    requires h.Valid() && p in h.live && p in h.T && h.T[p].Chunk? && h.T[p].size == oldsize && nb % ALIGN == 0 &&
      nb > oldsize
    requires p + oldsize != h.dv && p + oldsize != h.top && p + oldsize in h.T && h.T[p + oldsize].Chunk? &&
      !h.T[p + oldsize].cinuse
    requires SizeBits(HeadOf(h.m, p + oldsize)) == h.T[p + oldsize].size
    modifies h`m, h`dv, h`dvsize, h`top, h`topsize, h`T, h`live, h.bins, h.bins.small, h.bins.large
    ensures ok <==> Growable(old(h.View()), p, nb)
    ensures if ok then Resized(h, old(h.View()), p, nb) else h.Valid() && h.View() == old(h.View())
    ensures ok ==> h.View().o == Shared(old(h.View()), p, nb)
  {
    ghost var s := h.View();
    var next := p + oldsize;
    var nextsize := SizeBits(HeadOf(h.m, next));
    ok := oldsize + nextsize >= nb;
    if ok {
      ghost var g0 := LetUserGo(h, p);
      ghost var foot := h.top + h.topsize;
      ghost var g := JoinBinned(g0, foot, p, next);
      NextRoom(s, p, next, nb);
      UsedNext(g, foot, p, next + nextsize);
      h.live := h.live - {p};
      h.bins.Unlink(next, nextsize);
      var newsize := oldsize + nextsize;
      if newsize - nb < MIN_CHUNK {
        TakeAll(h, p, newsize, nb, s, g0, g, foot);
      } else {
        SplitOff(h, p, newsize, nb, s, g0, g, foot);
      }
    }
  }

  /** No user has a chunk inside the one behind. */
  lemma NextRoom(s: State, p: int, next: int, nb: int)
    requires Sound(s) && p in s.T && s.T[p].Chunk? && next == p + s.T[p].size && next in s.T && s.T[next].Chunk? &&
      !s.T[next].cinuse
    requires nb > s.T[p].size && nb % ALIGN == 0
    ensures p + nb < next + s.T[next].size ==> p + nb !in s.o.live
    ensures s.T[next].size >= ALIGN && nb >= MIN_CHUNK
  {
    assert Look(0);
    CellAt(s.T, p);
    CellAt(s.T, next);
    SizeAtLeast(s.T[next].size);
    SizeAtLeast(s.T[p].size);
    AlignedGap(s.T[p].size, nb);
    SizeAtLeast(nb - s.T[p].size);
  }

  lemma SizeAtLeast(n: int)
    requires n > 0 && n % ALIGN == 0
    ensures n >= ALIGN
  {
  }

  /** What follows the chunk of a user, as the words tell. */
  lemma Behind(s: State, p: int)
    requires Sound(s) && p in s.o.live && p in s.T && s.T[p].Chunk?
    ensures var next := p + s.T[p].size;
      && next in s.T && s.T[next].Chunk? && CBit(HeadOf(s.m, next)) == s.T[next].cinuse
      && SizeBits(HeadOf(s.m, next)) == s.T[next].size && next > 0 && s.T[p].size >= MIN_CHUNK
      && (next == s.o.top ==> s.o.top != 0) && (s.o.dv != 0 ==> s.o.dv != s.o.top)
  {
    BehindUsed(s, p);
    assert Look(0);
    CellAt(s.T, p);
    CellAt(s.T, p + s.T[p].size);
    Unpack(s.T[p + s.T[p].size]);
  }

  /** try_realloc_chunk, for a chunk in a segment */
  method TryInPlace(h: Heap, p: int, nb: int) returns (ok: bool)
    requires h.Valid() && p in h.live && p in h.T && h.T[p].Chunk? && nb >= MIN_CHUNK && nb % ALIGN == 0
    requires SizeBits(HeadOf(h.m, p)) == h.T[p].size
    modifies h`m, h`dv, h`dvsize, h`top, h`topsize, h`T, h`live, h.bins, h.bins.small, h.bins.large
    ensures ok <==> Growable(old(h.View()), p, nb)
    ensures if ok then Resized(h, old(h.View()), p, nb) else h.Valid() && h.View() == old(h.View())
    ensures ok ==> h.View().o == Shared(old(h.View()), p, nb)
  {
    var oldsize := SizeBits(HeadOf(h.m, p));
    var next := p + oldsize;
    Behind(h.View(), p);
    ok := false;
    if oldsize >= nb {
      Fits(h, p, oldsize, nb);
      ok := true;
    } else if next == h.top {
      ok := IntoTop(h, p, oldsize, nb);
    } else if next == h.dv {
      ok := IntoVictim(h, p, oldsize, nb);
    } else if !CBit(HeadOf(h.m, next)) {
      ok := IntoNext(h, p, oldsize, nb);
    }
  }
}
