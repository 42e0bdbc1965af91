/** What one step of malloc.c does to the whole state, and that it harms no chunk the user holds. */
module Moves {
  import opened Tiling
  import opened Words
  import opened Ownership
  import opened Segments
  import opened Steps

  ghost predicate Intact(s: State, s': State, c: int) {
    && c in s'.o.live && c in s.T && c in s'.T && PayloadEnd(s'.T, c) == PayloadEnd(s.T, c)
    && s'.T[c].Mapped? == s.T[c].Mapped?
    && Kept(s.m, s'.m, c, PayloadEnd(s.T, c))
  }

  /** Every chunk the user holds in s, except p, is still held in s', with the same payload. */
  ghost predicate Preserved(s: State, s': State, p: int) {
    forall c {:trigger Intact(s, s', c)} :: c in s.o.live && c != p ==> Intact(s, s', c)
  }

  lemma Unchanged(s: State)
    requires Sound(s)
    ensures Preserved(s, s, 0)
  {
    assert Look(0);
    forall c | c in s.o.live ensures Intact(s, s, c) { }
  }

  lemma PreservedTrans(s: State, s1: State, s2: State, p: int, q: int)
    requires Preserved(s, s1, p) && Preserved(s1, s2, q) && (q in s.o.live ==> q == p)
    ensures Preserved(s, s2, p)
  {
    forall c | c in s.o.live && c != p ensures Intact(s, s2, c) {
      assert Intact(s, s1, c) && Intact(s1, s2, c);
    }
  }

  ghost predicate SameMap(T: Layout, T': Layout, c: int) {
    (c in T && T[c].Mapped?) == (c in T' && T'[c].Mapped?) && (c in T && T[c].Mapped? ==> c in T' && T'[c] == T[c])
  }

  /** The directly mapped chunks are the same. */
  ghost predicate SameMaps(T: Layout, T': Layout) {
    forall c {:trigger SameMap(T, T', c)} :: SameMap(T, T', c)
  }

  /** A step inside the segments: nothing was mapped or unmapped, and no user but p's notices. */
  ghost predicate Local(s: State, s': State, p: int) {
    && Preserved(s, s', p) && SameMaps(s.T, s'.T)
    && s'.segs == s.segs && s'.o.records == s.o.records && (s.o.top == 0 <==> s'.o.top == 0)
  }

  lemma LocalTrans(s: State, s1: State, s2: State, p: int, q: int)
    requires Local(s, s1, p) && Local(s1, s2, q) && (q in s.o.live ==> q == p)
    ensures Local(s, s2, p)
  {
    PreservedTrans(s, s1, s2, p, q);
    forall c ensures SameMap(s.T, s2.T, c) {
      assert SameMap(s.T, s1.T, c) && SameMap(s1.T, s2.T, c);
    }
  }

  /** Chunks outside the gap keep their payload, whatever becomes of it. */
  lemma OutsideIntact(s: State, s': State, a: int, r: int, b: int, c: int)
    requires Tiled(s.T) && Run(s.T, a, b) && SameOutside(s.T, s'.T, a, b) && WritesAt(s.m, s'.m, a, r, b)
    requires a + WORD <= r <= b && c in s.T && !(a <= c < b) && c in s'.o.live
    ensures Intact(s, s', c)
  {
    Harmless(s.m, s'.m, s.T, a, r, b, c);
  }

  /** The memory and layout of s' differ from those of s in the gap only. */
  ghost predicate Changed(s: State, s': State, a: int, r: int, b: int) {
    && SameOutside(s.T, s'.T, a, b) && WritesAt(s.m, s'.m, a, r, b) && a + WORD <= r <= b
    && (forall c :: c in s'.T && a <= c < b ==> s'.T[c].Chunk?)
    && s'.segs == s.segs && s'.o.records == s.o.records
  }

  /** s0 is the state before the gap was opened, p the chunk whose user gave it up, or 0. */
  ghost predicate Opened(s0: State, g: State, p: int) {
    && s0.T == g.T && s0.m == g.m && s0.segs == g.segs && s0.o.records == g.o.records
    && (forall c :: c in s0.o.live && c != p ==> c in g.o.live)
  }

  lemma Closing(s0: State, g: State, s': State, p: int, foot: int, a: int, r: int, b: int)
    requires Opened(s0, g, p) && Gapped(g, foot, a, b) && Changed(g, s', a, r, b)
    requires s0.o.top != 0 && s'.o.top != 0 && g.o.live <= s'.o.live
    ensures Local(s0, s', p)
  {
    assert Look(0);
    forall c | c in s0.o.live && c != p ensures Intact(s0, s', c) {
      assert c in g.o.live;
      OutsideIntact(g, s', a, r, b, c);
    }
    forall c ensures SameMap(s0.T, s'.T, c) {
    }
  }

  /** What follows a free chunk other than top is a chunk in use that knows. */
  lemma BehindFree(s: State, p: int)
    requires Sound(s) && p in s.T && s.T[p].Chunk? && !s.T[p].cinuse && p != s.o.top
    ensures var b := p + s.T[p].size; b in s.T && s.T[b].Chunk? && s.T[b].cinuse && !s.T[b].pinuse
  {
    assert Look(0);
    var b := p + s.T[p].size;
    CellAt(s.T, p);
    CellAt(s.T, b);
    assert Placed(s.T, s.segs, p);
    if s.o.top != 0 { CellAt(s.T, s.o.top); }
  }

  /** The user of a chunk taken from a bin, dv or top. */
  ghost predicate Taken(s: State, s': State, p: int, n: int) {
    && Sound(s') && Local(s, s', 0) && p !in s.o.live && s'.o.live == s.o.live + {p}
    && p in s'.T && s'.T[p].Chunk? && s'.T[p].size == n && s'.T[p].cinuse
  }

  lemma NoZero(s: State)
    requires Sound(s)
    ensures 0 !in s.T && 0 !in s.o.live && 0 !in s.o.records && 0 !in s.o.binned
    ensures s.o.top == 0 ==> s.o.topsize == 0
    ensures s.o.dv == 0 <==> s.o.dvsize == 0
  {
    assert Look(0);
    assert 0 in s.T ==> CellOk(s.T, 0);
  }

  /** A free chunk of n bytes is one that is in a bin or dv. */
  ghost predicate FreeChunk(s: State, p: int, n: int) {
    p in s.T && s.T[p] == Chunk(n, false, true) && p != s.o.top && (p in s.o.binned || p == s.o.dv)
  }

  /** Nobody uses a free chunk. */
  lemma FreeIsFree(s: State, p: int, n: int)
    requires Sound(s) && FreeChunk(s, p, n)
    ensures p > 0 && p !in s.o.live && p !in s.o.records && s.segs != [] && s.o.top != 0 && n >= MIN_CHUNK &&
      n % ALIGN == 0
  {
    assert Look(0);
    CellAt(s.T, p);
    assert Placed(s.T, s.segs, p);
  }

  /** A chunk in use fills the first n bytes of a gap that was free. */
  lemma TakenFrom(s: State, g: State, s': State, foot: int, a: int, n: int, b: int)
    requires Sound(s') && s.o.top != 0 && s'.o.top != 0 && Opened(s, g, 0) && Gapped(g, foot, a, b) &&
      Changed(g, s', a, a + n, b)
    requires s'.o.live == g.o.live + {a} && g.o.live == s.o.live - {a} && a !in s.o.live
    requires s'.T[a].size == n && s'.T[a].cinuse
    ensures Taken(s, s', a, n)
  {
    Closing(s, g, s', 0, foot, a, a + n, b);
  }

  /** The gap becomes one chunk in use. */
  lemma UseGap(g: State, foot: int, a: int, b: int) returns (s': State)
    requires Gapped(g, foot, a, b) && g.T[b].Chunk? && g.T[a].pinuse && b - a >= MIN_CHUNK && g.o.top != 0
    ensures s'.m == UseBoth(g.m, a, b - a) && s'.o == Give(g.o, a, b - a, User) && Changed(g, s', a, b, b)
    ensures Sound(s') && s'.T[a].size == b - a && s'.T[a].cinuse && s'.o.live == g.o.live + {a} && s'.o.top != 0
  {
    assert Look(0);
    var T' := MakeOne(g.T, a, b, true);
    UseBothWritten(g.m, g.T, T', a, b);
    s' := CloseOne(g, foot, a, b, true, User, UseBoth(g.m, a, b - a), T');
  }

  /** The gap becomes a chunk in use and a free chunk. */
  lemma CutGap(g: State, foot: int, a: int, b: int, n: int, rest: int, role: Role, m': Memory, T': Layout)
      returns (s': State)
    requires Gapped(g, foot, a, b) && MIN_CHUNK <= n < b - a && n % ALIGN == 0 && rest == b - a - n && a > 0
    requires (role == Top && g.o.top == 0 && g.T[b].Foot?) ||
      (g.o.top != 0 && rest >= MIN_CHUNK && g.T[b].Chunk? && g.T[b].cinuse &&
      (role == Bin || (role == Victim && g.o.dv == 0)))
    requires IsTwo(g.T, T', a, b, n, true, false) && Written(m', T') && WritesAt(g.m, m', a, a + n, b)
    ensures s'.m == m' && s'.o == Give(Give(g.o, a, n, User), a + n, rest, role) && Changed(g, s', a, a + n, b)
    ensures Sound(s') && s'.T[a].size == n && s'.T[a].cinuse && s'.o.live == g.o.live + {a} && s'.o.top != 0
  {
    s' := CloseTwo(g, foot, a, b, n, true, false, User, role, m', T');
  }

  /** A free chunk loses its owner. */
  lemma OpenFree(s: State, p: int, n: int) returns (g: State)
    requires Sound(s) && FreeChunk(s, p, n)
    ensures g == Release(s, p) && Gapped(g, s.o.top + s.o.topsize, p, p + n) && Opened(s, g, 0)
    ensures var b := p + n; g.T[b].Chunk? && g.T[b].cinuse && !g.T[b].pinuse && g.T[p].pinuse
    ensures p > 0 && p !in s.o.live && g.o.live == s.o.live && g.o.top == s.o.top != 0 && n >= MIN_CHUNK &&
      n % ALIGN == 0
    ensures g.o.dv == if p == s.o.dv then 0 else s.o.dv
  {
    assert Look(0);
    FreeIsFree(s, p, n);
    BehindFree(s, p);
    Open(s, p);
    g := Release(s, p);
  }

  /** The whole of a free chunk goes to the user. */
  lemma UseWhole(s: State, p: int, n: int) returns (s': State)
    requires Sound(s) && FreeChunk(s, p, n)
    ensures s'.m == UseBoth(s.m, p, n) && s'.o == Give(Drop(s.o, p), p, n, User) && s'.segs == s.segs
    ensures Taken(s, s', p, n)
  {
    var g := OpenFree(s, p, n);
    s' := UseGap(g, s.o.top + s.o.topsize, p, p + n);
    TakenFrom(s, g, s', s.o.top + s.o.topsize, p, n, p + n);
  }

  /** Where the rest of a chunk that is cut may go. */
  predicate RestRole(s: State, p: int, role: Role) {
    role == Bin || (role == Victim && (s.o.dv == 0 || s.o.dv == p))
  }

  /** The first nb bytes of a free chunk go to the user, the rest to a bin or dv. */
  lemma CutFree(s: State, p: int, n: int, nb: int, role: Role, m': Memory) returns (s': State)
    requires Sound(s) && FreeChunk(s, p, n) && RestRole(s, p, role)
    requires MIN_CHUNK <= nb && MIN_CHUNK <= n - nb && nb % ALIGN == 0
    requires m' == FreeHead(UseSize(s.m, p, nb), p + nb, n - nb) || m' == UseSize(FreeHead(s.m, p + nb, n - nb), p, nb)
    ensures s'.m == m' && s'.o == Give(Give(Drop(s.o, p), p, nb, User), p + nb, n - nb, role) && s'.segs == s.segs
    ensures Taken(s, s', p, nb)
  {
    var g := OpenFree(s, p, n);
    s' := CutFreeGap(g, s.o.top + s.o.topsize, p, n, nb, role, m');
    TakenFrom(s, g, s', s.o.top + s.o.topsize, p, nb, p + n);
  }

  lemma CutFreeGap(g: State, foot: int, p: int, n: int, nb: int, role: Role, m': Memory) returns (s': State)
    requires Gapped(g, foot, p, p + n) && p > 0 && g.o.top != 0 && (role == Bin || (role == Victim && g.o.dv == 0))
    requires var b := p + n; g.T[b].Chunk? && g.T[b].cinuse && !g.T[b].pinuse && g.T[p].pinuse
    requires MIN_CHUNK <= nb && MIN_CHUNK <= n - nb && nb % ALIGN == 0
    requires m' == FreeHead(UseSize(g.m, p, nb), p + nb, n - nb) || m' == UseSize(FreeHead(g.m, p + nb, n - nb), p, nb)
    ensures s'.m == m' && s'.o == Give(Give(g.o, p, nb, User), p + nb, n - nb, role) && Changed(g, s', p, p + nb, p + n)
    ensures Sound(s') && s'.T[p].size == nb && s'.T[p].cinuse && s'.o.live == g.o.live + {p} && s'.o.top != 0
  {
    assert Look(0);
    var b := p + n;
    var T' := MakeTwo(g.T, p, b, nb, true, false);
    CutFreeWritten(g.m, m', g.T, T', p, b, nb);
    s' := CutGap(g, foot, p, b, nb, n - nb, role, m', T');
  }

  /** top loses its owner. */
  lemma OpenTop(s: State) returns (g: State)
    requires Sound(s) && s.o.top != 0
    ensures var p, b := s.o.top, s.o.top + s.o.topsize;
      && g == Release(s, p) && Gapped(g, b, p, b) && Opened(s, g, 0) && g.T[b].Foot? && g.T[p].pinuse
      && p > 0 && p !in s.o.live && g.o.live == s.o.live && g.o.top == 0
  {
    assert Look(0);
    NoZero(s);
    CellAt(s.T, s.o.top);
    Open(s, s.o.top);
    g := Release(s, s.o.top);
  }

  /** The first nb bytes of top go to the user. */
  lemma CutTop(s: State, nb: int) returns (s': State)
    requires Sound(s) && MIN_CHUNK <= nb < s.o.topsize && nb % ALIGN == 0
    ensures var p, n := s.o.top, s.o.topsize;
      && s'.m == UseSize(PutHead(s.m, p + nb, n - nb + 1), p, nb)
      && s'.o == Give(Give(Drop(s.o, p), p, nb, User), p + nb, n - nb, Top) && s'.segs == s.segs && Taken(s, s', p, nb)
  {
    var p, n := s.o.top, s.o.topsize;
    NoZero(s);
    var g := OpenTop(s);
    s' := CutTopGap(g, p, n, nb);
    TakenFrom(s, g, s', p + n, p, nb, p + n);
  }

  lemma CutTopGap(g: State, p: int, n: int, nb: int) returns (s': State)
    requires Gapped(g, p + n, p, p + n) && g.o.top == 0 && p > 0 && g.T[p + n].Foot? && g.T[p].pinuse &&
      MIN_CHUNK <= nb < n && nb % ALIGN == 0
    ensures s'.m == UseSize(PutHead(g.m, p + nb, n - nb + 1), p, nb)
    ensures s'.o == Give(Give(g.o, p, nb, User), p + nb, n - nb, Top) && Changed(g, s', p, p + nb, p + n)
    ensures Sound(s') && s'.T[p].size == nb && s'.T[p].cinuse && s'.o.live == g.o.live + {p} && s'.o.top != 0
  {
    assert Look(0);
    var b, m' := p + n, UseSize(PutHead(g.m, p + nb, n - nb + 1), p, nb);
    var T' := MakeTwo(g.T, p, b, nb, true, false);
    CutTopWritten(g.m, m', g.T, T', p, b, nb);
    s' := CutGap(g, b, p, b, nb, n - nb, Top, m', T');
  }

  /** dv may go to a bin at any time. */
  lemma RebinVictim(s: State)
    requires Sound(s) && s.o.dv != 0
    ensures Sound(s.(o := s.o.(binned := s.o.binned[s.o.dv := s.o.dvsize], dv := 0, dvsize := 0)))
  {
    assert Look(0);
    var s' := s.(o := s.o.(binned := s.o.binned[s.o.dv := s.o.dvsize], dv := 0, dvsize := 0));
    assert CellOk(s.T, s.o.dv);
    forall c | c in s.T ensures Held(s.T, s'.o, c) { assert Held(s.T, s.o, c); }
  }
}
