/** The memory users hold in a malloc.c heap: aligned, apart from each other, and theirs to write. */
module Payloads {
  import opened Tiling
  import opened Words
  import opened Ownership
  import opened Segments
  import opened Steps
  import opened Moves
  import opened Swapping
  import opened Growing

  /** The user's memory in a chunk: from two words behind its start up to its end. */
  predicate InPayload(T: Layout, c: int, x: int)
    requires c in T
  {
    c + 2 * WORD <= x < PayloadEnd(T, c)
  }

  /** Memory handed out is aligned, and no two users share a word of it. */
  lemma LiveApart(s: State, c: int, d: int)
    requires Sound(s) && c in s.o.live && d in s.o.live && c != d
    ensures c in s.T && d in s.T && (c + 2 * WORD) % ALIGN == 0
    ensures forall x :: InPayload(s.T, c, x) ==> !InPayload(s.T, d, x)
  {
    assert Look(0);
    CellAt(s.T, c);
    CellAt(s.T, d);
    if c < d { Before(c, d); } else { Before(d, c); }
  }

  /** A user who writes only its own memory leaves the heap in order, and the memory of the others alone. */
  lemma UserWrites(s: State, m': Memory, c: int)
    requires Sound(s) && c in s.o.live && c in s.T
    requires forall x :: !InPayload(s.T, c, x) ==> Get(m', x) == Get(s.m, x)
    ensures Sound(s.(m := m')) && Preserved(s, s.(m := m'), c)
  {
    assert Look(0);
    var s' := s.(m := m');
    forall d | d in s.T ensures HeadOf(m', d) == Pack(s.T[d]) && FootAt(m', s.T, d) {
      WordsApart(s, m', c, d);
    }
    forall d | d in s.o.live && d != c ensures Intact(s, s', d) {
      LiveApart(s, c, d);
    }
  }

  /** Heads and feet are in nobody's payload. */
  lemma WordsApart(s: State, m': Memory, c: int, d: int)
    requires Consistent(s) && c in s.o.live && c in s.T && d in s.T
    requires forall x :: !InPayload(s.T, c, x) ==> Get(m', x) == Get(s.m, x)
    ensures HeadOf(m', d) == Pack(s.T[d]) && FootAt(m', s.T, d)
  {
    CellAt(s.T, c);
    CellAt(s.T, d);
    assert HeadOf(s.m, d) == Pack(s.T[d]) && FootAt(s.m, s.T, d);
    if c < d { Before(c, d); } else if d < c { Before(d, c); }
    assert !InPayload(s.T, c, d + WORD);
    if s.T[d].Chunk? && !s.T[d].cinuse {
      var n := d + s.T[d].size;
      assert c != d;
      CellAt(s.T, n);
      if c < n { Before(c, n); }
      assert !InPayload(s.T, c, n);
    }
    if s.T[d].Mapped? { assert !InPayload(s.T, c, d); }
  }

  /** The chunks of a segment follow each other without gaps, up to top's foot or the fence. */
  lemma {:induction false} Covered(s: State, i: nat, c: int, x: int) returns (d: int)
    requires Consistent(s) && i < |s.segs| && c in s.T && InSegment(s.segs[i], c, c + Reach(s.T[c])) && !s.T[c].Mapped?
    requires c <= x < s.segs[i].base + s.segs[i].size
    requires s.T[c].Foot? || s.T[c].Fence? ==> c + Extent(s.T[c]) == s.segs[i].base + s.segs[i].size
    ensures d in s.T && d <= x < d + Extent(s.T[d])
    decreases x - c
  {
    CellAt(s.T, c);
    if x < c + Extent(s.T[c]) {
      d := c;
    } else {
      var n := c + s.T[c].size;
      NextHome(s.T, s.segs, c, i);
      EndsSegment(s, i, n);
      d := Covered(s, i, n, x);
    }
  }

  /** A foot or a fence is at the end of its segment. */
  lemma EndsSegment(s: State, i: nat, n: int)
    requires Consistent(s) && i < |s.segs| && n in s.T && InSegment(s.segs[i], n, n + Reach(s.T[n]))
    ensures s.T[n].Foot? || s.T[n].Fence? ==> n + Extent(s.T[n]) == s.segs[i].base + s.segs[i].size
  {
    ReachPositive(s.T, n);
    if s.T[n].Foot? {
      assert Shape(s.segs[0]) && Shape(s.segs[i]);
      LargeEnough(s.segs[0].size);
      SameSegment(s.segs, i, 0, n);
    }
    if s.T[n].Fence? {
      assert FenceOk(s.T, n, s.o.records);
      var j :| 1 <= j < |s.segs| && s.segs[j].record == n - 24;
      assert EndOk(s.T, s.segs[j], s.o.records) && Shape(s.segs[j]) && Shape(s.segs[i]);
      SameSegment(s.segs, i, j, n);
    }
  }

  lemma LargeEnough(n: int)
    requires n > 0 && n % GRAIN == 0
    ensures n >= GRAIN
  {
  }

  /** Every address of a segment is in exactly one chunk, foot or fence. */
  lemma Exactly(s: State, i: nat, x: int) returns (d: int)
    requires Sound(s) && i < |s.segs| && s.segs[i].base <= x < s.segs[i].base + s.segs[i].size
    ensures d in s.T && d <= x < d + Extent(s.T[d])
    ensures forall e :: e in s.T && e <= x < e + Extent(s.T[e]) ==> e == d
  {
    assert Look(0);
    assert StartOk(s.T, s.segs[i]) && Placed(s.T, s.segs, s.segs[i].base);
    var b := s.segs[i].base;
    var j :| 0 <= j < |s.segs| && InSegment(s.segs[j], b, b + Reach(s.T[b]));
    ReachPositive(s.T, b);
    assert i == j || Disjoint(s.segs[i].base, s.segs[i].size, s.segs[j].base, s.segs[j].size);
    d := Covered(s, i, b, x);
    forall e | e in s.T && e <= x < e + Extent(s.T[e]) ensures e == d {
      CellAt(s.T, e);
      CellAt(s.T, d);
    }
  }

  /** No two free chunks are next to each other, dv and top included. */
  lemma NoFreeNeighbours(s: State, c: int)
    requires Sound(s) && c in s.T && s.T[c].Chunk? && !s.T[c].cinuse
    ensures var n := c + s.T[c].size; n in s.T && (s.T[n].Foot? || (s.T[n].Chunk? && s.T[n].cinuse && !s.T[n].pinuse))
    ensures (c == s.o.top || c == s.o.dv || c in s.o.binned) &&
      (c in s.o.binned ==> c != s.o.dv && c != s.o.top && s.o.binned[c] == s.T[c].size)
  {
    assert Look(0);
    CellAt(s.T, c);
    CellAt(s.T, c + s.T[c].size);
    assert Held(s.T, s.o, c);
  }
}
