/** Changing all cells of a stretch of memory at once: a region comes or goes, or the end of a segment moves. */
module Swapping {
  import opened Tiling
  import opened Words
  import opened Steps
  import opened Moves

  /** No cell of T reaches into the stretch from a to b or out of it; what ends right before it is a chunk in use. */
  ghost predicate Swappable(T: Layout, R: Layout, a: int, b: int) {
    && (forall c {:trigger T[c]} :: c in T && !(a <= c < b) ==> c + Extent(T[c]) <= a || b <= c)
    && (forall c {:trigger T[c]} :: c in T && a <= c < b && T[c].Chunk? ==> c + T[c].size < b)
    && (forall c {:trigger R[c]} :: c in R ==> a <= c < b && c + Extent(R[c]) <= b)
    && (forall c {:trigger T[c]} :: c in T && !(a <= c < b) && T[c].Chunk? && c + T[c].size == a ==>
      T[c].cinuse && a in R && !R[a].Mapped? && PrevInUse(R[a]))
  }

  lemma Inside(T: Layout, R: Layout, a: int, b: int)
    requires Swappable(T, R, a, b)
    ensures forall c {:trigger c in R} :: c in R ==> a <= c < b
  {
    forall c | c in R ensures a <= c < b { assert R[c] == R[c]; }
  }

  /** T' is T with the cells from a to b replaced by R. */
  ghost predicate Swapped(T: Layout, T': Layout, R: Layout, a: int, b: int) {
    forall c {:trigger c in T'} {:trigger T'[c]} :: (c in T' <==> c in R || (c in T && !(a <= c < b)))
      && (c in R ==> T'[c] == R[c]) && (c in T && !(a <= c < b) && c !in R ==> T'[c] == T[c])
  }

  function Swap(T: Layout, R: Layout, a: int, b: int): Layout {
    Without(T, a, b) + R
  }

  lemma SwapIs(T: Layout, R: Layout, a: int, b: int) returns (T': Layout)
    ensures Swapped(T, T', R, a, b)
  {
    T' := Swap(T, R, a, b);
  }

  lemma SwapTiled(T: Layout, T': Layout, R: Layout, a: int, b: int)
    requires Tiled(T) && Tiled(R) && Swappable(T, R, a, b) && Swapped(T, T', R, a, b)
    ensures Tiled(T')
  {
    forall c | c in T' ensures CellOk(T', c) {
      if c in R { SwappedIn(T, T', R, a, b, c); } else { SwappedOut(T, T', R, a, b, c); }
    }
  }

  lemma SwappedIn(T: Layout, T': Layout, R: Layout, a: int, b: int, c: int)
    requires Tiled(R) && Tiled(T) && Swappable(T, R, a, b) && Swapped(T, T', R, a, b) && c in R
    ensures CellOk(T', c)
  {
    CellAt(R, c);
    assert R[c] == T'[c];
    if R[c].Chunk? && !R[c].pinuse {
      var d :| EndsAt(R, d, c);
      assert EndsAt(T', d, c);
    }
  }

  lemma SwappedOut(T: Layout, T': Layout, R: Layout, a: int, b: int, c: int)
    requires Tiled(T) && Swappable(T, R, a, b) && Swapped(T, T', R, a, b) && c in T' && c !in R
    ensures CellOk(T', c)
  {
    CellAt(T, c);
    assert T'[c] == T[c];
    forall d | d in T' ensures !(c < d < c + Extent(T[c])) {
      if d in R { assert R[d] == T'[d]; }
    }
    if T[c].Chunk? {
      var n := c + T[c].size;
      assert n in T && T[n] == T[n];
      if n in R { assert R[n] == T'[n]; }
      if n != a { assert n in T' && T'[n] == T[n]; }
      if !T[c].pinuse {
        var d :| EndsAt(T, d, c);
        CellAt(T, d);
        assert EndsAt(T', d, c);
      }
    }
  }

  /** Only words from lo up to b were written. */
  ghost predicate WritesIn(m: Memory, m': Memory, lo: int, b: int) {
    forall x :: !(lo <= x < b) ==> Get(m', x) == Get(m, x)
  }

  /** The first word of the stretch belongs to the chunk before it, if there is one. */
  ghost predicate LowEnough(T: Layout, a: int, lo: int) {
    lo == a + WORD || (lo == a && forall c {:trigger T[c]} :: c in T && T[c].Chunk? ==> c + T[c].size != a)
  }

  lemma SwapWritten(m: Memory, m': Memory, T: Layout, T': Layout, R: Layout, a: int, b: int)
    requires Tiled(T) && Written(m, T) && Written(m', R) && Swappable(T, R, a, b) && Swapped(T, T', R, a, b)
    requires WritesIn(m, m', a, b) && a % ALIGN == 0
    requires forall c {:trigger R[c]} :: c in R && R[c].Chunk? ==> c + R[c].size in R
    ensures Written(m', T')
  {
    forall c | c in T' ensures HeadOf(m', c) == Pack(T'[c]) && FootAt(m', T', c) {
      if c in R {
        assert HeadOf(m', c) == Pack(R[c]) && FootAt(m', R, c);
      } else {
        WordsOut(m, m', T, T', R, a, b, c);
      }
    }
  }

  lemma Before(c: int, a: int)
    requires c < a && c % ALIGN == 0 && a % ALIGN == 0
    ensures c + ALIGN <= a
  {
  }

  lemma WordsOut(m: Memory, m': Memory, T: Layout, T': Layout, R: Layout, a: int, b: int, c: int)
    requires Tiled(T) && Written(m, T) && Swappable(T, R, a, b) && Swapped(T, T', R, a, b)
    requires WritesIn(m, m', a, b) && a % ALIGN == 0 && c in T' && c !in R
    ensures HeadOf(m', c) == Pack(T'[c]) && FootAt(m', T', c)
  {
    CellAt(T, c);
    Inside(T, R, a, b);
    assert T'[c] == T[c] && HeadOf(m, c) == Pack(T[c]) && FootAt(m, T, c);
    if c < a { Before(c, a); }
    if T[c].Chunk? && !T[c].cinuse {
      var n := c + T[c].size;
      if n in T' && n !in R { assert T'[n] == T[n]; }
    }
  }

  /** Cells outside keep their payload. */
  lemma SwapIntact(s: State, s': State, R: Layout, a: int, lo: int, b: int, c: int)
    requires Tiled(s.T) && Swappable(s.T, R, a, b) && Swapped(s.T, s'.T, R, a, b)
    requires WritesIn(s.m, s'.m, lo, b) && LowEnough(s.T, a, lo) && a % ALIGN == 0
    requires c in s.T && !(a <= c < b) && c in s'.o.live
    ensures Intact(s, s', c)
  {
    CellAt(s.T, c);
    Inside(s.T, R, a, b);
    assert s'.T[c] == s.T[c];
    if s.T[c].Chunk? && c < a && c + s.T[c].size < a {
      AlignedEnd(c, s.T[c].size);
      Before(c + s.T[c].size, a);
    }
  }
}
