/** tmalloc_large and tmalloc_small of malloc.c, and the ways dlmalloc takes a chunk from the heap it has. */
module Allocating {
  import opened Tiling
  import opened Words
  import opened Ownership
  import opened Segments
  import opened Steps
  import opened Moves
  import opened Heaps
  import TreeSearching

  /** The user of h has got the chunk at p, of n bytes. */
  ghost predicate Got(h: Heap, s: State, p: int, n: int)
    reads h, h.bins, h.bins.small, h.bins.large
  {
    h.Ready() && Taken(s, h.View(), p, n)
  }

  ghost function WithVictim(binned: map<int, int>, dv: int, dvsize: int): map<int, int> {
    if dvsize == 0 then binned else binned[dv := dvsize]
  }

  /**
    * Who owns what once nb bytes of the chunk at p are the user's: too little to make a chunk goes with it, and the
    * rest of dv or top stays dv or top. Of a chunk from a bin, it becomes dv for a small request, so that the old dv
    * goes to a bin, and else it goes to a bin itself.
    */
  ghost function Cut(o: Owners, p: int, nb: int): Owners {
    var live := o.live + {p};
    if p in o.binned then
      var n, rest := o.binned[p], o.binned - {p};
      if n - nb < MIN_CHUNK then o.(binned := rest, live := live)
      else if nb < 256 then
        o.(binned := WithVictim(rest, o.dv, o.dvsize), dv := p + nb, dvsize := n - nb, live := live)
      else o.(binned := rest[p + nb := n - nb], live := live)
    else if p == o.dv then
      if o.dvsize - nb < MIN_CHUNK then o.(dv := 0, dvsize := 0, live := live)
      else o.(dv := p + nb, dvsize := o.dvsize - nb, live := live)
    else o.(top := p + nb, topsize := o.topsize - nb, live := live)
  }

  /** A chunk in a bin is a free chunk of that size. */
  lemma BinnedFree(s: State, p: int)
    requires Sound(s) && p in s.o.binned
    ensures FreeChunk(s, p, s.o.binned[p]) && s.o.binned[p] % ALIGN == 0 &&
      Drop(s.o, p) == s.o.(binned := s.o.binned - {p})
    ensures p != s.o.dv && MIN_CHUNK <= s.o.binned[p] < SPACE
  {
    assert Look(0);
    CellAt(s.T, p);
    OpenAt(s.T, s.o, p);
    DropBinned(s.T, s.o, p, p, p);
    SizeFits(s, p);
  }

  lemma SizeFits(s: State, p: int)
    requires Sound(s) && p in s.T && s.T[p].Chunk?
    ensures s.T[p].size < SPACE
  {
    assert Look(0);
    assert Placed(s.T, s.segs, p);
    var i :| 0 <= i < |s.segs| && InSegment(s.segs[i], p, p + Reach(s.T[p]));
    assert Shape(s.segs[i]);
  }

  /** unlink_chunk, set_inuse_and_pinuse */
  method UseBinned(h: Heap, p: int, n: int)
    requires h.Ready() && p in h.bins.held && h.bins.held[p] == n
    modifies h`m, h`T, h`live, h.bins, h.bins.small, h.bins.large
    ensures Got(h, old(h.View()), p, n)
    ensures h.View().o == old(h.View()).o.(binned := old(h.bins.held) - {p}, live := old(h.live) + {p})
  {
    ghost var s := h.View();
    BinnedFree(s, p);
    ghost var s' := UseWhole(s, p, n);
    h.bins.Unlink(p, n);
    h.m := UseBoth(h.m, p, n);
    h.T, h.live := s'.T, s'.o.live;
    h.Is(s');
  }

  lemma SplitLargeState(s: State, p: int, n: int, nb: int, m': Memory) returns (s': State)
    requires Sound(s) && p in s.o.binned && s.o.binned[p] == n
    requires MIN_CHUNK <= nb && nb % ALIGN == 0 && n - nb >= MIN_CHUNK &&
      m' == FreeHead(UseSize(s.m, p, nb), p + nb, n - nb)
    ensures Taken(s, s', p, nb) && s'.m == m' && s'.segs == s.segs
    ensures s'.o == s.o.(binned := (s.o.binned - {p})[p + nb := n - nb], live := s.o.live + {p})
    ensures 0 < p < p + nb && p + nb !in s.o.binned && n < SPACE && n % ALIGN == 0
  {
    assert Look(0);
    BinnedFree(s, p);
    s' := CutFree(s, p, n, nb, Bin, m');
    CellAt(s.T, p);
  }

  /** A large chunk is split, and the rest goes to a bin. */
  method SplitLarge(h: Heap, p: int, n: int, nb: int)
    requires h.Ready() && p in h.bins.held && h.bins.held[p] == n
    requires 256 <= nb && nb % ALIGN == 0 && n - nb >= MIN_CHUNK
    modifies h`m, h`T, h`live, h.bins, h.bins.small, h.bins.large
    ensures Got(h, old(h.View()), p, nb) && h.View().o == Cut(old(h.View()).o, p, nb)
  {
    var r, rsize := p + nb, n - nb;
    var m' := FreeHead(UseSize(h.m, p, nb), r, rsize);
    ghost var s' := SplitLargeState(h.View(), p, n, nb, m');
    h.bins.Unlink(p, n);
    h.m := m';
    h.bins.Insert(r, rsize);
    h.T, h.live := s'.T, s'.o.live;
    h.Is(s');
  }

  /** replace_dv: the old dv goes to a small bin */
  method ReplaceVictim(h: Heap, p: int, n: int)
    requires h.bins.Valid() &&
      (h.dvsize != 0 ==> h.dv > 0 && h.dv !in h.bins.held && 16 <= h.dvsize < 256 && h.dvsize % 8 == 0)
    modifies h`dv, h`dvsize, h.bins, h.bins.small, h.bins.large
    ensures h.bins.Valid() && h.dv == p && h.dvsize == n
    ensures h.bins.held == WithVictim(old(h.bins.held), old(h.dv), old(h.dvsize))
  {
    var dvs := h.dvsize;
    if dvs != 0 {
      h.bins.Insert(h.dv, dvs);
    }
    h.dvsize, h.dv := n, p;
  }

  /** The state once dv has been put in a bin, if there is one. */
  ghost function Rebinned(s: State): State {
    if s.o.dv == 0 then s
    else s.(o := s.o.(binned := s.o.binned[s.o.dv := s.o.dvsize], dv := 0, dvsize := 0))
  }

  lemma RebinnedSound(s: State)
    requires Sound(s)
    ensures Sound(Rebinned(s)) && (s.o.dv == 0 <==> s.o.dvsize == 0) &&
      (s.o.dv != 0 ==> s.o.dv > 0 && s.o.dv !in s.o.binned && s.o.dvsize % ALIGN == 0 && s.o.dvsize >= MIN_CHUNK)
  {
    assert Look(0);
    if s.o.dv != 0 {
      CellAt(s.T, s.o.dv);
      RebinVictim(s);
    }
  }

  lemma SplitSmallState(s: State, p: int, n: int, nb: int, m': Memory) returns (s': State)
    requires Sound(s) && p in s.o.binned && s.o.binned[p] == n
    requires MIN_CHUNK <= nb && nb % ALIGN == 0 && n - nb >= MIN_CHUNK &&
      m' == FreeHead(UseSize(s.m, p, nb), p + nb, n - nb)
    ensures Taken(s, s', p, nb) && s'.m == m' && s'.segs == s.segs
    ensures s.o.dv == 0 <==> s.o.dvsize == 0
    ensures s.o.dv != 0 ==> s.o.dv > 0 && s.o.dv !in s.o.binned && s.o.dvsize % ALIGN == 0 && s.o.dvsize >= MIN_CHUNK
    ensures s'.o == Owners(WithVictim(s.o.binned - {p}, s.o.dv, s.o.dvsize), p + nb, n - nb, s.o.top, s.o.topsize,
      s.o.live + {p}, s.o.records)
  {
    var s1 := Rebinned(s);
    NoZero(s);
    RebinnedSound(s);
    BinnedFree(s, p);
    BinnedFree(s1, p);
    s' := CutFree(s1, p, n, nb, Victim, m');
    forall c | c in s.o.live ensures Intact(s, s', c) { assert Intact(s1, s', c); }
    forall c ensures SameMap(s.T, s'.T, c) { assert SameMap(s1.T, s'.T, c); }
    assert s.o.dv != 0 ==> s.o.binned[s.o.dv := s.o.dvsize] - {p} == (s.o.binned - {p})[s.o.dv := s.o.dvsize];
  }

  /** A chunk is split for a small request, and the rest becomes dv. */
  method SplitToVictim(h: Heap, p: int, n: int, nb: int)
    requires h.Ready() && p in h.bins.held && h.bins.held[p] == n
    requires MIN_CHUNK <= nb < 256 && nb % ALIGN == 0 && n - nb >= MIN_CHUNK && h.dvsize < 256
    modifies h`m, h`T, h`live, h`dv, h`dvsize, h.bins, h.bins.small, h.bins.large
    ensures Got(h, old(h.View()), p, nb) && h.View().o == Cut(old(h.View()).o, p, nb)
  {
    var r, rsize := p + nb, n - nb;
    var m' := FreeHead(UseSize(h.m, p, nb), r, rsize);
    ghost var s' := SplitSmallState(h.View(), p, n, nb, m');
    RestToVictim(h, p, n, r, rsize);
    h.m := m';
    h.T, h.live := s'.T, s'.o.live;
    h.Is(s');
  }

  /** unlink_chunk, replace_dv */
  method RestToVictim(h: Heap, p: int, n: int, r: int, rsize: int)
    requires h.bins.Valid() && p in h.bins.held && h.bins.held[p] == n
    requires h.dvsize != 0 ==> h.dv > 0 && h.dv !in h.bins.held && 16 <= h.dvsize < 256 && h.dvsize % 8 == 0
    modifies h`dv, h`dvsize, h.bins, h.bins.small, h.bins.large
    ensures h.bins.Valid() && h.dv == r && h.dvsize == rsize
    ensures h.bins.held == WithVictim(old(h.bins.held) - {p}, old(h.dv), old(h.dvsize))
  {
    HeldPositive(h, p);
    h.bins.Unlink(p, n);
    ReplaceVictim(h, r, rsize);
  }

  lemma HeldPositive(h: Heap, p: int)
    requires h.bins.Valid() && p in h.bins.held
    ensures h.bins.held[p] >= 0
  {
    h.bins.Where(p);
    h.bins.Has(p);
  }

  /** The designated victim is split, or used up. */
  method UseVictim(h: Heap, nb: int) returns (p: int)
    requires h.Ready() && MIN_CHUNK <= nb <= h.dvsize && nb % ALIGN == 0
    modifies h`m, h`T, h`live, h`dv, h`dvsize
    ensures p == old(h.dv) && h.View().o == Cut(old(h.View()).o, p, nb)
    ensures exists n :: nb <= n < nb + MIN_CHUNK && Got(h, old(h.View()), p, n)
  {
    ghost var s := h.View();
    VictimFree(s);
    var rsize := h.dvsize - nb;
    p := h.dv;
    ghost var s': State;
    ghost var n := h.dvsize;
    if rsize >= MIN_CHUNK {
      var r := p + nb;
      var m' := UseSize(FreeHead(h.m, r, rsize), p, nb);
      s' := CutFree(s, p, s.o.dvsize, nb, Victim, m');
      n := nb;
      h.dv, h.dvsize, h.m := r, rsize, m';
    } else {
      var dvs := h.dvsize;
      s' := UseWhole(s, p, dvs);
      h.dvsize, h.dv := 0, 0;
      h.m := UseBoth(h.m, p, dvs);
    }
    h.T, h.live := s'.T, s'.o.live;
    h.Is(s');
    assert Got(h, s, p, n);
  }

  lemma VictimFree(s: State)
    requires Sound(s) && s.o.dvsize > 0
    ensures FreeChunk(s, s.o.dv, s.o.dvsize) && s.o.dvsize % ALIGN == 0 && s.o.dv !in s.o.binned &&
      Drop(s.o, s.o.dv) == s.o.(dv := 0, dvsize := 0) && s.o.dv > 0
  {
    assert Look(0);
    OpenAt(s.T, s.o, s.o.dv);
    DropVictim(s.T, s.o, s.o.dv, s.o.dv);
    CellAt(s.T, s.o.dv);
  }

  lemma TopFree(s: State)
    requires Sound(s) && s.o.topsize > 0
    ensures Drop(s.o, s.o.top) == s.o.(top := 0, topsize := 0) && s.o.top !in s.o.binned && s.o.top != s.o.dv
  {
    assert Look(0);
    OpenAt(s.T, s.o, s.o.top);
    DropTop(s.T, s.o, s.o.top, s.o.top);
  }

  /** top is split */
  method UseTop(h: Heap, nb: int) returns (p: int)
    requires h.Ready() && MIN_CHUNK <= nb < h.topsize && nb % ALIGN == 0
    modifies h`m, h`T, h`live, h`top, h`topsize
    ensures Got(h, old(h.View()), p, nb) && p == old(h.top)
    ensures p !in old(h.bins.held) && p != old(h.dv) && h.View().o == Cut(old(h.View()).o, p, nb)
  {
    ghost var s := h.View();
    ghost var s' := CutTop(s, nb);
    TopFree(s);
    var rsize := h.topsize - nb;
    p := h.top;
    h.topsize, h.top := rsize, p + nb;
    h.m := UseSize(PutHead(h.m, h.top, rsize + 1), p, nb);
    h.T, h.live := s'.T, s'.o.live;
    h.Is(s');
  }

  /** The chunk at p is the smallest tree-binned chunk that has nb bytes. */
  ghost predicate Smallest(trees: map<int, nat>, p: int, nb: int) {
    p in trees && trees[p] >= nb && forall c :: c in trees && trees[c] >= nb ==> trees[p] <= trees[c]
  }

  /** A tree-binned chunk fits, and fits strictly better than dv if dv fits. */
  ghost predicate FitsBetter(trees: map<int, nat>, c: int, nb: int, dvsize: int) {
    c in trees && trees[c] >= nb && (dvsize >= nb ==> trees[c] < dvsize)
  }

  lemma DeclineOrTake(trees: map<int, nat>, v: int, rsize: nat, nb: nat, dvsize: int)
    requires TreeSearching.SmallestFit(trees, v, rsize, nb) && 0 <= dvsize < SPACE && 0 < nb < SPACE
    requires forall c :: c in trees ==> trees[c] < SPACE
    ensures v != 0 ==> Smallest(trees, v, nb) && (rsize < (dvsize - nb) % SPACE <==> FitsBetter(trees, v, nb, dvsize))
    ensures !(v != 0 && rsize < (dvsize - nb) % SPACE) <==> forall c :: !FitsBetter(trees, c, nb, dvsize)
  {
    assert (dvsize - nb) % SPACE == if dvsize >= nb then dvsize - nb else SPACE + dvsize - nb;
    if v != 0 {
      assert trees[v] == nb + rsize;
      forall c | FitsBetter(trees, c, nb, dvsize) ensures FitsBetter(trees, v, nb, dvsize) { }
    }
  }

  lemma VictimSize(s: State)
    requires Sound(s)
    ensures 0 <= s.o.dvsize < SPACE
  {
    assert Look(0);
    if s.o.dv != 0 { SizeFits(s, s.o.dv); }
  }

  /** tmalloc_large: the best fitting chunk in a tree bin, unless dv fits better */
  method TmallocLarge(h: Heap, nb: int) returns (p: int)
    requires h.Ready() && 256 <= nb < SPACE && nb % ALIGN == 0
    modifies h`m, h`T, h`live, h.bins, h.bins.small, h.bins.large
    ensures p == 0 ==> h.Ready() && h.View() == old(h.View())
    ensures p != 0 ==> Smallest(old(h.bins.large.Held()), p, nb)
    ensures p == 0 <==> forall c :: !FitsBetter(old(h.bins.large.Held()), c, nb, h.dvsize)
    ensures p != 0 ==> p in old(h.bins.held) && h.View().o == Cut(old(h.View()).o, p, nb)
    ensures p != 0 ==> exists n :: nb <= n < nb + MIN_CHUNK && Got(h, old(h.View()), p, n)
  {
    ghost var s := h.View();
    forall c ensures c in h.bins.large.Held() ==>
      c in h.bins.held && h.bins.held[c] == h.bins.large.Held()[c] < SPACE { h.bins.Has(c); }
    VictimSize(s);
    h.bins.Has(0);
    var v, rsize := TreeSearching.LargeFit(h.bins.large, nb);
    DeclineOrTake(h.bins.large.Held(), v, rsize, nb, h.dvsize);
    if v != 0 && rsize < (h.dvsize - nb) % SPACE {
      BinnedFree(s, v);
      ghost var n := nb + rsize;
      if rsize < MIN_CHUNK {
        UseBinned(h, v, rsize + nb);
      } else {
        SplitLarge(h, v, rsize + nb, nb);
        n := nb;
      }
      assert Got(h, s, v, n);
      p := v;
    } else {
      p := 0;
    }
  }

  /** tmalloc_small: every chunk in a tree bin is big enough, and the smallest is split */
  method TmallocSmall(h: Heap, nb: int) returns (p: int)
    requires h.Ready() && MIN_CHUNK <= nb < 256 && nb % ALIGN == 0 && h.bins.large.treemap != 0 && h.dvsize < 256
    modifies h`m, h`T, h`live, h`dv, h`dvsize, h.bins, h.bins.small, h.bins.large
    ensures p != 0 && Smallest(old(h.bins.large.Held()), p, nb)
    ensures p in old(h.bins.held) && h.View().o == Cut(old(h.View()).o, p, nb)
    ensures exists n :: nb <= n < nb + MIN_CHUNK && Got(h, old(h.View()), p, n)
  {
    ghost var s := h.View();
    h.bins.Has(0);
    var v, rsize := TreeSearching.SmallFit(h.bins.large, nb);
    h.bins.Has(v);
    BinnedFree(s, v);
    ghost var n := nb + rsize;
    if rsize < MIN_CHUNK {
      UseBinned(h, v, rsize + nb);
    } else {
      SplitToVictim(h, v, rsize + nb, nb);
      n := nb;
    }
    assert Got(h, s, v, n);
    p := v;
  }
}
