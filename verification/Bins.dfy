/** All bins of malloc.c together: small chunks in lists, large ones in trees. */
module Binning {
  import opened BinMaps
  import SmallBinning
  import TreeBinning

  const MIN_LARGE := 256
  const SPACE := 0x1_0000_0000

  /** To mention it makes a definition below available, which keeps it out of proofs that have no use for it. */
  ghost predicate Unfold(u: int) { true }

  lemma AddedSmall(a: map<int, nat>, b: map<int, nat>, p: int, s: nat)
    requires p !in a && p !in b && a.Keys !! b.Keys
    ensures a[p := s] + b == (a + b)[p := s] && a[p := s].Keys !! b.Keys
  {
  }

  lemma AddedLarge(a: map<int, nat>, b: map<int, nat>, p: int, s: nat)
    requires p !in a && p !in b && a.Keys !! b.Keys
    ensures a + b[p := s] == (a + b)[p := s] && a.Keys !! b[p := s].Keys
  {
  }

  lemma TakenSmall(a: map<int, nat>, b: map<int, nat>, p: int)
    requires p !in b && a.Keys !! b.Keys
    ensures (a - {p}) + b == (a + b) - {p} && (a - {p}).Keys !! b.Keys
  {
  }

  lemma TakenLarge(a: map<int, nat>, b: map<int, nat>, p: int)
    requires p !in a && a.Keys !! b.Keys
    ensures a + (b - {p}) == (a + b) - {p} && a.Keys !! (b - {p}).Keys
  {
  }

  class Bins {
    const small: SmallBinning.SmallBins
    const large: TreeBinning.TreeBins

    /** The free chunks in bins, with their sizes. */
    ghost var held: map<int, int>

    ghost predicate Valid()
      reads this, small, large
    {
      forall u {:trigger Unfold(u)} :: Unfold(u) ==> InOrder()
    }

    ghost predicate InOrder()
      reads this, small, large
    {
      small.Valid() && large.Valid() && small.Held().Keys !! large.Held().Keys && held == small.Held() + large.Held()
    }

    constructor ()
      ensures Valid() && held == map[] && fresh(small) && fresh(large)
    {
      small := new SmallBinning.SmallBins();
      large := new TreeBinning.TreeBins();
      held := map[];
      new;
      assert InOrder();
    }

    /** The small bins and the tree bins share no chunk, and sizes tell which has one. */
    lemma Sorted(c: int)
      requires Valid()
      ensures c in small.Held() ==> 16 <= small.Held()[c] < MIN_LARGE && small.Held()[c] % 8 == 0 && c > 0
      ensures c in large.Held() ==> MIN_LARGE <= large.Held()[c] < SPACE && c > 0
    {
      assert Unfold(0);
      if c in small.Held() { assert SmallBinning.InList(small.f, small.lists, c); }
      if c in large.Held() { assert TreeBinning.InBin(large.h, large.trees, c); }
    }

    /** What is in a small bin or a tree is held. */
    lemma Has(c: int)
      requires Valid()
      ensures c in small.Held() ==>
        c in held && held[c] == small.Held()[c] && 16 <= held[c] < MIN_LARGE && held[c] % 8 == 0
      ensures c in large.Held() ==> c in held && held[c] == large.Held()[c] && MIN_LARGE <= held[c] < SPACE
      ensures small.Valid() && large.Valid()
    {
      assert Unfold(0);
      Sorted(c);
    }

    /** What is not held is in no bin. */
    lemma HasNot(p: int)
      requires Valid() && p > 0 && p !in held
      ensures small.Valid() && large.Valid() && p !in small.f && p !in large.h && p !in small.Held() &&
        p !in large.Held()
      ensures small.Held().Keys !! large.Held().Keys && held == small.Held() + large.Held()
    {
      assert Unfold(0);
    }

    /** insert_chunk */
    method Insert(p: int, s: nat)
      requires Valid() && p > 0 && p !in held && 16 <= s < SPACE && s % 8 == 0
      modifies this, small, large
      ensures Valid() && held == old(held)[p := s]
    {
      HasNot(p);
      if s / 8 < BINS {
        small.Insert(p, s);
        AddedSmall(old(small.Held()), large.Held(), p, s);
      } else {
        large.Insert(p, s);
        AddedLarge(small.Held(), old(large.Held()), p, s);
      }
      held := held[p := s];
    }

    /** What is held is in one of the bins, by its size. */
    lemma Where(p: int)
      requires Valid() && p in held
      ensures small.Valid() && large.Valid() && p > 0
      ensures held[p] / 8 < BINS ==> p in small.f && p in small.Held() && p !in large.Held()
      ensures held[p] / 8 >= BINS ==> p in large.h && p in large.Held() && p !in small.Held()
      ensures small.Held().Keys !! large.Held().Keys && held == small.Held() + large.Held()
    {
      assert Unfold(0);
      Sorted(p);
    }

    /** unlink_chunk */
    method Unlink(p: int, s: nat)
      requires Valid() && p in held && held[p] == s
      modifies this, small, large
      ensures Valid() && held == old(held) - {p}
    {
      Where(p);
      if s / 8 < BINS {
        small.Unlink(p);
        TakenSmall(old(small.Held()), large.Held(), p);
      } else {
        large.Unlink(p);
        TakenLarge(small.Held(), old(large.Held()), p);
      }
      held := held - {p};
    }
  }
}
