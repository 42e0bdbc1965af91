/** What malloc.c has mapped, and its footprint: the bytes of all segments and directly mapped regions. */
module Regions {
  import opened Tiling
  import opened Segments
  import opened Moves
  import opened Steps
  import opened Growing

  /** The directly mapped regions: address and size. */
  type Maps = map<int, int>

  /** A region the kernel may hand out: whole pages that are not mapped yet. */
  predicate Unmapped(base: int, size: int, segs: seq<Segment>, maps: Maps) {
    && base > 0 && base % PAGE == 0 && size > 0 && size % PAGE == 0 && base + size < SPACE
    && (forall i :: 0 <= i < |segs| ==> Disjoint(base, size, segs[i].base, segs[i].size))
    && (forall r :: r in maps ==> Disjoint(base, size, r, maps[r]))
  }

  ghost predicate MapOk(r: int, segs: seq<Segment>, maps: Maps)
    requires r in maps
  {
    && r > 0 && r % PAGE == 0 && maps[r] > 0 && maps[r] % PAGE == 0 && r + maps[r] < SPACE
    && (forall i :: 0 <= i < |segs| ==> Disjoint(r, maps[r], segs[i].base, segs[i].size))
    && (forall q :: q in maps && q != r ==> Disjoint(r, maps[r], q, maps[q]))
  }

  ghost predicate MapsOk(segs: seq<Segment>, maps: Maps) {
    forall r {:trigger MapOk(r, segs, maps)} :: r in maps ==> MapOk(r, segs, maps)
  }

  /** A directly mapped chunk has a region to itself. */
  ghost predicate Homed(T: Layout, maps: Maps, c: int)
    requires c in T
  {
    T[c].Mapped? ==>
      && RegionStart(T, c) in maps && maps[RegionStart(T, c)] == RegionSize(T, c)
      && T[c].size % ALIGN == 0 && T[c].size >= MIN_CHUNK
      && forall d :: d in T && d != c && T[d].Mapped? ==> RegionStart(T, d) != RegionStart(T, c)
  }

  ghost predicate AllHomed(T: Layout, maps: Maps) {
    forall c {:trigger Homed(T, maps, c)} :: c in T ==> Homed(T, maps, c)
  }

  function SegmentBytes(segs: seq<Segment>): int {
    if segs == [] then 0 else segs[0].size + SegmentBytes(segs[1..])
  }

  ghost function MapBytes(maps: Maps): int
    decreases |maps|
  {
    if exists r :: r in maps then
      var r :| r in maps;
      maps[r] + MapBytes(maps - {r})
    else
      0
  }

  /** The sum does not depend on the order. */
  lemma {:induction false} MapBytesLess(maps: Maps, r: int)
    requires r in maps
    ensures MapBytes(maps) == maps[r] + MapBytes(maps - {r})
    decreases |maps|
  {
    var q :| q in maps && MapBytes(maps) == maps[q] + MapBytes(maps - {q});
    if q != r {
      MapBytesLess(maps - {q}, r);
      MapBytesLess(maps - {r}, q);
      assert maps - {q} - {r} == maps - {r} - {q};
    }
  }

  lemma MapBytesMore(maps: Maps, r: int, n: int)
    requires r !in maps
    ensures MapBytes(maps[r := n]) == MapBytes(maps) + n
  {
    MapBytesLess(maps[r := n], r);
    assert maps[r := n] - {r} == maps;
  }

  lemma {:induction false} SegmentBytesAt(segs: seq<Segment>, i: nat)
    requires i < |segs|
    ensures SegmentBytes(segs) == segs[i].size + SegmentBytes(segs[..i] + segs[i + 1..])
  {
    if i == 0 {
      assert segs[..0] + segs[1..] == segs[1..];
    } else {
      SegmentBytesAt(segs[1..], i - 1);
      assert (segs[..i] + segs[i + 1..])[1..] == segs[1..][..i - 1] + segs[1..][i..];
    }
  }

  lemma SegmentBytesSet(segs: seq<Segment>, i: nat, g: Segment)
    requires i < |segs|
    ensures SegmentBytes(segs[i := g]) == SegmentBytes(segs) - segs[i].size + g.size
  {
    SegmentBytesAt(segs, i);
    SegmentBytesAt(segs[i := g], i);
    assert segs[i := g][..i] + segs[i := g][i + 1..] == segs[..i] + segs[i + 1..];
  }

  /** The addresses a region covers. */
  function Block(a: int, n: nat): (A: set<int>)
    ensures |A| == n && forall x :: x in A <==> a <= x < a + n
  {
    if n == 0 then {} else Block(a, n - 1) + {a + n - 1}
  }

  predicate InSeg(segs: seq<Segment>, i: int, x: int) {
    0 <= i < |segs| && segs[i].base <= x < segs[i].base + segs[i].size
  }

  predicate InMap(maps: Maps, r: int, x: int) {
    r in maps && r <= x < r + maps[r]
  }

  /** Regions that do not overlap fit in the address space, so their sizes add up without wrapping around. */
  lemma {:induction false} SegmentsFit(segs: seq<Segment>) returns (A: set<int>)
    requires Shaped(segs) && Apart(segs)
    ensures |A| == SegmentBytes(segs)
    ensures forall x :: x in A <==> exists i :: InSeg(segs, i, x)
  {
    if segs == [] {
      A := {};
    } else {
      var rest := segs[1..];
      forall i, j | 0 <= i < |rest| && 0 <= j < |rest| && i != j
        ensures Disjoint(rest[i].base, rest[i].size, rest[j].base, rest[j].size) {
        assert Disjoint(segs[i + 1].base, segs[i + 1].size, segs[j + 1].base, segs[j + 1].size);
      }
      forall i | 0 <= i < |rest| ensures Shape(rest[i]) { assert Shape(segs[i + 1]); }
      assert Shape(segs[0]);
      var B := SegmentsFit(rest);
      var H := Block(segs[0].base, segs[0].size);
      forall x | x in B ensures x !in H && InSegs(segs, x) {
        var i :| InSeg(rest, i, x);
        assert Disjoint(segs[0].base, segs[0].size, segs[i + 1].base, segs[i + 1].size);
        assert InSeg(segs, i + 1, x);
      }
      A := H + B;
      forall x ensures x in A <==> InSegs(segs, x) {
        if x in H { assert InSeg(segs, 0, x); }
        if i :| InSeg(segs, i, x) {
          assert i > 0 ==> InSeg(rest, i - 1, x);
        }
      }
    }
  }

  ghost predicate InSegs(segs: seq<Segment>, x: int) {
    exists i :: InSeg(segs, i, x)
  }

  lemma {:induction false} MapsFit(segs: seq<Segment>, maps: Maps) returns (A: set<int>)
    requires MapsOk(segs, maps)
    ensures |A| == MapBytes(maps)
    ensures forall x :: x in A ==> exists r :: InMap(maps, r, x)
    decreases |maps|
  {
    if r :| r in maps {
      var rest := maps - {r};
      assert MapOk(r, segs, maps);
      forall q | q in rest ensures MapOk(q, segs, rest) { assert MapOk(q, segs, maps); }
      MapBytesLess(maps, r);
      var B := MapsFit(segs, rest);
      var H := Block(r, maps[r]);
      forall x | x in B ensures x !in H && exists q :: InMap(maps, q, x) {
        var q :| InMap(rest, q, x);
        assert InMap(maps, q, x);
      }
      A := H + B;
      forall x | x in H ensures exists q :: InMap(maps, q, x) {
        assert InMap(maps, r, x);
      }
    } else {
      A := {};
    }
  }

  /** The footprint never reaches the size of the address space. */
  lemma FootprintFits(segs: seq<Segment>, maps: Maps)
    requires Shaped(segs) && Segments.Apart(segs) && MapsOk(segs, maps)
    ensures 0 <= SegmentBytes(segs) + MapBytes(maps) < SPACE
  {
    var A := SegmentsFit(segs);
    var B := MapsFit(segs, maps);
    forall x | x in B ensures x !in A && 1 <= x < SPACE {
      var r :| InMap(maps, r, x);
      assert MapOk(r, segs, maps);
    }
    forall x | x in A ensures 1 <= x < SPACE {
      var i :| InSeg(segs, i, x);
      assert Shape(segs[i]);
    }
    AtMost(A + B, SPACE - 1);
  }

  lemma {:induction false} Within(A: set<int>, B: set<int>)
    requires A <= B
    ensures |A| <= |B|
  {
    assert B == A + (B - A);
  }

  lemma AtMost(A: set<int>, n: nat)
    requires forall x :: x in A ==> 1 <= x <= n
    ensures |A| <= n
  {
    Within(A, Block(1, n));
  }

  /** What is mapped is accounted for in the footprint. */
  ghost predicate Accounted(T: Layout, segs: seq<Segment>, maps: Maps, footprint: int, peak: int) {
    forall u {:trigger Look(u)} :: Look(u) ==>
      MapsOk(segs, maps) && AllHomed(T, maps) && footprint == SegmentBytes(segs) + MapBytes(maps) <= peak
  }

  /** Steps inside the segments change nothing here. */
  lemma StillAccounted(T: Layout, T': Layout, segs: seq<Segment>, maps: Maps, footprint: int, peak: int)
    requires Accounted(T, segs, maps, footprint, peak) && SameMaps(T, T')
    ensures Accounted(T', segs, maps, footprint, peak)
  {
    assert Look(0);
    HomedStill(T, T', maps);
  }

  /** What the kernel hands out is vacant. */
  lemma UnmappedVacant(T: Layout, segs: seq<Segment>, maps: Maps, footprint: int, peak: int, base: int, size: int)
    requires Accounted(T, segs, maps, footprint, peak) && Unmapped(base, size, segs, maps)
    ensures Vacant(T, segs, base, size)
  {
    assert Look(0);
    forall c | c in T && T[c].Mapped? ensures VacantBy(T, c, base, size) {
      assert Homed(T, maps, c);
    }
  }

  lemma HomedStill(T: Layout, T': Layout, maps: Maps)
    requires AllHomed(T, maps) && SameMaps(T, T')
    ensures AllHomed(T', maps)
  {
    forall c | c in T' ensures Homed(T', maps, c) {
      assert SameMap(T, T', c);
      if T'[c].Mapped? {
        assert Homed(T, maps, c);
        forall d | d in T' && d != c && T'[d].Mapped? ensures RegionStart(T', d) != RegionStart(T', c) {
          assert SameMap(T, T', d);
        }
      }
    }
  }

  /** A new segment, in front of the others. */
  lemma FrontAccounted(T: Layout, T': Layout, segs: seq<Segment>, g: Segment, maps: Maps, footprint: int, peak: int)
    requires Shaped(segs) && Segments.Apart(segs) && Accounted(T, segs, maps, footprint, peak) && SameMaps(T, T') &&
      Unmapped(g.base, g.size, segs, maps)
    requires Shaped([g] + segs) && Segments.Apart([g] + segs)
    ensures footprint + g.size < SPACE
    ensures peak >= footprint + g.size ==> Accounted(T', [g] + segs, maps, footprint + g.size, peak)
    ensures peak < footprint + g.size ==> Accounted(T', [g] + segs, maps, footprint + g.size, footprint + g.size)
    ensures 0 <= footprint
  {
    assert Look(0);
    FootprintFits(segs, maps);
    HomedStill(T, T', maps);
    assert ([g] + segs)[1..] == segs;
    forall r | r in maps ensures MapOk(r, [g] + segs, maps) {
      assert MapOk(r, segs, maps);
      assert Disjoint(g.base, g.size, r, maps[r]);
    }
    FootprintFits([g] + segs, maps);
  }

  /** A segment grows or shrinks, over space that was vacant if it grows. */
  lemma ResizedAccounted(T: Layout, T': Layout, segs: seq<Segment>, i: nat, g: Segment, maps: Maps, footprint: int,
      peak: int)
    requires Shaped(segs) && Segments.Apart(segs) && Accounted(T, segs, maps, footprint, peak) && SameMaps(T, T') &&
      i < |segs|
    requires Shaped(segs[i := g]) && Segments.Apart(segs[i := g])
    requires forall r :: r in maps ==> Disjoint(r, maps[r], g.base, g.size)
    ensures var f := footprint - segs[i].size + g.size;
      && f < SPACE
      && (peak >= f ==> Accounted(T', segs[i := g], maps, f, peak)) &&
        (peak < f ==> Accounted(T', segs[i := g], maps, f, f))
    ensures 0 <= footprint
    ensures footprint <= peak
  {
    assert Look(0);
    FootprintFits(segs, maps);
    HomedStill(T, T', maps);
    SegmentBytesSet(segs, i, g);
    forall r | r in maps ensures MapOk(r, segs[i := g], maps) { assert MapOk(r, segs, maps); }
    FootprintFits(segs[i := g], maps);
  }

  /** A directly mapped region stays clear of a segment that grows over vacant space. */
  lemma GrownClear(T: Layout, segs: seq<Segment>, maps: Maps, footprint: int, peak: int, i: nat, base: int, size: int,
      g: Segment)
    requires Accounted(T, segs, maps, footprint, peak) && i < |segs| && Unmapped(base, size, segs, maps) &&
      segs[i].size > 0 && size > 0
    requires (g.base == segs[i].base && base == g.base + segs[i].size && g.size == segs[i].size + size)
      || (g.base == base && base + size == segs[i].base && g.size == segs[i].size + size)
    ensures forall r :: r in maps ==> Disjoint(r, maps[r], g.base, g.size)
  {
    assert Look(0);
    forall r | r in maps ensures Disjoint(r, maps[r], g.base, g.size) {
      assert MapOk(r, segs, maps);
      assert Disjoint(base, size, r, maps[r]) && Disjoint(r, maps[r], segs[i].base, segs[i].size);
    }
  }

  lemma ShrunkClear(T: Layout, segs: seq<Segment>, maps: Maps, footprint: int, peak: int, i: nat, g: Segment)
    requires Accounted(T, segs, maps, footprint, peak) && i < |segs| && g.base == segs[i].base && g.size <= segs[i].size
    ensures forall r :: r in maps ==> Disjoint(r, maps[r], g.base, g.size)
  {
    assert Look(0);
    forall r | r in maps ensures Disjoint(r, maps[r], g.base, g.size) { assert MapOk(r, segs, maps); }
  }

  /** A segment is gone. */
  lemma FewerAccounted(T: Layout, T': Layout, segs: seq<Segment>, i: nat, maps: Maps, footprint: int, peak: int)
    requires Accounted(T, segs, maps, footprint, peak) && SameMaps(T, T') && i < |segs| && segs[i].size >= 0
    ensures Accounted(T', segs[..i] + segs[i + 1..], maps, footprint - segs[i].size, peak)
  {
    assert Look(0);
    HomedStill(T, T', maps);
    SegmentBytesAt(segs, i);
    var segs' := segs[..i] + segs[i + 1..];
    forall r | r in maps ensures MapOk(r, segs', maps) {
      assert MapOk(r, segs, maps);
      forall j | 0 <= j < |segs'| ensures Disjoint(r, maps[r], segs'[j].base, segs'[j].size) {
        assert segs'[j] == segs[if j < i then j else j + 1];
      }
    }
  }

  /** A new directly mapped chunk in a region of its own. */
  lemma MappedAccounted(T: Layout, T': Layout, segs: seq<Segment>, maps: Maps, c: int, size: int, offset: int,
      base: int, len: int, footprint: int, peak: int)
    requires Accounted(T, segs, maps, footprint, peak) && Unmapped(base, len, segs, maps) && Shaped(segs) &&
      Segments.Apart(segs)
    requires c !in T && T' == T[c := Mapped(size, offset)] && base == c - offset && len == offset + size + 4 * WORD
    requires size % ALIGN == 0 && size >= MIN_CHUNK
    ensures footprint + len < SPACE
    ensures peak >= footprint + len ==> Accounted(T', segs, maps[base := len], footprint + len, peak)
    ensures peak < footprint + len ==> Accounted(T', segs, maps[base := len], footprint + len, footprint + len)
    ensures 0 <= footprint
  {
    assert Look(0);
    FootprintFits(segs, maps);
    var maps' := maps[base := len];
    forall r | r in maps' ensures MapOk(r, segs, maps') && (r in maps ==> r != base) {
      if r in maps { assert MapOk(r, segs, maps) && Disjoint(base, len, r, maps[r]); }
    }
    MapBytesMore(maps, base, len);
    forall d | d in T' ensures Homed(T', maps', d) {
      if d != c { assert Homed(T, maps, d); }
      forall e | e in T' && e != d && T'[e].Mapped? && T'[d].Mapped? ensures RegionStart(T', e) != RegionStart(T', d) {
        if e != c { assert Homed(T, maps, e); }
      }
    }
    FootprintFits(segs, maps');
  }

  /** A directly mapped chunk is gone, its region with it unless the kernel refuses. */
  lemma UnmappedAccounted(T: Layout, c: int, segs: seq<Segment>, maps: Maps, footprint: int, peak: int)
    requires Accounted(T, segs, maps, footprint, peak) && c in T && T[c].Mapped?
    ensures RegionStart(T, c) in maps && maps[RegionStart(T, c)] == RegionSize(T, c) > 0
    ensures Accounted(T - {c}, segs, maps, footprint, peak)
    ensures Accounted(T - {c}, segs, maps - {RegionStart(T, c)}, footprint - RegionSize(T, c), peak)
  {
    assert Look(0);
    var q := RegionStart(T, c);
    assert Homed(T, maps, c) && MapOk(q, segs, maps);
    MapBytesLess(maps, q);
    forall d | d in T - {c} ensures Homed(T - {c}, maps, d) && Homed(T - {c}, maps - {q}, d) {
      assert Homed(T, maps, d);
    }
    forall r | r in maps - {q} ensures MapOk(r, segs, maps - {q}) { assert MapOk(r, segs, maps); }
  }
}
