/** The state of the allocator malloc.c, and the memory it hands out. */
module Heaps {
  import opened Tiling
  import opened Words
  import opened Ownership
  import opened Segments
  import opened Steps
  import opened Regions
  import Binning

  const TRIM_THRESHOLD := 0x20_0000
  const MAX_SIZE := 0xFFFF_FFFF

  /** The mstate, with the memory it manages; maps is the kernel's own list of directly mapped regions. */
  class Heap {
    var m: Memory
    const bins: Binning.Bins
    var dv: int
    var dvsize: int
    var top: int
    var topsize: int
    var segs: seq<Segment>
    var maps: Maps
    var footprint: int
    var maxFootprint: int
    var trimCheck: int
    var releaseChecks: int
    ghost var T: Layout
    ghost var live: set<int>
    ghost var records: set<int>

    ghost function View(): State
      reads this, bins, bins.small, bins.large
    {
      State(m, T, Owners(bins.held, dv, dvsize, top, topsize, live, records), segs)
    }

    lemma Is(s: State)
      requires m == s.m && T == s.T && segs == s.segs && live == s.o.live && records == s.o.records &&
        bins.held == s.o.binned
      requires dv == s.o.dv && dvsize == s.o.dvsize && top == s.o.top && topsize == s.o.topsize
      ensures View() == s
    {
    }

    /** The chunks in the segments are in order. */
    ghost predicate Ready()
      reads this, bins, bins.small, bins.large
    {
      bins.Valid() && Sound(View())
    }

    ghost predicate Valid()
      reads this, bins, bins.small, bins.large
    {
      Ready() && Accounted(T, segs, maps, footprint, maxFootprint)
    }

    /** The chunks from a to b have no owner for the moment; g is the state without them. dv may have been at a. */
    ghost predicate InGap(g: State, foot: int, a: int, b: int)
      reads this, bins, bins.small, bins.large
    {
      && bins.Valid() && Gapped(g, foot, a, b)
      && g.m == m && g.T == T && g.segs == segs && g.o.binned == bins.held && g.o.live == live && g.o.records == records
      && g.o.top == top && g.o.topsize == topsize
      && (if g.o.dv == dv then g.o.dvsize == dvsize else g.o.dv == 0 && g.o.dvsize == 0 && dv == a)
    }

    /** Nothing has been mapped yet. */
    constructor ()
      ensures Valid() && live == {} && footprint == 0 && fresh(bins) && fresh(bins.small) && fresh(bins.large)
    {
      bins := new Binning.Bins();
      m, dv, dvsize, top, topsize := map[], 0, 0, 0, 0;
      segs, maps, footprint, maxFootprint, trimCheck, releaseChecks := [], map[], 0, 0, 0, 0;
      T, live, records := map[], {}, {};
    }
  }
}
