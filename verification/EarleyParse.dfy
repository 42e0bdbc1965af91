/** The backward pass of the parser: of all that was found, what a parse of the goal uses. */
module EarleyParses {
  import opened EarleyGrammars
  import opened EarleyTabling
  import opened EarleySets
  import opened EarleyParsing
  import opened EarleyRecognising

  /** Element i of c at j is put together from the configuration before it, up to k, and the complete one e, from k
      on. */
  ghost predicate Joint(p: Input, chart: Chart, c: nat, i: nat, k: nat, e: nat, j: nat) {
    && |p.t.nts| <= c && 0 < c <= |p.t.steps| && 0 <= p.t.steps[c - 1] < |p.t.enders| &&
      e in p.t.enders[p.t.steps[c - 1]]
    && i <= k <= j < |chart| && (e, k) in chart[j] && (c - 1, i) in chart[k]
  }

  /** A parse of the goal over all tokens uses element i of c at j, at depth h at most. */
  ghost predicate Used(p: Input, chart: Chart, c: nat, i: nat, j: nat, h: nat)
    decreases h
  {
    && h > 0 && j < |chart| && (c, i) in chart[j]
    && ((j == |chart| - 1 && i == 0 && p.t.enders != [] && c in p.t.enders[0])
      || (exists e: nat, j': nat {:trigger Joint(p, chart, c + 1, i, j, e, j')} :: Used(p, chart, c + 1, i, j',
        h - 1) && Joint(p, chart, c + 1, i, j, e, j'))
      || exists c': nat, i': nat {:trigger Joint(p, chart, c', i', i, c, j)} ::
        Used(p, chart, c', i', j, h - 1) && Joint(p, chart, c', i', i, c, j))
  }

  ghost predicate Useful(p: Input, chart: Chart, c: nat, i: nat, j: nat) {
    exists h: nat :: Used(p, chart, c, i, j, h)
  }

  lemma UsefulParts(p: Input, chart: Chart, c: nat, i: nat, k: nat, e: nat, j: nat)
    requires Useful(p, chart, c, i, j) && Joint(p, chart, c, i, k, e, j)
    ensures Useful(p, chart, c - 1, i, k) && Useful(p, chart, e, k, j)
  {
    var h: nat :| Used(p, chart, c, i, j, h);
    assert Used(p, chart, (c - 1) + 1, i, j, (h + 1) - 1);
    assert Used(p, chart, c - 1, i, k, h + 1);
    assert Used(p, chart, c, i, j, (h + 1) - 1);
    assert Used(p, chart, e, k, j, h + 1);
  }

  /** The states of the backward pass: all that is in them is useful. */
  ghost predicate KeptOk(p: Input, chart: Chart, kept: seq<State>)
    reads kept
  {
    && |kept| == |chart| && (forall a, b :: 0 <= a < b < |kept| ==> kept[a] != kept[b])
    && forall k: nat {:trigger kept[k]} :: k < |kept| ==>
      && kept[k].Valid() && kept[k].num == k && kept[k].nbConfs == |p.items|
      && forall c: nat, i: nat {:trigger (c, i) in kept[k].all} :: (c, i) in kept[k].all ==> Useful(p, chart, c, i, k)
  }

  /** The forward states hold the chart, and are other objects than the kept ones. */
  ghost predicate Apart(p: Input, chart: Chart, states: seq<State>, kept: seq<State>)
    reads states
  {
    && |states| == |kept| && Forwarded(p, states, |states|, chart)
    && forall a, b {:trigger states[a], kept[b]} :: 0 <= a < |states| && 0 <= b < |kept| ==> states[a] != kept[b]
  }

  /** The charts grow, up to j. */
  ghost predicate Grew(a: Chart, b: Chart, j: int) {
    |a| == |b| && forall m: nat {:trigger a[m]} {:trigger b[m]} :: m < |a| ==> a[m] <= b[m] && (m > j ==> a[m] == b[m])
  }

  /** The kept states behind j are finished, and those before j have not been worked on. */
  ghost predicate Rest(kept: seq<State>, j: int)
    reads kept
  {
    forall m: nat {:trigger kept[m]} :: m < |kept| ==> (m > j ==> Finished(kept[m])) && (m < j ==> kept[m].dealt == {})
  }

  /** All that element i of c at j may be put together from has been kept. */
  ghost predicate Closed(p: Input, chart: Chart, kc: Chart, c: nat, i: nat, j: nat)
    requires |kc| == |chart|
  {
    forall k: nat, e: nat {:trigger Joint(p, chart, c, i, k, e, j)} :: Joint(p, chart, c, i, k, e, j) ==>
      (c - 1, i) in kc[k] && (e, k) in kc[j]
  }

  ghost function Now(kept: seq<State>): (kc: Chart)
    reads kept
    ensures |kc| == |kept| && forall k :: 0 <= k < |kept| ==> kc[k] == kept[k].all
  {
    Past(kept, |kept|)
  }

  /** conf_set_adjoin**: element i of c is kept, if it was found */
  method Keep(p: Input, ghost chart: Chart, states: seq<State>, kept: seq<State>, k: nat, c: nat, i: nat)
      returns (there: bool)
    requires KeptOk(p, chart, kept) && Apart(p, chart, states, kept) && k < |kept| && c < |p.items|
    requires (c, i) in chart[k] ==> Useful(p, chart, c, i, k)
    modifies kept[k]
    ensures KeptOk(p, chart, kept) && (there <==> (c, i) in chart[k]) && (there ==> (c, i) in kept[k].all)
    ensures Grew(old(Now(kept)), Now(kept), k) && kept[k].dealt == old(kept[k].dealt)
    ensures SameLinks(old(kept[k].sets), kept[k].sets, kept[k].dealt)
  {
    var from, to := states[k], kept[k];
    from.Present(c, i);
    from.InRange(c, i);
    to.LinksThere();
    there := c in from.sets && i in from.sets[c];
    if there {
      to.GetSet(c);
      to.Present(c, i);
      if i !in to.sets[c] {
        ghost var sets1 := to.sets;
        to.Adjoin(c, i);
        LinksAgain(old(to.sets), sets1, to.sets, to.dealt);
      }
    }
  }

  /** What is in the kept states, and in state j what has been dealt with, and its links. */
  datatype Snapshot = Snapshot(kc: Chart, dealt: Pairs, sets: map<nat, Cells>)

  ghost function Snap(kept: seq<State>, j: nat): (s: Snapshot)
    requires j < |kept|
    reads kept
    ensures |s.kc| == |kept|
  {
    Snapshot(Now(kept), kept[j].dealt, kept[j].sets)
  }

  /** What the work on an element at j may change. */
  ghost predicate Onward(a: Snapshot, b: Snapshot, j: nat) {
    Grew(a.kc, b.kc, j) && a.dealt == b.dealt && SameLinks(a.sets, b.sets, b.dealt)
  }

  lemma OnwardAgain(a: Snapshot, b: Snapshot, c: Snapshot, j: nat)
    requires Onward(a, b, j) && Onward(b, c, j)
    ensures Onward(a, c, j)
  {
    assert forall m: nat {:trigger b.kc[m]} :: m < |a.kc| ==> a.kc[m] <= b.kc[m] <= c.kc[m];
  }

  lemma OnwardNot(kept: seq<State>, j: nat)
    requires j < |kept| && kept[j].Valid()
    ensures Onward(Snap(kept, j), Snap(kept, j), j)
  {
    kept[j].LinksThere();
  }

  ghost predicate Carried(p: Input, chart: Chart, kc: Chart, c: nat, i: nat, k: nat, e: nat, j: nat)
    requires |kc| == |chart|
  {
    Joint(p, chart, c, i, k, e, j) ==> (c - 1, i) in kc[k] && (e, k) in kc[j]
  }

  /** The first m places have been seen to. */
  ghost predicate CarriedFrom(p: Input, chart: Chart, kc: Chart, c: nat, i: nat, places: seq<nat>, m: nat, e: nat,
      j: nat)
  {
    && |kc| == |chart| && m <= |places|
    && forall x: nat {:trigger places[x]} :: x < m ==> Carried(p, chart, kc, c, i, places[x], e, j)
  }

  /** The first m complete configurations have been seen to. */
  ghost predicate CarriedBy(p: Input, chart: Chart, kc: Chart, c: nat, i: nat, l: seq<nat>, m: nat, j: nat) {
    && |kc| == |chart| && m <= |l|
    && forall x: nat, k: nat {:trigger Carried(p, chart, kc, c, i, k, l[x], j)} :: x < m ==>
      Carried(p, chart, kc, c, i, k, l[x], j)
  }

  lemma CarriedOn(p: Input, chart: Chart, a: Snapshot, b: Snapshot, c: nat, i: nat, places: seq<nat>, m: nat, e: nat,
      j: nat)
    requires CarriedFrom(p, chart, a.kc, c, i, places, m, e, j) && Onward(a, b, j)
    ensures CarriedFrom(p, chart, b.kc, c, i, places, m, e, j)
  {
  }

  lemma CarriedMore(p: Input, chart: Chart, a: Snapshot, b: Snapshot, c: nat, i: nat, l: seq<nat>, m: nat, j: nat)
    requires CarriedBy(p, chart, a.kc, c, i, l, m, j) && Onward(a, b, j) && m < |l|
    requires forall k: nat {:trigger Carried(p, chart, b.kc, c, i, k, l[m], j)} ::
      Carried(p, chart, b.kc, c, i, k, l[m], j)
    ensures CarriedBy(p, chart, b.kc, c, i, l, m + 1, j)
  {
    forall x: nat, k: nat | x < m + 1 ensures Carried(p, chart, b.kc, c, i, k, l[x], j) {
      if x < m { assert Carried(p, chart, a.kc, c, i, k, l[x], j); }
    }
  }

  /** The complete configuration e at j, with the place k where it starts. */
  method BackPair(p: Input, ghost chart: Chart, states: seq<State>, kept: seq<State>, c: nat, i: nat, k: nat, e: nat,
      j: nat)
    requires InputOk(p) && KeptOk(p, chart, kept) && Apart(p, chart, states, kept) && j < |kept| &&
      Useful(p, chart, c, i, j)
    requires |p.t.nts| <= c < |p.items| && 0 <= p.t.steps[c - 1] < |p.t.nts| && e in p.t.enders[p.t.steps[c - 1]] &&
      e < |p.items|
    requires i <= k <= j && (e, k) in chart[j] && Rest(kept, j)
    modifies kept
    ensures KeptOk(p, chart, kept) && Onward(old(Snap(kept, j)), Snap(kept, j), j) && Rest(kept, j)
    ensures Carried(p, chart, Now(kept), c, i, k, e, j)
  {
    if Joint(p, chart, c, i, k, e, j) { UsefulParts(p, chart, c, i, k, e, j); }
    kept[j].LinksThere();
    var there := Keep(p, chart, states, kept, k, c - 1, i);
    if there {
      ghost var sets1 := kept[j].sets;
      var again := Keep(p, chart, states, kept, j, e, k);
      LinksAgain(old(kept[j].sets), sets1, kept[j].sets, kept[j].dealt);
    }
  }

  /** All places where the complete configuration e at j starts. */
  method BackEnder(p: Input, ghost chart: Chart, states: seq<State>, kept: seq<State>, c: nat, i: nat, e: nat, j: nat)
    requires InputOk(p) && KeptOk(p, chart, kept) && Apart(p, chart, states, kept) && j < |kept| &&
      Useful(p, chart, c, i, j)
    requires |p.t.nts| <= c < |p.items| && 0 <= p.t.steps[c - 1] < |p.t.nts| && e in p.t.enders[p.t.steps[c - 1]] &&
      e < |p.items|
    requires Rest(kept, j)
    modifies kept
    ensures KeptOk(p, chart, kept) && Onward(old(Snap(kept, j)), Snap(kept, j), j) && Rest(kept, j)
    ensures forall k: nat {:trigger Carried(p, chart, Now(kept), c, i, k, e, j)} ::
      Carried(p, chart, Now(kept), c, i, k, e, j)
  {
    OnwardNot(kept, j);
    if e in states[j].sets {
      ghost var places := Places(p, chart, states, kept, e, j);
      BackPlaces(p, chart, states, kept, c, i, e, j, states[j].sets[e], places);
      forall k: nat ensures Carried(p, chart, Now(kept), c, i, k, e, j) {
        if (e, k) in chart[j] {
          assert k in places;
          var x: nat :| x < |places| && places[x] == k;
        }
      }
    } else {
      states[j].NoneOf(e);
    }
  }

  /** Where the complete configuration e at j starts. */
  lemma Places(p: Input, chart: Chart, states: seq<State>, kept: seq<State>, e: nat, j: nat) returns (places: seq<nat>)
    requires Apart(p, chart, states, kept) && j < |states| && e in states[j].sets
    ensures var s := states[j].sets[e]; DONE_HEAD in s && Chain(s, s[DONE_HEAD], places)
    ensures forall k: nat {:trigger k in places} :: k in places <==> (e, k) in chart[j]
    ensures forall k :: k in places ==> k <= j
  {
    places := states[j].ListOf(e);
    AllDealt(states[j]);
  }

  method BackPlaces(p: Input, ghost chart: Chart, states: seq<State>, kept: seq<State>, c: nat, i: nat, e: nat,
      j: nat, ender: Cells, ghost places: seq<nat>)
    requires InputOk(p) && KeptOk(p, chart, kept) && Apart(p, chart, states, kept) && j < |kept| &&
      Useful(p, chart, c, i, j)
    requires |p.t.nts| <= c < |p.items| && 0 <= p.t.steps[c - 1] < |p.t.nts| && e in p.t.enders[p.t.steps[c - 1]] &&
      e < |p.items|
    requires Rest(kept, j) && DONE_HEAD in ender && Chain(ender, ender[DONE_HEAD], places)
    requires forall k :: k in places ==> k <= j && (e, k) in chart[j]
    modifies kept
    ensures KeptOk(p, chart, kept) && Onward(old(Snap(kept, j)), Snap(kept, j), j) && Rest(kept, j)
    ensures CarriedFrom(p, chart, Now(kept), c, i, places, |places|, e, j)
  {
    OnwardNot(kept, j);
    var k := ender[DONE_HEAD];
    ghost var m, before := 0, Snap(kept, j);
    while k >= 0
      invariant KeptOk(p, chart, kept) && Apart(p, chart, states, kept) && Onward(before, Snap(kept, j), j) &&
        Rest(kept, j)
      invariant m <= |places| && Chain(ender, k, places[m..])
      invariant CarriedFrom(p, chart, Now(kept), c, i, places, m, e, j)
      decreases |places| - m
    {
      assert places[m] in places;
      ghost var now := Snap(kept, j);
      OnwardNot(kept, j);
      if k >= i {
        BackPair(p, chart, states, kept, c, i, k, e, j);
      }
      OnwardAgain(before, now, Snap(kept, j), j);
      CarriedOn(p, chart, now, Snap(kept, j), c, i, places, m, e, j);
      assert places[m..][1..] == places[m + 1..];
      k := ender[k];
      m := m + 1;
    }
  }

  /** Element i of c at j: everything it may be put together from is kept. */
  method BackOne(p: Input, ghost chart: Chart, states: seq<State>, kept: seq<State>, c: nat, i: nat, j: nat)
    requires InputOk(p) && KeptOk(p, chart, kept) && Apart(p, chart, states, kept) && j < |kept| &&
      Useful(p, chart, c, i, j)
    requires c < |p.items| && Rest(kept, j)
    modifies kept
    ensures KeptOk(p, chart, kept) && Onward(old(Snap(kept, j)), Snap(kept, j), j) && Rest(kept, j)
    ensures Closed(p, chart, Now(kept), c, i, j)
  {
    OnwardNot(kept, j);
    var prev := c - 1;
    if c >= |p.t.nts| && p.t.steps[prev] >= 0 {
      WaitsFor(p, prev);
      BackAll(p, chart, states, kept, c, i, p.t.enders[p.t.steps[prev]], j);
      AllCarried(p, chart, Now(kept), c, i, j);
    }
  }

  /** A configuration with a step that is not negative waits for a category, which has its list. */
  lemma WaitsFor(p: Input, c: nat)
    requires InputOk(p) && c < |p.items| && p.t.steps[c] >= 0
    ensures p.t.steps[c] < |p.t.nts| &&
      forall e {:trigger e in p.t.enders[p.t.steps[c]]} :: e in p.t.enders[p.t.steps[c]] ==> e < |p.items|
  {
    assert StepOk(p.t, p.rules, p.items, c) && ItemOk(p.rules, p.items, |p.t.nts|, c);
    assert Listed(p.t, p.rules, p.items, p.t.steps[c]);
  }

  lemma AllCarried(p: Input, chart: Chart, kc: Chart, c: nat, i: nat, j: nat)
    requires |kc| == |chart| && 0 < c <= |p.t.steps| && 0 <= p.t.steps[c - 1] < |p.t.enders|
    requires var l := p.t.enders[p.t.steps[c - 1]]; CarriedBy(p, chart, kc, c, i, l, |l|, j)
    ensures Closed(p, chart, kc, c, i, j)
  {
    var l := p.t.enders[p.t.steps[c - 1]];
    forall k: nat, e: nat | Joint(p, chart, c, i, k, e, j) ensures (c - 1, i) in kc[k] && (e, k) in kc[j] {
      var x: nat :| x < |l| && l[x] == e;
      assert Carried(p, chart, kc, c, i, k, l[x], j);
    }
  }

  method BackAll(p: Input, ghost chart: Chart, states: seq<State>, kept: seq<State>, c: nat, i: nat, l: seq<nat>,
      j: nat)
    requires InputOk(p) && KeptOk(p, chart, kept) && Apart(p, chart, states, kept) && j < |kept| &&
      Useful(p, chart, c, i, j)
    requires |p.t.nts| <= c < |p.items| && 0 <= p.t.steps[c - 1] < |p.t.nts| && l == p.t.enders[p.t.steps[c - 1]]
    requires Rest(kept, j) && forall e {:trigger e in l} :: e in l ==> e < |p.items|
    modifies kept
    ensures KeptOk(p, chart, kept) && Onward(old(Snap(kept, j)), Snap(kept, j), j) && Rest(kept, j)
    ensures CarriedBy(p, chart, Now(kept), c, i, l, |l|, j)
  {
    OnwardNot(kept, j);
    var m := 0;
    ghost var before := Snap(kept, j);
    while m < |l|
      invariant m <= |l| && KeptOk(p, chart, kept) && Apart(p, chart, states, kept) &&
        Onward(before, Snap(kept, j), j) && Rest(kept, j)
      invariant CarriedBy(p, chart, Now(kept), c, i, l, m, j)
    {
      assert l[m] in l;
      ghost var now := Snap(kept, j);
      BackEnder(p, chart, states, kept, c, i, l[m], j);
      OnwardAgain(before, now, Snap(kept, j), j);
      CarriedMore(p, chart, now, Snap(kept, j), c, i, l, m, j);
      m := m + 1;
    }
  }

  /** What has been dealt with at j has its parts kept. */
  ghost predicate ClosedAt(p: Input, chart: Chart, kc: Chart, dealt: Pairs, j: nat) {
    && |kc| == |chart|
    && forall c: nat, i: nat {:trigger (c, i) in dealt} :: (c, i) in dealt ==> Closed(p, chart, kc, c, i, j)
  }

  lemma ClosedOn(p: Input, chart: Chart, a: Chart, b: Chart, dealt: Pairs, j: nat, j': nat)
    requires ClosedAt(p, chart, a, dealt, j) && Grew(a, b, j')
    ensures ClosedAt(p, chart, b, dealt, j)
  {
    forall c: nat, i: nat | (c, i) in dealt ensures Closed(p, chart, b, c, i, j) {
      assert Closed(p, chart, a, c, i, j);
    }
  }

  lemma ClosedMore(p: Input, chart: Chart, a: Chart, b: Chart, row: Pairs, c: nat, i: nat, j: nat)
    requires ClosedAt(p, chart, a, row, j) && Grew(a, b, j) && |b| == |chart| && Closed(p, chart, b, c, i, j)
    ensures ClosedAt(p, chart, b, row + {(c, i)}, j)
  {
    ClosedOn(p, chart, a, b, row, j, j);
  }

  /** The elements of c at j that have just been dealt with. */
  method BackElems(p: Input, ghost chart: Chart, states: seq<State>, kept: seq<State>, c: nat, first: int,
      ghost elems: seq<nat>, j: nat)
    requires InputOk(p) && KeptOk(p, chart, kept) && Apart(p, chart, states, kept) && j < |kept| && c < |p.items| &&
      Rest(kept, j)
    requires c in kept[j].sets && Chain(kept[j].sets[c], first, elems)
    requires forall x :: x in elems ==> (c, x) in kept[j].dealt && Useful(p, chart, c, x, j)
    modifies kept
    ensures KeptOk(p, chart, kept) && Onward(old(Snap(kept, j)), Snap(kept, j), j) && Rest(kept, j)
    ensures ClosedAt(p, chart, Now(kept), Row(c, elems), j)
  {
    OnwardNot(kept, j);
    var i := first;
    ghost var m, before := 0, Snap(kept, j);
    while i >= 0
      invariant KeptOk(p, chart, kept) && Apart(p, chart, states, kept) && Onward(before, Snap(kept, j), j) &&
        Rest(kept, j)
      invariant m <= |elems| && c in kept[j].sets && Chain(kept[j].sets[c], i, elems[m..])
      invariant ClosedAt(p, chart, Now(kept), Row(c, elems[..m]), j)
      decreases |elems| - m
    {
      assert elems[m] in elems;
      ghost var now := Snap(kept, j);
      BackOne(p, chart, states, kept, c, i, j);
      OnwardAgain(before, now, Snap(kept, j), j);
      ClosedMore(p, chart, now.kc, Now(kept), Row(c, elems[..m]), c, i, j);
      RowMore(c, elems, m);
      assert (c, elems[m]) in now.dealt;
      SameChain(now.sets, kept[j].sets, now.dealt, c, i, elems[m..]);
      assert elems[m..][1..] == elems[m + 1..];
      i := kept[j].sets[c][i];
      m := m + 1;
    }
    assert elems[..m] == elems;
  }

  /** One configuration of the work list of kept state j. */
  method BackStep(p: Input, ghost chart: Chart, states: seq<State>, kept: seq<State>, j: nat)
    requires InputOk(p) && KeptOk(p, chart, kept) && Apart(p, chart, states, kept) && j < |kept| && Rest(kept, j)
    requires !Finished(kept[j]) && ClosedAt(p, chart, Now(kept), kept[j].dealt, j)
    modifies kept
    ensures KeptOk(p, chart, kept) && Grew(old(Now(kept)), Now(kept), j) && Rest(kept, j)
    ensures ClosedAt(p, chart, Now(kept), kept[j].dealt, j) && old(kept[j].dealt) < kept[j].dealt
  {
    ghost var before, dealt := Now(kept), kept[j].dealt;
    var c, first;
    ghost var elems;
    c, first, elems := kept[j].Pop();
    assert Now(kept) == before;
    assert (c, elems[0]) in Row(c, elems);
    forall x | x in elems ensures (c, x) in kept[j].dealt && Useful(p, chart, c, x, j) { kept[j].InRange(c, x); }
    BackElems(p, chart, states, kept, c, first, elems, j);
    ClosedOn(p, chart, before, Now(kept), dealt, j, j);
  }

  /** Kept state j is worked through. */
  method BackState(p: Input, ghost chart: Chart, states: seq<State>, kept: seq<State>, j: nat)
    requires InputOk(p) && KeptOk(p, chart, kept) && Apart(p, chart, states, kept) && j < |kept| && Rest(kept, j)
    requires kept[j].dealt == {}
    modifies kept
    ensures KeptOk(p, chart, kept) && Grew(old(Now(kept)), Now(kept), j) && Rest(kept, j - 1) &&
      (j > 0 ==> kept[j - 1].dealt == {})
    ensures ClosedAt(p, chart, Now(kept), Now(kept)[j], j)
  {
    ghost var before := Now(kept);
    DealtPossible(kept[j]);
    while kept[j].head >= 0
      invariant KeptOk(p, chart, kept) && Apart(p, chart, states, kept) && Rest(kept, j) && Grew(before, Now(kept), j)
      invariant ClosedAt(p, chart, Now(kept), kept[j].dealt, j) && kept[j].dealt <= Possible(|p.items|, j)
      decreases |Possible(|p.items|, j)| - |kept[j].dealt|
    {
      ghost var dealt, now := kept[j].dealt, Now(kept);
      BackStep(p, chart, states, kept, j);
      GrewAgain(before, now, Now(kept), j);
      DealtPossible(kept[j]);
      Fewer(dealt, kept[j].dealt);
      Fewer(kept[j].dealt, Possible(|p.items|, j));
    }
    AllDealt(kept[j]);
  }

  lemma GrewAgain(a: Chart, b: Chart, c: Chart, j: int)
    requires Grew(a, b, j) && Grew(b, c, j)
    ensures Grew(a, c, j)
  {
    assert forall m: nat {:trigger b[m]} :: m < |a| ==> a[m] <= b[m] <= c[m];
  }

  /** All that is kept from place j on has its parts kept, and the goal is kept. */
  ghost predicate KeptFrom(p: Input, chart: Chart, kc: Chart, j: int) {
    && |kc| == |chart| && chart != [] && p.t.enders != []
    && (forall m: nat {:trigger kc[m]} :: j <= m < |kc| ==> ClosedAt(p, chart, kc, kc[m], m))
    && (forall e: nat {:trigger e in p.t.enders[0]} :: e in p.t.enders[0] && (e, 0) in chart[|chart| - 1] ==>
      (e, 0) in kc[|kc| - 1])
  }

  lemma KeptFurther(p: Input, chart: Chart, a: Chart, b: Chart, j: nat)
    requires KeptFrom(p, chart, a, j + 1) && Grew(a, b, j) && j < |b| && ClosedAt(p, chart, b, b[j], j)
    ensures KeptFrom(p, chart, b, j)
  {
    forall m: nat | j <= m < |b| ensures ClosedAt(p, chart, b, b[m], m) {
      if m > j {
        assert ClosedAt(p, chart, a, a[m], m);
        ClosedOn(p, chart, a, b, a[m], m, j);
      }
    }
    assert a[|a| - 1] <= b[|b| - 1];
  }

  /** The complete configurations of the goal, over all tokens. */
  method KeepGoal(p: Input, ghost chart: Chart, states: seq<State>, kept: seq<State>)
    requires InputOk(p) && ChartOk(p, chart) && KeptOk(p, chart, kept) && Apart(p, chart, states, kept)
    requires Rest(kept, |kept| - 1) && kept[|kept| - 1].dealt == {}
    modifies kept
    ensures KeptOk(p, chart, kept) && Rest(kept, |kept| - 1) && kept[|kept| - 1].dealt == {}
    ensures KeptFrom(p, chart, Now(kept), |kept|)
  {
    var n := |kept| - 1;
    assert Listed(p.t, p.rules, p.items, 0);
    var l, m := p.t.enders[0], 0;
    while m < |l|
      invariant m <= |l| && KeptOk(p, chart, kept) && Apart(p, chart, states, kept) && Rest(kept, n) &&
        kept[n].dealt == {}
      invariant forall x {:trigger l[x]} :: 0 <= x < m && (l[x], 0) in chart[n] ==> (l[x], 0) in Now(kept)[n]
    {
      assert l[m] in l;
      if (l[m], 0) in chart[n] { assert Used(p, chart, l[m], 0, n, 1); }
      ghost var now := Now(kept);
      var there := Keep(p, chart, states, kept, n, l[m], 0);
      assert now[n] <= Now(kept)[n];
      m := m + 1;
    }
  }

  /** All kept states are worked through, the last one first. */
  method BackThrough(p: Input, ghost chart: Chart, states: seq<State>, kept: seq<State>)
    requires InputOk(p) && KeptOk(p, chart, kept) && Apart(p, chart, states, kept) && kept != []
    requires Rest(kept, |kept| - 1) && kept[|kept| - 1].dealt == {} && KeptFrom(p, chart, Now(kept), |kept|)
    modifies kept
    ensures KeptOk(p, chart, kept) && Rest(kept, -1) && KeptFrom(p, chart, Now(kept), 0)
  {
    var i := |kept| - 1;
    while i >= 0
      invariant -1 <= i < |kept| && KeptOk(p, chart, kept) && Apart(p, chart, states, kept)
      invariant Rest(kept, i) && (i >= 0 ==> kept[i].dealt == {})
      invariant KeptFrom(p, chart, Now(kept), i + 1)
    {
      ghost var now := Now(kept);
      BackState(p, chart, states, kept, i);
      KeptFurther(p, chart, now, Now(kept), i);
      i := i - 1;
    }
  }

  /** The backward pass. */
  method Backward(p: Input, ghost chart: Chart, states: seq<State>) returns (kept: seq<State>)
    requires InputOk(p) && ChartOk(p, chart) && |states| == |chart| && Forwarded(p, states, |states|, chart)
    ensures fresh(kept) && KeptOk(p, chart, kept) && Rest(kept, -1) && KeptFrom(p, chart, Now(kept), 0)
  {
    kept := MakeStates(|p.toks|, |p.t.steps|);
    KeepGoal(p, chart, states, kept);
    BackThrough(p, chart, states, kept);
  }

  /** Everything a parse of the goal uses is kept. */
  lemma {:induction false} UsedKept(p: Input, chart: Chart, kc: Chart, c: nat, i: nat, j: nat, h: nat)
    requires KeptFrom(p, chart, kc, 0) && Used(p, chart, c, i, j, h)
    ensures (c, i) in kc[j]
    decreases h
  {
    if e: nat, j': nat {:trigger Joint(p, chart, c + 1, i, j, e, j')} :|
      Used(p, chart, c + 1, i, j', h - 1) && Joint(p, chart, c + 1, i, j, e, j') {
      UsedKept(p, chart, kc, c + 1, i, j', h - 1);
      assert ClosedAt(p, chart, kc, kc[j'], j') && Closed(p, chart, kc, c + 1, i, j');
    } else if c': nat, i': nat {:trigger Joint(p, chart, c', i', i, c,
      j)} :| Used(p, chart, c', i', j, h - 1) && Joint(p, chart, c', i', i, c, j) {
      UsedKept(p, chart, kc, c', i', j, h - 1);
      assert ClosedAt(p, chart, kc, kc[j], j) && Closed(p, chart, kc, c', i', j);
    }
  }

  /** What is kept is what the parses of the goal use. */
  lemma KeptExactly(p: Input, chart: Chart, kept: seq<State>, c: nat, i: nat, j: nat)
    requires KeptOk(p, chart, kept) && KeptFrom(p, chart, Now(kept), 0) && j < |kept|
    ensures (c, i) in kept[j].all <==> Useful(p, chart, c, i, j)
  {
    if Useful(p, chart, c, i, j) {
      var h: nat :| Used(p, chart, c, i, j, h);
      UsedKept(p, chart, Now(kept), c, i, j, h);
    }
  }

  /** A parse of the goal uses category s over the tokens from i up to j. */
  ghost predicate PartOfParse(p: Input, chart: Chart, nt: Symbol, i: nat, j: nat) {
    exists s: nat, e: nat {:trigger p.t.nts[s], Useful(p, chart, e, i, j)} ::
      s < |p.t.nts| && s < |p.t.enders| && p.t.nts[s] == nt && e in p.t.enders[s] && Useful(p, chart, e, i, j)
  }

  /** is_parsed: a parse of the goal uses the category there */
  method IsParsed(p: Input, ghost chart: Chart, kept: seq<State>, nt: Symbol, i: nat, j: nat) returns (r: bool)
    requires InputOk(p) && ChartOk(p, chart) && KeptOk(p, chart, kept) && KeptFrom(p, chart, Now(kept), 0)
    requires i <= j < |kept|
    ensures r <==> PartOfParse(p, chart, nt, i, j)
    ensures r ==> Yields(p.rules, p.toks, nt, i, j)
  {
    var s := Ind(nt, p.t.nts);
    if s.None? { return false; }
    assert Listed(p.t, p.rules, p.items, s.value);
    var l, m := p.t.enders[s.value], 0;
    while m < |l|
      invariant m <= |l| && forall x {:trigger l[x]} :: 0 <= x < m ==> !Useful(p, chart, l[x], i, j)
    {
      KeptExactly(p, chart, kept, l[m], i, j);
      kept[j].Present(l[m], i);
      if l[m] in kept[j].sets && i in kept[j].sets[l[m]] {
        assert l[m] in l;
        UsefulFound(p, chart, l[m], i, j);
        FoundYields(p, l[m], s.value, i, j);
        return true;
      }
      m := m + 1;
    }
    NotPart(p, chart, nt, s.value, i, j);
    r := false;
  }

  lemma UsefulFound(p: Input, chart: Chart, c: nat, i: nat, j: nat)
    requires ChartOk(p, chart) && Useful(p, chart, c, i, j)
    ensures Found(p, c, i, j)
  {
  }

  lemma NotPart(p: Input, chart: Chart, nt: Symbol, s: nat, i: nat, j: nat)
    requires InputOk(p) && s < |p.t.nts| && p.t.nts[s] == nt
    requires var l := p.t.enders[s]; forall x {:trigger l[x]} :: 0 <= x < |l| ==> !Useful(p, chart, l[x], i, j)
    ensures !PartOfParse(p, chart, nt, i, j)
  {
    var l := p.t.enders[s];
    forall s': nat, e: nat {:trigger p.t.nts[s'], Useful(p, chart, e, i, j)} | s' < |p.t.nts| && p.t.nts[s'] == nt &&
      e in p.t.enders[s'] ensures !Useful(p, chart, e, i, j) {
      SameSymbol(p.t.nts, s, s');
      var x :| 0 <= x < |l| && l[x] == e;
    }
  }

  /** The goal, over all tokens: it is part of a parse exactly when the grammar derives it. */
  lemma GoalParsed(p: Input, chart: Chart)
    requires InputOk(p) && ChartOk(p, chart)
    ensures PartOfParse(p, chart, p.t.nts[0], 0, |p.toks|) <==> Yields(p.rules, p.toks, p.t.nts[0], 0, |p.toks|)
  {
    GoalFound(p, chart);
    var n := |p.toks|;
    if PartOfParse(p, chart, p.t.nts[0], 0, n) {
      var s: nat, e: nat {:trigger p.t.nts[s], Useful(p, chart, e, 0, n)} :| s < |p.t.nts| &&
        p.t.nts[s] == p.t.nts[0] && e in p.t.enders[s] && Useful(p, chart, e, 0, n);
      SameSymbol(p.t.nts, s, 0);
    }
    if e: nat :| e in p.t.enders[0] && (e, 0) in chart[n] {
      assert Used(p, chart, e, 0, n, 1);
      assert Useful(p, chart, e, 0, n);
    }
  }
}
