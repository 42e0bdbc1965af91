/** The Earley parser of earley-boyer.js: what it finds, and that it finds everything. */
module EarleyParsing {
  import opened EarleyGrammars
  import opened EarleyTabling
  import opened EarleySets

  /** A grammar's tables with what they stand for, and the tokens. */
  datatype Input = Input(t: Tables, ghost rules: seq<Rule>, ghost items: seq<Item>, toks: Tokens)

  ghost predicate InputOk(p: Input) {
    TablesOk(p.t, p.rules, p.items) && p.t.nts != []
  }

  /** Configuration c with element i is right at j: the symbols before the dot span the tokens from i up to j. */
  ghost predicate Found(p: Input, c: nat, i: nat, j: nat) {
    c < |p.items| && match p.items[c]
    case Leaf(nt) => nt < |p.t.nts| && i < |p.toks| && j == i + 1 && p.t.nts[nt] in p.toks[i]
    case Dot(r, k) => r < |p.rules| && k <= |p.rules[r].body| && Spans(p.rules, p.toks, p.rules[r].body[..k], i, j)
  }

  /** A complete configuration is a derivation of its category. */
  lemma FoundYields(p: Input, e: nat, s: nat, i: nat, j: nat)
    requires InputOk(p) && Found(p, e, i, j) && s < |p.t.nts| && p.t.steps[e] == s - |p.t.nts|
    ensures Yields(p.rules, p.toks, p.t.nts[s], i, j)
  {
    assert StepOk(p.t, p.rules, p.items, e) && ItemOk(p.rules, p.items, |p.t.nts|, e);
    match p.items[e] {
      case Leaf(nt) => ByToken(p.rules, p.toks, p.t.nts[s], i);
      case Dot(r, k) =>
        assert p.rules[r].body[..k] == p.rules[r].body;
        ByRule(p.rules, p.toks, r, i, j);
    }
  }

  /** The dot moves over a category that is derived. */
  lemma FoundNext(p: Input, c: nat, i: nat, k: nat, j: nat)
    requires InputOk(p) && Found(p, c, i, k) && p.t.steps[c] >= 0
    requires p.t.steps[c] < |p.t.nts| ==> Yields(p.rules, p.toks, p.t.nts[p.t.steps[c]], k, j)
    ensures c + 1 < |p.items| && Found(p, c + 1, i, j)
  {
    assert StepOk(p.t, p.rules, p.items, c) && ItemOk(p.rules, p.items, |p.t.nts|, c);
    var r, m := p.items[c].r, p.items[c].k;
    Extend(p.rules, p.toks, p.rules[r].body, m, i, k, j);
  }

  /** A rule may start anywhere. */
  lemma FoundStart(p: Input, s: nat, c: nat, j: nat)
    requires InputOk(p) && s < |p.t.nts| && c in p.t.starters[s]
    ensures c < |p.items| && Found(p, c, j, j)
  {
    assert Listed(p.t, p.rules, p.items, s);
    var r := p.items[c].r;
    assert Sequence(p.rules, p.toks, p.rules[r].body[..0], j, j, 0);
  }

  /** Everything in the state is right. */
  ghost predicate SoundState(p: Input, st: State)
    reads st
  {
    forall c: nat, i: nat {:trigger (c, i) in st.all} :: (c, i) in st.all ==> Found(p, c, i, st.num)
  }

  /** The rules of the category that c waits for have been started here. */
  ghost predicate Predicted(p: Input, all: Pairs, j: nat, c: nat)
    requires c < |p.t.steps|
  {
    var s := p.t.steps[c];
    0 <= s < |p.t.starters| && forall q {:trigger q in p.t.starters[s]} :: q in p.t.starters[s] ==> (q, j) in all
  }

  /** Who waited for the category of e where e started, waits no longer. */
  ghost predicate Completed(p: Input, from: Pairs, all: Pairs, e: nat)
    requires e < |p.t.steps|
  {
    var s := p.t.steps[e] + |p.t.nts|;
    0 <= s < |p.t.predictors|
    && forall q: nat, x: nat {:trigger q in p.t.predictors[s], (q, x) in from} ::
      q in p.t.predictors[s] && (q, x) in from ==> (q + 1, x) in all
  }

  /** What was found in the states before state j. */
  ghost function Past(states: seq<State>, j: nat): (past: seq<Pairs>)
    requires j <= |states|
    reads states
    ensures |past| == j && forall k :: 0 <= k < j ==> past[k] == states[k].all
  {
    seq(j, k requires 0 <= k < j reads states => states[k].all)
  }

  /** What must have been done for an element i of c that has been dealt with in state j. */
  ghost predicate DealtWith(p: Input, past: seq<Pairs>, dealt: Pairs, all: Pairs, c: nat, i: nat) {
    c < |p.t.steps| &&
    if p.t.steps[c] >= 0 then Predicted(p, all, |past|, c)
    else i <= |past| && Completed(p, if i < |past| then past[i] else dealt, all, c)
  }

  ghost predicate WorkedBut(p: Input, past: seq<Pairs>, dealt: Pairs, all: Pairs) {
    forall c: nat, i: nat {:trigger (c, i) in dealt} :: (c, i) in dealt ==> DealtWith(p, past, dealt, all, c, i)
  }

  ghost predicate Worked(p: Input, states: seq<State>, j: nat)
    requires j < |states|
    reads states
  {
    WorkedBut(p, Past(states, j), states[j].dealt, states[j].all)
  }

  /** The states of a run: distinct, numbered, and all right. */
  ghost predicate StatesOk(p: Input, states: seq<State>)
    reads states
  {
    && (forall a, b :: 0 <= a < b < |states| ==> states[a] != states[b])
    && (forall k: nat {:trigger states[k]} :: k < |states| ==>
      states[k].Valid() && states[k].num == k && states[k].nbConfs == |p.items| && SoundState(p, states[k]))
  }

  /** The state has no work left. */
  ghost predicate Finished(st: State)
    reads st
  {
    st.head < 0
  }

  /** conf_set_adjoin*: element i for each configuration of a list */
  method AdjoinAll(p: Input, st: State, l: seq<nat>, i: nat)
    requires st.Valid() && st.nbConfs == |p.items| && SoundState(p, st) && i <= st.num
    requires forall c {:trigger c in l} :: c in l ==> c < |p.items| && Found(p, c, i, st.num)
    modifies st
    ensures st.Valid() && SoundState(p, st) && st.dealt == old(st.dealt) && old(st.all) <= st.all
    ensures forall c {:trigger c in l} :: c in l ==> (c, i) in st.all
  {
    var k := 0;
    while k < |l|
      invariant k <= |l| && st.Valid() && SoundState(p, st) && st.dealt == old(st.dealt) && old(st.all) <= st.all
      invariant forall m {:trigger l[m]} :: 0 <= m < k ==> (l[m], i) in st.all
    {
      var conf := l[k];
      assert conf in l;
      st.GetSet(conf);
      st.Present(conf, i);
      if i !in st.sets[conf] {
        st.Adjoin(conf, i);
      }
      k := k + 1;
    }
  }

  /** The rules of a category start here. */
  method Predict(p: Input, st: State, s: nat)
    requires InputOk(p) && st.Valid() && st.nbConfs == |p.items| && SoundState(p, st) && s < |p.t.nts|
    modifies st
    ensures st.Valid() && SoundState(p, st) && st.dealt == old(st.dealt) && old(st.all) <= st.all
    ensures forall q {:trigger q in p.t.starters[s]} :: q in p.t.starters[s] ==> (q, st.num) in st.all
  {
    forall q | q in p.t.starters[s] ensures q < |p.items| &&
      Found(p, q, st.num, st.num) { FoundStart(p, s, q, st.num); }
    AdjoinAll(p, st, p.t.starters[s], st.num);
  }

  /** The elements of a vector join those of configuration next: conf_set_union on the vector of next. */
  method UnionAt(p: Input, st: State, next: nat, other: Cells, ghost list: seq<nat>)
    requires st.Valid() && st.nbConfs == |p.items| && SoundState(p, st) && next < |p.items|
    requires DONE_HEAD in other && Chain(other, other[DONE_HEAD], list)
    requires forall x {:trigger x in list} :: x in list ==> x <= st.num && Found(p, next, x, st.num)
    modifies st
    ensures st.Valid() && SoundState(p, st) && st.dealt == old(st.dealt)
    ensures old(st.all) <= st.all && Row(next, list) <= st.all
    ensures SameLinks(old(st.sets), st.sets, st.dealt)
    ensures forall d: nat {:trigger d in st.sets} :: d in old(st.sets) && d != next ==>
      d in st.sets && st.sets[d] == old(st.sets[d])
  {
    st.GetSet(next);
    ghost var sets := st.sets;
    st.Union(next, other, list);
    LinksAgain(old(st.sets), sets, st.sets, st.dealt);
  }

  lemma LinksAgain(a: map<nat, Cells>, b: map<nat, Cells>, c: map<nat, Cells>, dealt: Pairs)
    requires SameLinks(a, b, dealt) && SameLinks(b, c, dealt)
    ensures SameLinks(a, c, dealt)
  {
  }

  /** Categories that span nothing here: c need not wait for them. */
  method Nulls(p: Input, st: State, c: nat, ghost elems: seq<nat>)
    requires InputOk(p) && st.Valid() && st.nbConfs == |p.items| && SoundState(p, st) && c < |p.items| &&
      0 <= p.t.steps[c] < |p.t.nts|
    requires c in st.sets && DONE_HEAD in st.sets[c] && Chain(st.sets[c], st.sets[c][DONE_HEAD], elems)
    requires forall x: nat {:trigger x in elems} :: x in elems <==> (c, x) in st.dealt
    requires forall x :: x in elems ==> x <= st.num
    modifies st
    ensures st.Valid() && SoundState(p, st) && st.dealt == old(st.dealt) && old(st.all) <= st.all
    ensures forall e: nat {:trigger e in p.t.enders[p.t.steps[c]]} ::
      e in p.t.enders[p.t.steps[c]] && (e, st.num) in old(st.all) ==> Row(c + 1, elems) <= st.all
  {
    var l, k := p.t.enders[p.t.steps[c]], 0;
    ghost var cells := st.sets[c];
    while k < |l|
      invariant k <= |l| && st.Valid() && SoundState(p, st) && st.dealt == old(st.dealt) && old(st.all) <= st.all
      invariant forall m {:trigger l[m]} :: 0 <= m < k && (l[m], st.num) in old(st.all) ==> Row(c + 1, elems) <= st.all
      invariant c in st.sets && st.sets[c] == cells
    {
      var ender := l[k];
      st.Present(ender, st.num);
      if ender in st.sets && st.num in st.sets[ender] {
        assert Listed(p.t, p.rules, p.items, p.t.steps[c]);
        assert ender in l;
        FoundYields(p, ender, p.t.steps[c], st.num, st.num);
        Move(p, st, c, st.num, st, elems);
        UnionAt(p, st, c + 1, st.sets[c], elems);
      }
      k := k + 1;
    }
  }

  /** The dot may move over what has been derived, for all elements of c in the state where that starts. */
  lemma Move(p: Input, from: State, c: nat, k: nat, st: State, elems: seq<nat>)
    requires InputOk(p) && from.Valid() && SoundState(p, from) && from.num == k && c < |p.items| &&
      0 <= p.t.steps[c] < |p.t.nts|
    requires Yields(p.rules, p.toks, p.t.nts[p.t.steps[c]], k, st.num)
    requires forall x: nat {:trigger x in elems} :: x in elems ==> (c, x) in from.dealt
    ensures c + 1 < |p.items|
    ensures forall x: nat {:trigger x in elems} :: x in elems ==> Found(p, c + 1, x, st.num)
  {
    assert StepOk(p.t, p.rules, p.items, c) && ItemOk(p.rules, p.items, |p.t.nts|, c);
    forall x: nat | x in elems ensures Found(p, c + 1, x, st.num) {
      from.InRange(c, x);
      FoundNext(p, c, x, k, st.num);
    }
  }

  /** Everyone who waits for the category of c where one of its new elements starts, waits no longer. */
  method Complete(p: Input, states: seq<State>, j: nat, c: nat, first: int, ghost elems: seq<nat>)
    requires InputOk(p) && StatesOk(p, states) && j < |states| && c < |p.items| && -|p.t.nts| <= p.t.steps[c] < 0
    requires forall k: nat {:trigger Finished(states[k])} :: k < j ==> Finished(states[k])
    requires c in states[j].sets && Chain(states[j].sets[c], first, elems)
    requires forall x :: x in elems ==> x <= j && (c, x) in states[j].dealt
    modifies states[j]
    ensures StatesOk(p, states) && states[j].dealt == old(states[j].dealt) && old(states[j].all) <= states[j].all
    ensures forall i {:trigger i in elems} :: i in elems ==>
      Completed(p, if i < j then states[i].all else states[j].dealt, states[j].all, c)
  {
    var s := p.t.steps[c] + |p.t.nts|;
    var l, k := p.t.predictors[s], 0;
    var st := states[j];
    while k < |l|
      invariant k <= |l| && StatesOk(p, states) && st.dealt == old(st.dealt) && old(st.all) <= st.all
      invariant c in st.sets && Chain(st.sets[c], first, elems)
      invariant forall m, i {:trigger l[m], i in elems} :: 0 <= m < k && i in elems ==>
        Passed(Origin(states, j, i), st.all, l[m])
    {
      PassOn(p, states, j, c, s, l[k], first, elems);
      k := k + 1;
    }
    forall i | i in elems ensures Completed(p, if i < j then states[i].all else states[j].dealt, states[j].all, c) {
      forall q: nat, x: nat | q in l && (q, x) in (if i < j then states[i].all else states[j].dealt)
        ensures (q + 1, x) in st.all {
        var m :| 0 <= m < |l| && l[m] == q;
        assert Passed(Origin(states, j, i), st.all, l[m]);
      }
    }
  }

  /** What waited as configuration q is there as q + 1. */
  ghost predicate Passed(from: Pairs, all: Pairs, q: nat) {
    forall x: nat {:trigger (q, x) in from} :: (q, x) in from ==> (q + 1, x) in all
  }

  /** Where an element i of state j started: what was found there, or what has been dealt with here. */
  ghost function Origin(states: seq<State>, j: nat, i: nat): Pairs
    requires j < |states| && i <= j
    reads states
  {
    if i < j then states[i].all else states[j].dealt
  }

  /** The step for one configuration that waits, over all new elements of c. */
  method PassOn(p: Input, states: seq<State>, j: nat, c: nat, s: nat, pred: nat, first: int, ghost elems: seq<nat>)
    requires InputOk(p) && StatesOk(p, states) && j < |states| && c < |p.items| && s < |p.t.nts| &&
      p.t.steps[c] == s - |p.t.nts|
    requires forall k: nat {:trigger Finished(states[k])} :: k < j ==> Finished(states[k])
    requires pred in p.t.predictors[s] && c in states[j].sets && Chain(states[j].sets[c], first, elems)
    requires forall x :: x in elems ==> x <= j && (c, x) in states[j].dealt
    modifies states[j]
    ensures StatesOk(p, states) && states[j].dealt == old(states[j].dealt) && old(states[j].all) <= states[j].all
    ensures c in states[j].sets && Chain(states[j].sets[c], first, elems)
    ensures forall i {:trigger i in elems} :: i in elems ==> Passed(Origin(states, j, i), states[j].all, pred)
  {
    var st, i := states[j], first;
    ghost var k := 0;
    while i >= 0
      invariant StatesOk(p, states) && st.dealt == old(st.dealt) && old(st.all) <= st.all
      invariant c in st.sets && Chain(st.sets[c], first, elems) && k <= |elems| && Chain(st.sets[c], i, elems[k..])
      invariant forall m {:trigger elems[m]} :: 0 <= m < k ==>
        elems[m] <= j && Passed(Origin(states, j, elems[m]), st.all, pred)
      decreases |elems| - k
    {
      assert elems[k] in elems;
      PassOne(p, states, j, c, s, pred, i, first, elems, k);
      assert elems[k..][1..] == elems[k + 1..];
      i := st.sets[c][i];
      k := k + 1;
    }
  }

  /** The step for one configuration that waits and one element i of c. */
  method PassOne(p: Input, states: seq<State>, j: nat, c: nat, s: nat, pred: nat, i: nat, first: int,
      ghost elems: seq<nat>, ghost k: nat)
    requires InputOk(p) && StatesOk(p, states) && j < |states| && c < |p.items| && s < |p.t.nts| &&
      p.t.steps[c] == s - |p.t.nts|
    requires forall k: nat {:trigger Finished(states[k])} :: k < j ==> Finished(states[k])
    requires pred in p.t.predictors[s] && c in states[j].sets && Chain(states[j].sets[c], first, elems) &&
      i in elems && i <= j
    requires k <= |elems| && Chain(states[j].sets[c], i, elems[k..])
    requires forall x :: x in elems ==> (c, x) in states[j].dealt
    modifies states[j]
    ensures StatesOk(p, states) && states[j].dealt == old(states[j].dealt) && old(states[j].all) <= states[j].all
    ensures c in states[j].sets && Chain(states[j].sets[c], first, elems) && Chain(states[j].sets[c], i, elems[k..])
    ensures Passed(Origin(states, j, i), states[j].all, pred)
  {
    var st := states[j];
    ghost var waiting := if i < j then states[i].all else st.dealt;
    WaitingDealt(p, states, j, i, pred);
    st.LinksThere();
    if pred in states[i].sets {
      ghost var list := states[i].ListOf(pred);
      CompleteHere(p, st, c, s, i, j);
      assert Listed(p.t, p.rules, p.items, s);
      Move(p, states[i], pred, i, st, list);
      var next := pred + 1;
      ghost var sets := st.sets;
      UnionAt(p, st, next, states[i].sets[pred], list);
      KeepChains(sets, st.sets, st.dealt, c, i, first, elems, k);
      forall x: nat | (pred, x) in waiting ensures (pred + 1, x) in st.all {
        assert x in list;
        assert (next, x) in Row(next, list);
      }
    } else {
      states[i].NoneOf(pred);
    }
  }

  /** In a state without work, everything has been dealt with. */
  lemma WaitingDealt(p: Input, states: seq<State>, j: nat, i: nat, q: nat)
    requires StatesOk(p, states) && j < |states| && i <= j
    requires forall k: nat {:trigger Finished(states[k])} :: k < j ==> Finished(states[k])
    ensures forall x: nat {:trigger (q, x) in states[i].dealt} ::
      (q, x) in (if i < j then states[i].all else states[j].dealt) ==> (q, x) in states[i].dealt
    ensures i < j ==> forall x: nat {:trigger (q, x) in states[i].all} :: (q, x) in states[i].all ==>
      (q, x) in states[i].dealt
  {
    if i < j {
      assert Finished(states[i]);
      forall x: nat | (q, x) in states[i].all ensures (q, x) in states[i].dealt {
        states[i].InRange(q, x);
      }
    }
  }

  lemma CompleteHere(p: Input, st: State, c: nat, s: nat, i: nat, j: nat)
    requires InputOk(p) && st.Valid() && SoundState(p, st) && st.num == j && c < |p.items| && s < |p.t.nts| &&
      p.t.steps[c] == s - |p.t.nts|
    requires (c, i) in st.dealt
    ensures Yields(p.rules, p.toks, p.t.nts[s], i, j)
  {
    st.InRange(c, i);
    FoundYields(p, c, s, i, j);
  }

  lemma KeepChains(sets: map<nat, Cells>, sets': map<nat, Cells>, dealt: Pairs, c: nat, i: nat, first: int,
      elems: seq<nat>, k: nat)
    requires SameLinks(sets, sets', dealt) && c in sets && Chain(sets[c], first, elems) && k <= |elems| &&
      Chain(sets[c], i, elems[k..])
    requires elems != [] && forall x :: x in elems ==> (c, x) in dealt
    ensures c in sets' && Chain(sets'[c], first, elems) && Chain(sets'[c], i, elems[k..])
  {
    assert (c, elems[0]) in dealt;
    SameChain(sets, sets', dealt, c, first, elems);
    forall x | x in elems[k..] ensures x in elems { }
    SameChain(sets, sets', dealt, c, i, elems[k..]);
  }

  /** All pairs there could be in a state. */
  ghost function Possible(nbConfs: nat, num: nat): Pairs {
    set c: nat, i: nat | 0 <= c < nbConfs && 0 <= i <= num :: (c, i)
  }

  lemma DealtPossible(st: State)
    requires st.Valid()
    ensures st.dealt <= Possible(st.nbConfs, st.num)
  {
    forall q | q in st.dealt ensures q in Possible(st.nbConfs, st.num) {
      st.InRange(q.0, q.1);
    }
  }

  lemma {:induction false} Fewer(a: Pairs, b: Pairs)
    requires a <= b
    ensures |a| <= |b| && (a != b ==> |a| < |b|)
  {
    assert b == a + (b - a);
    if a != b { assert b - a != {}; }
  }

  /** After a configuration that waits has been dealt with. */
  lemma WorkedWaiting(p: Input, past: seq<Pairs>, before: Pairs, dealt: Pairs, all0: Pairs, all: Pairs, c: nat,
      elems: seq<nat>, list: seq<nat>, seen: Pairs)
    requires InputOk(p) && WorkedBut(p, past, before, all0) && all0 <= all && c < |p.items|
    requires dealt == before + Row(c, elems) && 0 <= p.t.steps[c] < |p.t.nts| && Predicted(p, all, |past|, c)
    requires forall x: nat {:trigger x in list} :: x in list <==> (c, x) in dealt
    requires before <= seen
    requires forall e: nat {:trigger e in p.t.enders[p.t.steps[c]]} ::
      e in p.t.enders[p.t.steps[c]] && (e, |past|) in seen ==> Row(c + 1, list) <= all
    ensures WorkedBut(p, past, dealt, all)
  {
    forall d: nat, i: nat | (d, i) in dealt ensures DealtWith(p, past, dealt, all, d, i) {
      if (d, i) in before {
        assert DealtWith(p, past, before, all0, d, i);
        if p.t.steps[d] < 0 && i == |past| {
          var s := p.t.steps[d] + |p.t.nts|;
          assert Listed(p.t, p.rules, p.items, s);
          forall q: nat, x: nat | q in p.t.predictors[s] && (q, x) in dealt ensures (q + 1, x) in all {
            if q == c {
              assert d in p.t.enders[s] && (d, i) in seen;
              assert x in list && (c + 1, x) in Row(c + 1, list);
            }
          }
        }
      }
    }
  }

  /** After a configuration that is complete has been dealt with. */
  lemma WorkedComplete(p: Input, past: seq<Pairs>, before: Pairs, dealt: Pairs, all0: Pairs, all: Pairs, c: nat,
      elems: seq<nat>)
    requires InputOk(p) && WorkedBut(p, past, before, all0) && all0 <= all && c < |p.items|
    requires dealt == before + Row(c, elems) && p.t.steps[c] < 0 && forall x :: x in elems ==> x <= |past|
    requires forall i {:trigger i in elems} :: i in elems ==>
      Completed(p, if i < |past| then past[i] else dealt, all, c)
    ensures WorkedBut(p, past, dealt, all)
  {
    forall d: nat, i: nat | (d, i) in dealt ensures DealtWith(p, past, dealt, all, d, i) {
      if (d, i) in before {
        assert DealtWith(p, past, before, all0, d, i);
        if p.t.steps[d] < 0 && i == |past| {
          assert Listed(p.t, p.rules, p.items, p.t.steps[d] + |p.t.nts|);
          forall q: nat, x: nat | q in p.t.predictors[p.t.steps[d] + |p.t.nts|] && (q, x) in dealt
            ensures (q + 1, x) in all
          {
            assert q != c;
          }
        }
      }
    }
  }

  /** forw: the state is worked through until there is no more to find; the work ends, for each element is dealt with
      once */
  method Forw(p: Input, states: seq<State>, j: nat)
    requires InputOk(p) && StatesOk(p, states) && j < |states| && states[j].dealt == {}
    requires forall k: nat {:trigger Finished(states[k])} :: k < j ==> Finished(states[k])
    modifies states[j]
    ensures StatesOk(p, states) && Finished(states[j]) && Worked(p, states, j) && old(states[j].all) <= states[j].all
  {
    var st := states[j];
    DealtPossible(st);
    while st.head >= 0
      invariant StatesOk(p, states) && Worked(p, states, j) && old(st.all) <= st.all
      invariant st.dealt <= Possible(|p.items|, j)
      decreases |Possible(|p.items|, j)| - |st.dealt|
    {
      ghost var before := st.dealt;
      ForwOne(p, states, j);
      DealtPossible(st);
      Fewer(before, st.dealt);
      Fewer(st.dealt, Possible(|p.items|, j));
    }
  }

  /** One configuration of the work list. */
  method ForwOne(p: Input, states: seq<State>, j: nat)
    requires InputOk(p) && StatesOk(p, states) && j < |states| && states[j].head >= 0 && Worked(p, states, j)
    requires forall k: nat {:trigger Finished(states[k])} :: k < j ==> Finished(states[k])
    modifies states[j]
    ensures StatesOk(p, states) && Worked(p, states, j) && old(states[j].all) <= states[j].all &&
      old(states[j].dealt) < states[j].dealt
  {
    var st := states[j];
    ghost var before, all0, past := st.dealt, st.all, Past(states, j);
    var c, first;
    ghost var elems;
    c, first, elems := st.Pop();
    assert (c, elems[0]) in st.dealt && (c, elems[0]) in Row(c, elems);
    var step := p.t.steps[c];
    assert StepOk(p.t, p.rules, p.items, c) && ItemOk(p.rules, p.items, |p.t.nts|, c);
    if step >= 0 {
      Predict(p, st, step);
      st.InRange(c, elems[0]);
      st.Present(c, elems[0]);
      ghost var list := st.ListOf(c);
      ghost var seen := st.all;
      forall q | q in before ensures q in seen { st.InRange(q.0, q.1); }
      Nulls(p, st, c, list);
      assert Past(states, j) == past;
      WorkedWaiting(p, past, before, st.dealt, all0, st.all, c, elems, list, seen);
    } else {
      Complete(p, states, j, c, first, elems);
      assert Past(states, j) == past;
      WorkedComplete(p, past, before, st.dealt, all0, st.all, c, elems);
    }
  }

  /** What was found in each state, when all work is done. */
  type Chart = seq<Pairs>

  ghost predicate Scanned(p: Input, chart: Chart, j: nat) {
    0 < j < |chart| && j <= |p.toks| &&
    forall n: nat {:trigger p.t.nts[n]} :: n < |p.t.nts| && p.t.nts[n] in p.toks[j - 1] ==> (n, j - 1) in chart[j]
  }

  /** Each state of the chart holds what the ones before it call for, and nothing wrong. */
  ghost predicate ChartSoFar(p: Input, chart: Chart) {
    && (forall j: nat {:trigger WorkedBut(p, chart[..j], chart[j], chart[j])} :: j < |chart| ==> WorkedBut(p,
      chart[..j], chart[j], chart[j]))
    && (forall j: nat {:trigger Scanned(p, chart, j)} :: 0 < j < |chart| ==> Scanned(p, chart, j))
    && (chart != [] && p.t.starters != [] ==>
      forall q: nat {:trigger q in p.t.starters[0]} :: q in p.t.starters[0] ==> (q, 0) in chart[0])
    && (forall j: nat, c: nat, i: nat {:trigger (c, i) in chart[j]} :: j < |chart| && (c, i) in chart[j] ==> Found(p,
      c, i, j))
  }

  ghost predicate ChartOk(p: Input, chart: Chart) {
    |chart| == |p.toks| + 1 && ChartSoFar(p, chart)
  }

  lemma CompletedOne(p: Input, from: Pairs, all: Pairs, e: nat, c: nat, i: nat)
    requires e < |p.t.steps| && Completed(p, from, all, e) && (c, i) in from
    requires c in p.t.predictors[p.t.steps[e] + |p.t.nts|]
    ensures (c + 1, i) in all
  {
  }

  /** An element of a complete configuration lets those that wait for its category go on. */
  lemma GoesOn(p: Input, chart: Chart, c: nat, i: nat, k: nat, e: nat, j: nat)
    requires InputOk(p) && ChartOk(p, chart) && k <= j < |chart| && (c, i) in chart[k] && (e, k) in chart[j]
    requires c < |p.items| && e < |p.items| && p.t.steps[c] >= 0 && p.t.steps[e] == p.t.steps[c] - |p.t.nts|
    ensures (c + 1, i) in chart[j]
  {
    assert StepOk(p.t, p.rules, p.items, c) && ItemOk(p.rules, p.items, |p.t.nts|, c);
    assert WorkedBut(p, chart[..j], chart[j], chart[j]);
    assert DealtWith(p, chart[..j], chart[j], chart[j], e, k);
    assert Listed(p.t, p.rules, p.items, p.t.steps[c]) && c in p.t.predictors[p.t.steps[c]];
    assert k < j ==> chart[..j][k] == chart[k];
    CompletedOne(p, chart[k], chart[j], e, c, i);
  }

  /** A configuration that waits for a category goes on wherever the category is derived. */
  lemma {:induction false} Advance(p: Input, chart: Chart, c: nat, i: nat, k: nat, j: nat, h: nat)
    requires InputOk(p) && ChartOk(p, chart) && k <= j < |chart| && (c, i) in chart[k]
    requires c < |p.items| && 0 <= p.t.steps[c] < |p.t.nts| && Derives(p.rules, p.toks, p.t.nts[p.t.steps[c]], k, j, h)
    ensures (c + 1, i) in chart[j]
    decreases h, 0
  {
    var s := p.t.steps[c];
    var nt := p.t.nts[s];
    if k < |p.toks| && j == k + 1 && nt in p.toks[k] {
      assert Scanned(p, chart, j);
      assert p.items[s] == Leaf(s) && StepOk(p.t, p.rules, p.items, s);
      GoesOn(p, chart, c, i, k, s, j);
    } else {
      var r :| 0 <= r < |p.rules| && p.rules[r].head == nt && Sequence(p.rules, p.toks, p.rules[r].body, k, j, h - 1);
      var q := StartOf(p, chart, c, i, k, r);
      assert p.rules[r].body[..|p.rules[r].body|] == p.rules[r].body;
      AdvanceAll(p, chart, r, q, |p.rules[r].body|, k, j, h - 1);
      var e := q + |p.rules[r].body|;
      EndStep(p, e, r, s);
      GoesOn(p, chart, c, i, k, e, j);
    }
  }

  /** The rules of the category that c waits for are in the state. */
  lemma StartOf(p: Input, chart: Chart, c: nat, i: nat, k: nat, r: nat) returns (q: nat)
    requires InputOk(p) && ChartOk(p, chart) && k < |chart| && (c, i) in chart[k] && c < |p.items| &&
      0 <= p.t.steps[c] < |p.t.nts|
    requires r < |p.rules| && p.rules[r].head == p.t.nts[p.t.steps[c]]
    ensures q < |p.items| && p.items[q] == Dot(r, 0) && (q, k) in chart[k]
  {
    assert p.rules[r] == p.rules[r];
    q :| q < |p.items| && p.items[q] == Dot(r, 0);
    assert WorkedBut(p, chart[..k], chart[k], chart[k]);
    assert DealtWith(p, chart[..k], chart[k], chart[k], c, i);
    assert Listed(p.t, p.rules, p.items, p.t.steps[c]) && Starts(p.t, p.rules, p.items, p.t.steps[c], q);
    assert q in p.t.starters[p.t.steps[c]];
  }

  lemma SameSymbol(nts: seq<Symbol>, a: nat, b: nat)
    requires (forall x, y :: 0 <= x < y < |nts| ==> nts[x] != nts[y]) && a < |nts| && b < |nts| && nts[a] == nts[b]
    ensures a == b
  {
  }

  /** The last configuration of a rule completes its category. */
  lemma EndStep(p: Input, e: nat, r: nat, s: nat)
    requires InputOk(p) && e < |p.items| && r < |p.rules| && p.items[e] == Dot(r, |p.rules[r].body|) &&
      s < |p.t.nts| && p.t.nts[s] == p.rules[r].head
    ensures p.t.steps[e] == s - |p.t.nts|
  {
    assert StepOk(p.t, p.rules, p.items, e);
    var h := p.t.steps[e] + |p.t.nts|;
    SameSymbol(p.t.nts, h, s);
  }

  /** The dot moves over m symbols of a rule, wherever they span the tokens. */
  lemma {:induction false} AdvanceAll(p: Input, chart: Chart, r: nat, q: nat, m: nat, k: nat, j: nat, h: nat)
    requires InputOk(p) && ChartOk(p, chart) && k < |chart| && j < |chart| && r < |p.rules| && m <= |p.rules[r].body|
    requires q < |p.items| && p.items[q] == Dot(r, 0) && (q, k) in chart[k]
    requires Sequence(p.rules, p.toks, p.rules[r].body[..m], k, j, h)
    ensures q + m < |p.items| && p.items[q + m] == Dot(r, m) && (q + m, k) in chart[j]
    decreases h, m + 1
  {
    if m > 0 {
      var body := p.rules[r].body[..m];
      var x: nat :| Split(p.rules, p.toks, body, k, x, j, h);
      assert body[..m - 1] == p.rules[r].body[..m - 1];
      SequenceForward(p.rules, p.toks, body[..m - 1], k, x, h);
      DerivesForward(p.rules, p.toks, body[m - 1], x, j, h);
      AdvanceAll(p, chart, r, q, m - 1, k, x, h);
      var c := q + m - 1;
      assert ItemOk(p.rules, p.items, |p.t.nts|, c) && StepOk(p.t, p.rules, p.items, c);
      Advance(p, chart, c, k, x, j, h);
    }
  }

  /** The goal is found over the whole input exactly when the grammar derives it. */
  lemma GoalFound(p: Input, chart: Chart)
    requires InputOk(p) && ChartOk(p, chart)
    ensures p.t.enders != []
    ensures (exists e: nat {:trigger e in p.t.enders[0]} :: e in p.t.enders[0] && (e, 0) in chart[|p.toks|])
      <==> Yields(p.rules, p.toks, p.t.nts[0], 0, |p.toks|)
  {
    var n := |p.toks|;
    assert Listed(p.t, p.rules, p.items, 0);
    if e: nat :| e in p.t.enders[0] && (e, 0) in chart[n] {
      FoundYields(p, e, 0, 0, n);
    }
    if Yields(p.rules, p.toks, p.t.nts[0], 0, n) {
      var h: nat :| Derives(p.rules, p.toks, p.t.nts[0], 0, n, h);
      if 0 < |p.toks| && n == 1 && p.t.nts[0] in p.toks[0] {
        assert Scanned(p, chart, 1);
        assert p.items[0] == Leaf(0) && StepOk(p.t, p.rules, p.items, 0);
        assert 0 in p.t.enders[0];
      } else {
        var r :| 0 <= r < |p.rules| && p.rules[r].head == p.t.nts[0] &&
          Sequence(p.rules, p.toks, p.rules[r].body, 0, n, h - 1);
        var q: nat :| q < |p.items| && p.items[q] == Dot(r, 0);
        assert Starts(p.t, p.rules, p.items, 0, q);
        assert q in p.t.starters[0];
        assert p.rules[r].body[..|p.rules[r].body|] == p.rules[r].body;
        AdvanceAll(p, chart, r, q, |p.rules[r].body|, 0, n, h - 1);
        EndStep(p, q + |p.rules[r].body|, r, 0);
        assert q + |p.rules[r].body| in p.t.enders[0];
      }
    }
  }
}
