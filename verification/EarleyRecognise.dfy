/** The forward pass of the parser over all tokens: the chart it leaves tells what the grammar derives. */
module EarleyRecognising {
  import opened EarleyGrammars
  import opened EarleyTabling
  import opened EarleySets
  import opened EarleyParsing

  /** ind: the number of a category, sought from the end */
  method Ind(nt: Symbol, nts: seq<Symbol>) returns (r: Option<nat>)
    ensures r.Some? ==> r.value < |nts| && nts[r.value] == nt
    ensures r.None? ==> nt !in nts
  {
    var i := |nts| - 1;
    while i >= 0
      invariant -1 <= i < |nts| && forall k :: i < k < |nts| ==> nts[k] != nt
    {
      if nts[i] == nt { return Some(i); }
      i := i - 1;
    }
    r := None;
  }

  /** The numbers of a token's categories; those the grammar does not mention are dropped. */
  method Numbers(nts: seq<Symbol>, cats: seq<Symbol>) returns (l: seq<nat>)
    requires forall a, b :: 0 <= a < b < |nts| ==> nts[a] != nts[b]
    ensures forall n: nat {:trigger n in l} :: n in l <==> n < |nts| && nts[n] in cats
  {
    var k := 0;
    l := [];
    while k < |cats|
      invariant k <= |cats|
      invariant forall n: nat {:trigger n in l} :: n in l <==> n < |nts| && nts[n] in cats[..k]
    {
      var i := Ind(cats[k], nts);
      assert cats[..k + 1] == cats[..k] + [cats[k]];
      if i.Some? {
        forall n: nat ensures n in l + [i.value] <==> n < |nts| && nts[n] in cats[..k + 1] {
          if n < |nts| && nts[n] == cats[k] { SameSymbol(nts, n, i.value); }
        }
        l := l + [i.value];
      }
      k := k + 1;
    }
    assert cats[..k] == cats;
  }

  ghost predicate Made(states: seq<State>, from: nat, nbConfs: nat)
    reads states
  {
    && (forall a, b :: 0 <= a < b < |states| ==> states[a] != states[b])
    && forall k: nat {:trigger states[k]} :: k < |states| ==>
      states[k].Valid() && states[k].num == from + k && states[k].nbConfs == nbConfs && states[k].head == -1
      && states[k].all == {} && states[k].dealt == {}
  }

  /** make_states: one empty state before each token, and one behind the last */
  method MakeStates(nbToks: nat, nbConfs: nat) returns (states: seq<State>)
    ensures |states| == nbToks + 1 && Made(states, 0, nbConfs) && fresh(states)
  {
    var i := nbToks;
    states := [];
    while i >= 0
      invariant -1 <= i <= nbToks && |states| == nbToks - i && fresh(states) && Made(states, i + 1, nbConfs)
    {
      var st := new State(i, nbConfs);
      assert st !in states;
      states := [st] + states;
      i := i - 1;
    }
  }

  /** The states before j are finished, and the chart holds what is in them; the others have not been worked on. */
  ghost predicate Forwarded(p: Input, states: seq<State>, j: nat, chart: Chart)
    reads states
  {
    && StatesOk(p, states) && |chart| == j <= |states|
    && (forall k: nat {:trigger states[k]} :: k < j ==> Finished(states[k]) && states[k].all == chart[k])
    && (forall k: nat {:trigger states[k]} :: j <= k < |states| ==> states[k].dealt == {})
  }

  /** A finished state behind the chart. */
  lemma ChartGrows(p: Input, chart: Chart, x: Pairs)
    requires InputOk(p) && ChartSoFar(p, chart) && |chart| <= |p.toks| && WorkedBut(p, chart, x, x)
    requires chart == [] ==> forall q: nat {:trigger q in p.t.starters[0]} :: q in p.t.starters[0] ==> (q, 0) in x
    requires chart != [] ==> forall n: nat {:trigger p.t.nts[n]} ::
      n < |p.t.nts| && p.t.nts[n] in p.toks[|chart| - 1] ==> (n, |chart| - 1) in x
    requires forall c: nat, i: nat {:trigger (c, i) in x} :: (c, i) in x ==> Found(p, c, i, |chart|)
    ensures ChartSoFar(p, chart + [x])
  {
    var longer := chart + [x];
    forall j: nat | j < |longer| ensures WorkedBut(p, longer[..j], longer[j], longer[j]) {
      if j < |chart| {
        assert longer[..j] == chart[..j];
        assert WorkedBut(p, chart[..j], chart[j], chart[j]);
      } else {
        assert longer[..j] == chart;
      }
    }
    forall j: nat | 0 < j < |longer| ensures Scanned(p, longer, j) {
      if j < |chart| { assert Scanned(p, chart, j); }
    }
  }

  /** forw for state j, which holds what the state starts with. */
  method ForwNext(p: Input, states: seq<State>, j: nat, ghost chart: Chart) returns (ghost longer: Chart)
    requires InputOk(p) && Forwarded(p, states, j, chart) && j < |states| == |p.toks| + 1 && ChartSoFar(p, chart)
    requires chart == [] ==> forall q: nat {:trigger q in p.t.starters[0]} :: q in p.t.starters[0] ==>
      (q, 0) in states[j].all
    requires chart != [] ==> forall n: nat {:trigger p.t.nts[n]} ::
      n < |p.t.nts| && p.t.nts[n] in p.toks[|chart| - 1] ==> (n, |chart| - 1) in states[j].all
    modifies states[j]
    ensures Forwarded(p, states, j + 1, longer) && ChartSoFar(p, longer)
  {
    assert forall k: nat {:trigger Finished(states[k])} :: k < j ==> Finished(states[k]);
    Forw(p, states, j);
    var st := states[j];
    AllDealt(st);
    assert Past(states, j) == chart;
    ChartGrows(p, chart, st.all);
    longer := chart + [st.all];
  }

  lemma AllDealt(st: State)
    requires st.Valid() && Finished(st)
    ensures st.dealt == st.all
  {
    forall q ensures q in st.dealt <==> q in st.all { st.InRange(q.0, q.1); }
  }

  /** The categories of the token before the state are in it. */
  method Scan(p: Input, states: seq<State>, j: nat, ghost chart: Chart)
    requires InputOk(p) && Forwarded(p, states, j, chart) && 0 < j < |states| == |p.toks| + 1
    modifies states[j]
    ensures Forwarded(p, states, j, chart)
    ensures forall n: nat {:trigger p.t.nts[n]} :: n < |p.t.nts| && p.t.nts[n] in p.toks[j - 1] ==>
      (n, j - 1) in states[j].all
  {
    var l := Numbers(p.t.nts, p.toks[j - 1]);
    var st := states[j];
    forall c | c in l ensures c < |p.items| && Found(p, c, j - 1, j) { assert p.items[c] == Leaf(c); }
    AdjoinAll(p, st, l, j - 1);
    forall n: nat | n < |p.t.nts| && p.t.nts[n] in p.toks[j - 1] ensures (n, j - 1) in st.all { assert n in l; }
  }

  /** The rules of the goal start in the first state. */
  method Seed(p: Input, states: seq<State>)
    requires InputOk(p) && Forwarded(p, states, 0, []) && states != []
    modifies states[0]
    ensures Forwarded(p, states, 0, [])
    ensures forall q: nat {:trigger q in p.t.starters[0]} :: q in p.t.starters[0] ==> (q, 0) in states[0].all
  {
    forall q | q in p.t.starters[0] ensures q < |p.items| && Found(p, q, 0, 0) { FoundStart(p, 0, q, 0); }
    AdjoinAll(p, states[0], p.t.starters[0], 0);
  }

  /** The forward pass. */
  method Forward(p: Input) returns (states: seq<State>, ghost chart: Chart)
    requires InputOk(p)
    ensures fresh(states) && |states| == |p.toks| + 1 && Forwarded(p, states, |states|, chart) && ChartOk(p, chart)
  {
    states := MakeStates(|p.toks|, |p.t.steps|);
    Seed(p, states);
    chart := ForwNext(p, states, 0, []);
    var i := 0;
    while i < |p.toks|
      invariant i <= |p.toks| && Forwarded(p, states, i + 1, chart) && ChartSoFar(p, chart)
    {
      Scan(p, states, i + 1, chart);
      chart := ForwNext(p, states, i + 1, chart);
      i := i + 1;
    }
  }
}
