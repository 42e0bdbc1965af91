/** The methods that list and count the parse trees, over the states that the backward pass leaves. */
module EarleyListing {
  import opened EarleyGrammars
  import opened EarleyTabling
  import opened EarleySets
  import opened EarleyParsing
  import opened EarleyRecognising
  import opened EarleyParses
  import opened EarleyForests

  /** The links of a vector lead through the list, which has all its elements. */
  ghost predicate Vector(s: Cells, list: seq<nat>) {
    DONE_HEAD in s && Chain(s, s[DONE_HEAD], list) && forall i: nat {:trigger i in s} :: i in s <==> i in list
  }

  /** The states hold the elements. */
  ghost predicate Reads(kept: seq<State>, v: Elements)
    reads kept
  {
    && |v| == |kept|
    && forall j: nat, c: nat {:trigger c in v[j]} {:trigger c in kept[j].sets} :: j < |v| ==>
      (c in v[j] <==> c in kept[j].sets) && (c in v[j] ==> Vector(kept[j].sets[c], v[j][c]))
  }

  ghost function ListsOf(kept: seq<State>): (v: Elements)
    reads kept
    ensures |v| == |kept| && forall j {:trigger v[j]} :: 0 <= j < |v| ==> v[j] == kept[j].g.done
  {
    seq(|kept|, j requires 0 <= j < |kept| reads kept => kept[j].g.done)
  }

  /** A state without work: its lists have all its elements. */
  lemma StateLists(st: State, c: nat)
    requires st.Valid() && Finished(st)
    ensures c in st.g.done <==> c in st.sets
    ensures c in st.sets ==> Vector(st.sets[c], st.g.done[c])
  {
    assert Unlock(0);
    if c in st.sets {
      assert EntryOk(st.sets, st.g, st.num, c);
      Look(st.sets[c], st.g.done[c], st.g.late[c], st.num);
      assert st.g.work == [] && c !in st.g.work;
      assert st.g.done[c] + [] == st.g.done[c];
    }
  }

  /** What the kept states hold, once the backward pass has ended. */
  lemma Listed(p: Input, chart: Chart, kept: seq<State>) returns (v: Elements)
    requires InputOk(p) && ChartOk(p, chart) && KeptOk(p, chart, kept) && Rest(kept, -1)
    ensures Reads(kept, v) && AllFound(p, v)
    ensures forall c: nat, i: nat, j: nat {:trigger Holds(v, c, i, j)} :: Holds(v, c, i, j) <==>
      j < |kept| && (c, i) in kept[j].all
  {
    v := ListsOf(kept);
    forall j: nat, c: nat | j < |v|
      ensures (c in v[j] <==> c in kept[j].sets) && (c in v[j] ==> Vector(kept[j].sets[c], v[j][c])) {
      StateLists(kept[j], c);
    }
    forall c: nat, i: nat, j: nat
      ensures Holds(v, c, i, j) <==> j < |kept| && (c, i) in kept[j].all
      ensures Holds(v, c, i, j) ==> c < |p.items| && i <= j && Found(p, c, i, j)
    {
      if j < |kept| {
        kept[j].Present(c, i);
        kept[j].InRange(c, i);
        if (c, i) in kept[j].all { UsefulFound(p, chart, c, i, j); }
      }
    }
  }

  /** Each branch with each of the trees. */
  method JoinTrees(branches: seq<Tree>, trees: seq<Tree>, start: seq<Tree>) returns (acc: seq<Tree>)
    ensures acc == Join(branches, trees, start)
  {
    var m := 0;
    acc := start;
    while m < |branches|
      invariant m <= |branches| && Join(branches, trees, start) == Join(branches[m..], trees, acc)
    {
      var x := 0;
      ghost var before := acc;
      while x < |trees|
        invariant x <= |trees| && JoinOne(branches[m], trees, before) == JoinOne(branches[m], trees[x..], acc)
      {
        assert trees[x..][1..] == trees[x + 1..];
        acc := [WithBranch(trees[x], branches[m])] + acc;
        x := x + 1;
      }
      assert branches[m..][1..] == branches[m + 1..];
      m := m + 1;
    }
  }

  /** deriv_trees, with a bound on the depth of the recursion */
  method DerivTrees(p: Input, words: seq<string>, kept: seq<State>, ghost v: Elements, c: nat, i: nat, j: nat,
      fuel: nat) returns (r: Option<seq<Tree>>)
    requires InputOk(p) && |words| == |p.toks| && AllFound(p, v) && Reads(kept, v) && Holds(v, c, i, j)
    ensures r == Trees(p, words, v, c, i, j, fuel)
    decreases fuel, 0
  {
    if fuel == 0 { return None; }
    match p.t.names[c] {
      case Some(name) =>
        assert c < |p.t.nts| ==> p.items[c] == Leaf(c);
        return Some([Tree(name, if c < |p.t.nts| then Some(words[i]) else None, [])]);
      case None =>
        Waits(p, c);
        r := TreesOfEnders(p, words, kept, v, c, i, j, p.t.enders[p.t.steps[c - 1]], fuel - 1);
    }
  }

  method TreesOfEnders(p: Input, words: seq<string>, kept: seq<State>, ghost v: Elements, c: nat, i: nat, j: nat,
      l: seq<nat>, fuel: nat) returns (r: Option<seq<Tree>>)
    requires InputOk(p) && |words| == |p.toks| && AllFound(p, v) && Reads(kept, v) && j < |v| && c > 0
    ensures r == EnderTrees(p, words, v, c, i, j, l, [], fuel)
    decreases fuel, 2
  {
    var m, acc := 0, [];
    while m < |l|
      invariant m <= |l| &&
        EnderTrees(p, words, v, c, i, j, l, [], fuel) == EnderTrees(p, words, v, c, i, j, l[m..], acc, fuel)
    {
      assert l[m..][1..] == l[m + 1..];
      var e := l[m];
      assert e in v[j] <==> e in kept[j].sets;
      if e in kept[j].sets {
        var here := TreesOfPlaces(p, words, kept, v, c, i, j, e, acc, fuel);
        if here.None? { return None; }
        acc := here.value;
      }
      m := m + 1;
    }
    r := Some(acc);
  }

  method TreesOfPlaces(p: Input, words: seq<string>, kept: seq<State>, ghost v: Elements, c: nat, i: nat, j: nat,
      e: nat, start: seq<Tree>, fuel: nat) returns (r: Option<seq<Tree>>)
    requires InputOk(p) && |words| == |p.toks| && AllFound(p, v) && Reads(kept, v) && j < |v| && c > 0 && e in v[j]
    ensures e in v[j] && forall k :: k in v[j][e] ==> Holds(v, e, k, j)
    ensures r == PlaceTrees(p, words, v, c, i, j, e, v[j][e], start, fuel)
    decreases fuel, 1
  {
    ghost var ks := v[j][e];
    assert e in kept[j].sets && Vector(kept[j].sets[e], ks);
    var s := kept[j].sets[e];
    var k, acc := s[DONE_HEAD], start;
    ghost var m := 0;
    while k >= 0
      invariant m <= |ks| && Chain(s, k, ks[m..])
      invariant PlaceTrees(p, words, v, c, i, j, e, ks, start, fuel) ==
        PlaceTrees(p, words, v, c, i, j, e, ks[m..], acc, fuel)
      decreases |ks| - m
    {
      assert ks[m..][1..] == ks[m + 1..] && Holds(v, e, k, j);
      assert c - 1 in v[k] <==> c - 1 in kept[k].sets;
      if k >= i && c - 1 in kept[k].sets && i in kept[k].sets[c - 1] {
        assert Vector(kept[k].sets[c - 1], v[k][c - 1]);
        var prevs := DerivTrees(p, words, kept, v, c - 1, i, k, fuel);
        var branches := DerivTrees(p, words, kept, v, e, k, j, fuel);
        if prevs.None? || branches.None? { return None; }
        acc := JoinTrees(branches.value, prevs.value, acc);
      }
      k := s[k];
      m := m + 1;
    }
    r := Some(acc);
  }

  /** nb_deriv_trees, with a bound on the depth of the recursion */
  method NbDerivTrees(p: Input, kept: seq<State>, ghost v: Elements, c: nat, i: nat, j: nat, fuel: nat)
      returns (r: Option<nat>)
    requires InputOk(p) && AllFound(p, v) && Reads(kept, v) && Holds(v, c, i, j)
    ensures r == Count(p, v, c, i, j, fuel)
    decreases fuel, 0
  {
    if fuel == 0 { return None; }
    NameOrStart(p.t, p.rules, p.items, c);
    if c < |p.t.nts| || p.t.steps[c - 1] < 0 { return Some(1); }
    Waits(p, c);
    r := CountOfEnders(p, kept, v, c, i, j, p.t.enders[p.t.steps[c - 1]], fuel - 1);
  }

  method CountOfEnders(p: Input, kept: seq<State>, ghost v: Elements, c: nat, i: nat, j: nat, l: seq<nat>, fuel: nat)
      returns (r: Option<nat>)
    requires InputOk(p) && AllFound(p, v) && Reads(kept, v) && j < |v| && c > 0
    ensures r == EnderCount(p, v, c, i, j, l, 0, fuel)
    decreases fuel, 2
  {
    var m: nat, n: nat := 0, 0;
    while m < |l|
      invariant m <= |l| && EnderCount(p, v, c, i, j, l, 0, fuel) == EnderCount(p, v, c, i, j, l[m..], n, fuel)
    {
      assert l[m..][1..] == l[m + 1..];
      var e := l[m];
      assert e in v[j] <==> e in kept[j].sets;
      if e in kept[j].sets {
        var here := CountOfPlaces(p, kept, v, c, i, j, e, n, fuel);
        if here.None? { return None; }
        n := here.value;
      }
      m := m + 1;
    }
    r := Some(n);
  }

  method CountOfPlaces(p: Input, kept: seq<State>, ghost v: Elements, c: nat, i: nat, j: nat, e: nat, start: nat,
      fuel: nat) returns (r: Option<nat>)
    requires InputOk(p) && AllFound(p, v) && Reads(kept, v) && j < |v| && c > 0 && e in v[j]
    ensures e in v[j] && forall k :: k in v[j][e] ==> Holds(v, e, k, j)
    ensures r == PlaceCount(p, v, c, i, j, e, v[j][e], start, fuel)
    decreases fuel, 1
  {
    ghost var ks := v[j][e];
    assert e in kept[j].sets && Vector(kept[j].sets[e], ks);
    var s := kept[j].sets[e];
    var k: int, n: nat := s[DONE_HEAD], start;
    ghost var m := 0;
    while k >= 0
      invariant m <= |ks| && Chain(s, k, ks[m..])
      invariant PlaceCount(p, v, c, i, j, e, ks, start, fuel) == PlaceCount(p, v, c, i, j, e, ks[m..], n, fuel)
      decreases |ks| - m
    {
      assert ks[m..][1..] == ks[m + 1..] && Holds(v, e, k, j);
      assert c - 1 in v[k] <==> c - 1 in kept[k].sets;
      if k >= i && c - 1 in kept[k].sets && i in kept[k].sets[c - 1] {
        assert Vector(kept[k].sets[c - 1], v[k][c - 1]);
        var prevs := NbDerivTrees(p, kept, v, c - 1, i, k, fuel);
        var branches := NbDerivTrees(p, kept, v, e, k, j, fuel);
        if prevs.None? || branches.None? { return None; }
        n := n + prevs.value * branches.value;
      }
      k := s[k];
      m := m + 1;
    }
    r := Some(n);
  }

  /** The numbers of the complete configurations of category s. */
  lemma EndersOf(p: Input, s: nat)
    requires InputOk(p) && s < |p.t.nts|
    ensures forall e {:trigger e in p.t.enders[s]} :: e in p.t.enders[s] ==>
      e < |p.items| && p.t.steps[e] == s - |p.t.nts|
  {
    assert EarleyTabling.Listed(p.t, p.rules, p.items, s);
  }

  /** deriv_trees*: the trees of a category the grammar mentions; each of them derives it */
  method CategoryDerivTrees(p: Input, words: seq<string>, kept: seq<State>, ghost v: Elements, nt: Symbol, i: nat,
      j: nat, fuel: nat) returns (r: Option<seq<Tree>>, s: Option<nat>)
    requires InputOk(p) && |words| == |p.toks| && AllFound(p, v) && Reads(kept, v) && i <= j < |kept|
    ensures s.Some? <==> nt in p.t.nts
    ensures s.Some? ==> s.value < |p.t.nts| && p.t.nts[s.value] == nt
    ensures s.Some? ==> r == CategoryTrees(p, words, v, p.t.enders[s.value], i, j, [], fuel)
    ensures s.Some? && r.Some? ==> AllDerive(p, words, r.value, nt, i, j)
  {
    s := Ind(nt, p.t.nts);
    if s.None? { return None, None; }
    EndersOf(p, s.value);
    var l, m, trees := p.t.enders[s.value], 0, [];
    while m < |l|
      invariant m <= |l|
      invariant CategoryTrees(p, words, v, l, i, j, [], fuel) == CategoryTrees(p, words, v, l[m..], i, j, trees, fuel)
    {
      assert l[m..][1..] == l[m + 1..];
      assert l[m] in v[j] <==> l[m] in kept[j].sets;
      if l[m] in kept[j].sets && i in kept[j].sets[l[m]] {
        assert Vector(kept[j].sets[l[m]], v[j][l[m]]) && Holds(v, l[m], i, j);
        var more := DerivTrees(p, words, kept, v, l[m], i, j, fuel);
        if more.None? { return None, s; }
        trees := more.value + trees;
      } else {
        assert !(l[m] in v[j] && i in v[j][l[m]]);
      }
      m := m + 1;
    }
    r := Some(trees);
    CategoryDerives(p, words, v, s.value, l, i, j, [], fuel);
  }

  /** nb_deriv_trees*: as many as are listed */
  method NbCategoryDerivTrees(p: Input, ghost words: seq<string>, kept: seq<State>, ghost v: Elements, nt: Symbol,
      i: nat, j: nat, fuel: nat) returns (r: Option<nat>, s: Option<nat>)
    requires InputOk(p) && |words| == |p.toks| && AllFound(p, v) && Reads(kept, v) && i <= j < |kept|
    ensures s.Some? <==> nt in p.t.nts
    ensures s.Some? ==> s.value < |p.t.nts| && p.t.nts[s.value] == nt
    ensures s.Some? ==> r == Length(CategoryTrees(p, words, v, p.t.enders[s.value], i, j, [], fuel))
  {
    s := Ind(nt, p.t.nts);
    if s.None? { return None, None; }
    CategoryCounts(p, words, v, p.t.enders[s.value], i, j, [], fuel);
    var l, m: nat, n: nat := p.t.enders[s.value], 0, 0;
    while m < |l|
      invariant m <= |l| && CategoryCount(p, v, l, i, j, 0, fuel) == CategoryCount(p, v, l[m..], i, j, n, fuel)
    {
      assert l[m..][1..] == l[m + 1..];
      assert l[m] in v[j] <==> l[m] in kept[j].sets;
      if l[m] in kept[j].sets && i in kept[j].sets[l[m]] {
        assert Vector(kept[j].sets[l[m]], v[j][l[m]]) && Holds(v, l[m], i, j);
        var more := NbDerivTrees(p, kept, v, l[m], i, j, fuel);
        if more.None? { return None, s; }
        n := more.value + n;
      } else {
        assert !(l[m] in v[j] && i in v[j][l[m]]);
      }
      m := m + 1;
    }
    r := Some(n);
  }
}
