/** The parser of earley-boyer.js from grammar and tokens to the answer. */
module EarleyTheorem {
  import opened EarleyGrammars
  import opened EarleyTabling
  import opened EarleySets
  import opened EarleyParsing
  import opened EarleyRecognising
  import opened EarleyParses
  import opened EarleyBuilding
  import opened EarleyForests
  import opened EarleyAllTrees
  import opened EarleyDistinct
  import opened EarleyEnding
  import opened EarleyNodes
  import EarleyListing

  /** What a parse is: the input, and the states that the backward pass leaves. */
  ghost predicate ParseOk(p: Input, chart: Chart, kept: seq<State>)
    reads kept
  {
    InputOk(p) && ChartOk(p, chart) && KeptOk(p, chart, kept) && KeptFrom(p, chart, Now(kept), 0) && Rest(kept, -1)
  }

  /** make-parser, and the parser it makes applied to the tokens; it always comes to an end. */
  method Parse(g: Grammar, toks: Tokens) returns (p: Input, ghost chart: Chart, kept: seq<State>)
    requires g != []
    ensures ParseOk(p, chart, kept) && TablesOnce(p.t, p.items) && p.toks == toks && p.rules == Rules(g)
    ensures p.t.nts[0] == g[0].head && |kept| == |toks| + 1 && AllMentioned(p.t.nts, g)
  {
    var t;
    ghost var items;
    t, items := MakeTables(g);
    p := Input(t, Rules(g), items, toks);
    var states;
    states, chart := Forward(p);
    kept := Backward(p, chart, states);
  }

  /** The goal is parsed over all tokens exactly when the grammar derives it. */
  method Recognise(g: Grammar, toks: Tokens) returns (r: bool)
    requires g != []
    ensures r <==> Yields(Rules(g), toks, g[0].head, 0, |toks|)
  {
    var p, kept;
    ghost var chart;
    p, chart, kept := Parse(g, toks);
    GoalParsed(p, chart);
    r := IsParsed(p, chart, kept, g[0].head, 0, |toks|);
  }

  /** The links of a list never come back. */
  lemma {:induction false} ChainEnds(s: Cells, first: int, list: seq<nat>, list': seq<nat>)
    requires Chain(s, first, list) && Chain(s, first, list')
    ensures list == list'
    decreases |list|
  {
    if list != [] && list' != [] { ChainEnds(s, s[first], list[1..], list'[1..]); }
  }

  lemma {:induction false} ChainFrom(s: Cells, first: int, list: seq<nat>, a: nat)
    requires Chain(s, first, list) && a < |list|
    ensures Chain(s, list[a], list[a..])
    decreases |list|
  {
    if a > 0 {
      ChainFrom(s, s[first], list[1..], a - 1);
      assert list[1..][a - 1..] == list[a..];
    }
  }

  lemma ChainOnce(s: Cells, first: int, list: seq<nat>)
    requires Chain(s, first, list)
    ensures Once(list)
  {
    forall a, b | 0 <= a < b < |list| ensures list[a] != list[b] {
      ChainFrom(s, first, list, a);
      ChainFrom(s, first, list, b);
      if list[a] == list[b] { ChainEnds(s, list[a], list[a..], list[b..]); }
    }
  }

  /** What the lists hold is what the parses use, each element once. */
  lemma Harvested(p: Input, words: seq<string>, chart: Chart, kept: seq<State>) returns (v: Elements)
    requires ParseOk(p, chart, kept) && |words| == |p.toks|
    ensures EarleyListing.Reads(kept, v) && Harvest(p, words, chart, v) && ListsOnce(v) && |v| == |chart|
  {
    v := EarleyListing.Listed(p, chart, kept);
    forall c: nat, i: nat, j: nat ensures Holds(v, c, i, j) <==> Useful(p, chart, c, i, j) {
      if j < |kept| { KeptExactly(p, chart, kept, c, i, j); }
    }
    forall j: nat, c: nat | j < |v| && c in v[j] ensures Once(v[j][c]) {
      assert c in kept[j].sets && EarleyListing.Vector(kept[j].sets[c], v[j][c]);
      ChainOnce(kept[j].sets[c], kept[j].sets[c][DONE_HEAD], v[j][c]);
    }
  }

  ghost predicate DefinedApart(g: Grammar) {
    forall a, b :: 0 <= a < b < |g| ==> g[a].head != g[b].head
  }

  /** What the list of a category is. */
  lemma ListIs(g: Grammar, p: Input, words: seq<string>, chart: Chart, v: Elements, s: nat, i: nat, j: nat, fuel: nat)
    requires Harvest(p, words, chart, v) && ListsOnce(v) && TablesOnce(p.t, p.items) && p.rules == Rules(g)
    requires s < |p.t.nts| && j < |v| == |chart|
    ensures var list := CategoryTrees(p, words, v, p.t.enders[s], i, j, [], fuel);
      && (list.Some? <==> (PartOfParse(p, chart, p.t.nts[s], i, j) ==> DepthWithin(p, words, p.t.nts[s], i, j, fuel)))
      && (list.Some? ==> forall t {:trigger t in list.value} :: t in list.value <==>
        PartOfParse(p, chart, p.t.nts[s], i, j) && IsDerivation(p.rules, p.toks, words, t, p.t.nts[s], i, j))
      && (list.Some? && DefinedApart(g) ==> Once(list.value))
  {
    EndsExactly(p, words, chart, v, s, i, j, fuel);
    var list := CategoryTrees(p, words, v, p.t.enders[s], i, j, [], fuel);
    if list.Some? {
      ExactlyDerivations(p, words, chart, v, s, i, j, fuel);
      if DefinedApart(g) {
        DefinedOnce(g);
        EarleyListing.EndersOf(p, s);
        assert Once(p.t.enders[s]);
        CategoryOnce(p, words, v, s, p.t.enders[s], i, j, [], fuel);
      }
    }
  }

  /** An answer about a category: none if the grammar does not mention it, none yet if the recursion goes deeper. */
  datatype Outcome<T> = Unmentioned | Deeper | Answer(value: T)

  function OutcomeOf<T>(known: bool, r: Option<T>): Outcome<T> {
    if !known then Unmentioned else if r.None? then Deeper else Answer(r.value)
  }

  /**
    * Whether a parse of the goal has a category anywhere in the input, its trees there and their number: all
    * derivations of the category there, each once if no category is defined twice, and none if no parse of the goal
    * has it there. The recursion ends exactly within the depth of the derivations.
    */
  method Forest(g: Grammar, toks: Tokens, words: seq<string>, nt: Symbol, i: nat, j: nat, fuel: nat)
      returns (trees: Outcome<seq<Tree>>, n: Outcome<nat>, parsed: bool)
    requires g != [] && |words| == |toks| && i <= j <= |toks|
    ensures parsed <==> InParse(Rules(g), toks, words, g[0].head, nt, i, j)
    ensures parsed ==> Yields(Rules(g), toks, nt, i, j)
    ensures nt == g[0].head && i == 0 && j == |toks| ==> (parsed <==> Yields(Rules(g), toks, nt, i, j))
    ensures trees.Unmentioned? <==> !Mentioned(g, nt)
    ensures trees.Answer? <==> Mentioned(g, nt) && (parsed ==>
      forall t {:trigger Depth(t)} :: IsDerivation(Rules(g), toks, words, t, nt, i, j) ==> Depth(t) <= fuel)
    ensures trees.Answer? ==> forall t {:trigger t in trees.value} :: t in trees.value <==>
      parsed && IsDerivation(Rules(g), toks, words, t, nt, i, j)
    ensures trees.Answer? && DefinedApart(g) ==> Once(trees.value)
    ensures Mentioned(g, nt) && !parsed ==> trees == Answer([]) && n == Answer(0)
    ensures n == match trees
      case Unmentioned => Unmentioned
      case Deeper => Deeper
      case Answer(list) => Answer(|list|)
  {
    var p, kept, s, s', l, m;
    ghost var chart;
    p, chart, kept := Parse(g, toks);
    ghost var v := Harvested(p, words, chart, kept);
    l, s := EarleyListing.CategoryDerivTrees(p, words, kept, v, nt, i, j, fuel);
    m, s' := EarleyListing.NbCategoryDerivTrees(p, words, kept, v, nt, i, j, fuel);
    parsed := IsParsed(p, chart, kept, nt, i, j);
    trees, n := OutcomeOf(s.Some?, l), OutcomeOf(s'.Some?, m);
    GoalParsed(p, chart);
    UsedIsNode(p, words, chart, nt, i, j);
    if s.Some? {
      SameSymbol(p.t.nts, s.value, s'.value);
      ListIs(g, p, words, chart, v, s.value, i, j, fuel);
      assert l.Some? && !parsed ==> l.value == [] by { if l.Some? && l.value != [] { assert l.value[0] in l.value; } }
    }
  }
}
