/** The tables of a grammar, as earley-boyer.js builds them. */
module EarleyBuilding {
  import opened EarleyGrammars
  import opened EarleyTabling
  import opened EarleyParsing
  import opened EarleyRecognising

  ghost predicate Distinct(nts: seq<Symbol>) {
    forall a, b :: 0 <= a < b < |nts| ==> nts[a] != nts[b]
  }

  /** The categories of a rule are in the list. */
  ghost predicate Mentions(nts: seq<Symbol>, rule: Rule) {
    rule.head in nts && forall k {:trigger rule.body[k]} :: 0 <= k < |rule.body| ==> rule.body[k] in nts
  }

  ghost predicate MentionsAll(nts: seq<Symbol>, rules: seq<Rule>) {
    forall r {:trigger rules[r]} :: 0 <= r < |rules| ==> Mentions(nts, rules[r])
  }

  /** The category is the head of the definition or a symbol of one of its rules. */
  ghost predicate MentionedIn(d: Definition, nt: Symbol) {
    d.head == nt || exists m {:trigger d.bodies[m]} :: 0 <= m < |d.bodies| && nt in d.bodies[m]
  }

  ghost predicate Mentioned(g: Grammar, nt: Symbol) {
    exists d {:trigger g[d]} :: 0 <= d < |g| && MentionedIn(g[d], nt)
  }

  ghost predicate AllMentioned(nts: seq<Symbol>, g: Grammar) {
    forall nt {:trigger nt in nts} {:trigger Mentioned(g, nt)} :: nt in nts <==> Mentioned(g, nt)
  }

  lemma MentionedNext(g: Grammar, d: nat, nt: Symbol)
    requires d < |g|
    ensures Mentioned(g[..d + 1], nt) <==> Mentioned(g[..d], nt) || MentionedIn(g[d], nt)
  {
    assert g[..d + 1][d] == g[d] && forall k :: 0 <= k < d ==> g[..d + 1][k] == g[..d][k];
  }

  /** A category joins the list if it is not in it. */
  function WithCategory(nts: seq<Symbol>, nt: Symbol): (r: seq<Symbol>)
    requires Distinct(nts)
    ensures Distinct(r) && nts <= r && nt in r && forall x {:trigger x in r} :: x in r <==> x in nts || x == nt
  {
    if nt in nts then nts else nts + [nt]
  }

  /** The categories of one rule, behind those of the rules before it. */
  method WithSymbols(nts: seq<Symbol>, rule: Rule) returns (r: seq<Symbol>)
    requires Distinct(nts) && rule.head in nts
    ensures Distinct(r) && nts <= r && Mentions(r, rule)
    ensures forall x {:trigger x in r} :: x in r <==> x in nts || x in rule.body
  {
    var k := 0;
    r := nts;
    while k < |rule.body|
      invariant k <= |rule.body| && Distinct(r) && nts <= r
      invariant forall m {:trigger rule.body[m]} :: 0 <= m < k ==> rule.body[m] in r
      invariant forall x {:trigger x in r} :: x in r <==> x in nts || x in rule.body[..k]
    {
      assert rule.body[..k + 1] == rule.body[..k] + [rule.body[k]];
      var r' := WithCategory(r, rule.body[k]);
      Longer(r, r');
      r := r';
      k := k + 1;
    }
    Longer(nts, r);
    assert rule.body[..k] == rule.body;
  }

  lemma Longer(a: seq<Symbol>, b: seq<Symbol>)
    requires a <= b
    ensures forall nt :: nt in a ==> nt in b
  {
    forall nt | nt in a ensures nt in b {
      var k :| 0 <= k < |a| && a[k] == nt;
      assert b[k] == nt;
    }
  }

  lemma MentionsMore(a: seq<Symbol>, b: seq<Symbol>, rules: seq<Rule>)
    requires MentionsAll(a, rules) && a <= b
    ensures MentionsAll(b, rules)
  {
    Longer(a, b);
  }

  /** The rules of the definitions before d, and the first m of d. */
  ghost function RulesUpto(g: Grammar, d: nat, m: nat): seq<Rule>
    requires d < |g| && m <= |g[d].bodies|
  {
    Rules(g[..d]) + RulesOf(g[d], m)
  }

  lemma RulesNext(g: Grammar, d: nat, m: nat)
    requires d < |g| && m < |g[d].bodies|
    ensures RulesUpto(g, d, m + 1) == RulesUpto(g, d, m) + [Rule(g[d].head, g[d].bodies[m], m + 1)]
  {
    assert RulesOf(g[d], m + 1) == RulesOf(g[d], m) + [Rule(g[d].head, g[d].bodies[m], m + 1)];
  }

  lemma RulesFirst(g: Grammar, d: nat)
    requires d < |g|
    ensures RulesUpto(g, d, 0) == Rules(g[..d]) && RulesUpto(g, d, |g[d].bodies|) == Rules(g[..d + 1])
  {
    assert g[..d + 1][..d] == g[..d] && RulesOf(g[d], 0) == [];
  }

  /** The categories of one definition, behind those of the definitions before it. */
  method WithDefinition(g: Grammar, d: nat, nts: seq<Symbol>) returns (r: seq<Symbol>)
    requires d < |g| && Distinct(nts) && MentionsAll(nts, Rules(g[..d]))
    ensures Distinct(r) && nts <= r && g[d].head in r && (nts == [] ==> r[0] == g[d].head) &&
      MentionsAll(r, Rules(g[..d + 1]))
    ensures forall x {:trigger x in r} :: x in r <==> x in nts || MentionedIn(g[d], x)
  {
    r := WithCategory(nts, g[d].head);
    MentionsMore(nts, r, Rules(g[..d]));
    RulesFirst(g, d);
    ghost var start := r;
    var m := 0;
    while m < |g[d].bodies|
      invariant m <= |g[d].bodies| && Distinct(r) && start <= r && g[d].head in r && MentionsAll(r, RulesUpto(g, d, m))
      invariant forall x {:trigger x in r} :: x in r <==>
        x in start || exists k {:trigger g[d].bodies[k]} :: 0 <= k < m && x in g[d].bodies[k]
    {
      var rule := Rule(g[d].head, g[d].bodies[m], m + 1);
      var longer := WithSymbols(r, rule);
      Longer(r, longer);
      MentionsMore(r, longer, RulesUpto(g, d, m));
      RulesNext(g, d, m);
      r := longer;
      m := m + 1;
    }
  }

  /** All categories: heads and symbols in the order in which they come up, so that the goal is the first. */
  method Categories(g: Grammar) returns (nts: seq<Symbol>)
    requires g != []
    ensures Distinct(nts) && MentionsAll(nts, Rules(g)) && nts != [] && nts[0] == g[0].head
    ensures AllMentioned(nts, g)
  {
    var d := 0;
    nts := [];
    assert Rules(g[..0]) == [];
    while d < |g|
      invariant d <= |g| && Distinct(nts) && MentionsAll(nts, Rules(g[..d]))
      invariant if d == 0 then nts == [] else nts != [] && nts[0] == g[0].head
      invariant AllMentioned(nts, g[..d])
    {
      nts := WithDefinition(g, d, nts);
      forall nt ensures nt in nts <==> Mentioned(g[..d + 1], nt) { MentionedNext(g, d, nt); }
      d := d + 1;
    }
    assert g[..d] == g;
  }

  /** The configurations of the rules: one before each symbol, and one at the end. */
  ghost function Confs(rules: seq<Rule>): nat {
    if rules == [] then 0 else Confs(rules[..|rules| - 1]) + |rules[|rules| - 1].body| + 1
  }

  lemma ConfsNext(rules: seq<Rule>, rule: Rule)
    ensures Confs(rules + [rule]) == Confs(rules) + |rule.body| + 1
  {
    assert (rules + [rule])[..|rules|] == rules;
  }

  lemma {:induction false} ConfsMore(a: seq<Rule>, b: seq<Rule>)
    requires a <= b
    ensures Confs(a) <= Confs(b)
    decreases |b|
  {
    if |a| < |b| {
      assert a <= b[..|b| - 1];
      ConfsMore(a, b[..|b| - 1]);
    } else {
      assert a == b;
    }
  }

  lemma {:induction false} RulesPrefix(g: Grammar, d: nat)
    requires d <= |g|
    ensures Rules(g[..d]) <= Rules(g)
    decreases |g|
  {
    if d < |g| {
      RulesPrefix(g[..|g| - 1], d);
      assert g[..|g| - 1][..d] == g[..d];
    } else {
      assert g[..d] == g;
    }
  }

  lemma UptoPrefix(g: Grammar, d: nat, m: nat)
    requires d < |g| && m <= |g[d].bodies|
    ensures RulesUpto(g, d, m) <= Rules(g)
  {
    RulesFirst(g, d);
    assert RulesOf(g[d], m) <= RulesOf(g[d], |g[d].bodies|);
    RulesPrefix(g, d + 1);
  }

  /** How many configurations there are, besides the categories. */
  method CountConfs(g: Grammar) returns (total: nat)
    ensures total == Confs(Rules(g))
  {
    var d := 0;
    total := 0;
    while d < |g|
      invariant d <= |g| && total == Confs(Rules(g[..d]))
    {
      RulesFirst(g, d);
      var m := 0;
      while m < |g[d].bodies|
        invariant m <= |g[d].bodies| && total == Confs(RulesUpto(g, d, m))
      {
        RulesNext(g, d, m);
        ConfsNext(RulesUpto(g, d, m), Rule(g[d].head, g[d].bodies[m], m + 1));
        var k, before := 0, total;
        while k < |g[d].bodies[m]|
          invariant k <= |g[d].bodies[m]| && total == before + k
        {
          k, total := k + 1, total + 1;
        }
        total := total + 1;
        m := m + 1;
      }
      d := d + 1;
    }
    assert g[..d] == g;
  }

  ghost function LeafItems(n: nat): seq<Item> {
    seq(n, c requires 0 <= c < n => Leaf(c))
  }

  /** Rule r with the dot before each of its first m symbols. */
  ghost function Dots(r: nat, m: nat): seq<Item> {
    seq(m, k requires 0 <= k < m => Dot(r, k))
  }

  /** What a rule adds to the lists of the categories, and to the steps and names. */
  ghost predicate RuleSteps(t: Tables, t': Tables, rule: Rule) {
    var conf, n := |t.steps|, |t.nts|;
    && t'.nts == t.nts && |t'.steps| == |t'.names| == conf + |rule.body| + 1 && |t.names| == conf
    && t'.steps[..conf] == t.steps && t'.names[..conf] == t.names
    && rule.number > 0 && t'.names[conf] == Some(Name(rule.head, rule.number))
    && (forall k {:trigger t'.names[k]} :: conf < k < |t'.names| ==> t'.names[k] == None)
    && (forall k {:trigger rule.body[k]} :: 0 <= k < |rule.body| ==>
      0 <= t'.steps[conf + k] < n && t.nts[t'.steps[conf + k]] == rule.body[k])
    && -n <= t'.steps[conf + |rule.body|] < 0 && t.nts[t'.steps[conf + |rule.body|] + n] == rule.head
  }

  ghost predicate RuleLists(t: Tables, t': Tables, rule: Rule) {
    var conf, n := |t.steps|, |t.nts|;
    && |t.starters| == |t.enders| == |t.predictors| == |t'.starters| == |t'.enders| == |t'.predictors| == n
    && (forall s: nat, c: nat {:trigger c in t'.starters[s]} :: s < n ==>
      (c in t'.starters[s] <==> c in t.starters[s] || (c == conf && t.nts[s] == rule.head)))
    && (forall s: nat, c: nat {:trigger c in t'.enders[s]} :: s < n ==>
      (c in t'.enders[s] <==> c in t.enders[s] || (c == conf + |rule.body| && t.nts[s] == rule.head)))
    && (forall s {:trigger t'.enders[s]} :: 0 <= s < n ==>
      t'.enders[s] == t.enders[s] || t'.enders[s] == [conf + |rule.body|] + t.enders[s])
    && (forall s: nat, c: nat {:trigger c in t'.predictors[s]} :: s < n ==>
      (c in t'.predictors[s] <==>
        c in t.predictors[s] || (conf <= c < conf + |rule.body| && t.nts[s] == rule.body[c - conf])))
  }

  /** One more rule. */
  lemma RuleAdded(t: Tables, t': Tables, rules: seq<Rule>, rule: Rule, items: seq<Item>)
    requires TablesOk(t, rules, items) && RuleSteps(t, t', rule) && RuleLists(t, t', rule)
    ensures TablesOk(t', rules + [rule], items + Dots(|rules|, |rule.body| + 1))
  {
    var rules', items' := rules + [rule], items + Dots(|rules|, |rule.body| + 1);
    ItemsAdded(rules, rule, items, |t.nts|);
    forall c: nat | c < |items'| ensures StepOk(t', rules', items', c) {
      StepAdded(t, t', rules, rule, items, c);
    }
    forall c: nat | c < |items'| ensures NameOk(t', rules', items', c) {
      NameAdded(t, t', rules, rule, items, c);
    }
    forall s: nat | s < |t.nts| ensures Listed(t', rules', items', s) {
      assert Listed(t, rules, items, s);
      StartersAdded(t, t', rules, rule, items, s);
      StepsListed(t, t', rules, rule, items, s);
    }
  }

  lemma OnceAdded(t: Tables, t': Tables, rules: seq<Rule>, rule: Rule, items: seq<Item>)
    requires TablesOk(t, rules, items) && RuleLists(t, t', rule) && TablesOnce(t, items)
    ensures TablesOnce(t', items + Dots(|rules|, |rule.body| + 1))
  {
    var items' := items + Dots(|rules|, |rule.body| + 1);
    forall a, b | 0 <= a < b < |items'| ensures items'[a] != items'[b] {
      if a < |items| { assert ItemOk(rules, items, |t.nts|, a); }
    }
    forall s | 0 <= s < |t'.enders| ensures Once(t'.enders[s]) {
      assert Listed(t, rules, items, s) && Once(t.enders[s]);
      var last := |t.steps| + |rule.body|;
      assert last !in t.enders[s];
      assert forall a {:trigger t.enders[s][a]} :: 0 <= a < |t.enders[s]| ==> t.enders[s][a] in t.enders[s];
    }
  }

  lemma ItemsAdded(rules: seq<Rule>, rule: Rule, items: seq<Item>, n: nat)
    requires ItemsOk(rules, items, n)
    ensures ItemsOk(rules + [rule], items + Dots(|rules|, |rule.body| + 1), n)
  {
    var rules', items' := rules + [rule], items + Dots(|rules|, |rule.body| + 1);
    forall c: nat | c < |items'| ensures ItemOk(rules', items', n, c) {
      if c < |items| {
        assert ItemOk(rules, items, n, c);
      } else if c == |items| > 0 {
        assert ItemOk(rules, items, n, c - 1);
      }
    }
    forall r: nat | r < |rules'| ensures exists c: nat :: c < |items'| && items'[c] == Dot(r, 0) {
      if r < |rules| {
        assert rules[r] == rules'[r];
        var c: nat :| c < |items| && items[c] == Dot(r, 0);
        assert items'[c] == Dot(r, 0);
      } else {
        assert items'[|items|] == Dot(r, 0);
      }
    }
  }

  lemma StepAdded(t: Tables, t': Tables, rules: seq<Rule>, rule: Rule, items: seq<Item>, c: nat)
    requires TablesOk(t, rules, items) && RuleSteps(t, t', rule) && c < |t'.steps|
    ensures StepOk(t', rules + [rule], items + Dots(|rules|, |rule.body| + 1), c)
  {
    if c < |items| {
      assert t'.steps[..|items|][c] == t.steps[c];
      assert StepOk(t, rules, items, c);
    } else if c - |items| < |rule.body| {
      assert rule.body[c - |items|] in rule.body;
    }
  }

  lemma NameAdded(t: Tables, t': Tables, rules: seq<Rule>, rule: Rule, items: seq<Item>, c: nat)
    requires TablesOk(t, rules, items) && RuleSteps(t, t', rule) && c < |t'.steps|
    ensures NameOk(t', rules + [rule], items + Dots(|rules|, |rule.body| + 1), c)
  {
    if c < |items| {
      assert t'.names[..|items|][c] == t.names[c];
      assert NameOk(t, rules, items, c);
    }
  }

  lemma StartersAdded(t: Tables, t': Tables, rules: seq<Rule>, rule: Rule, items: seq<Item>, s: nat)
    requires TablesOk(t, rules, items) && RuleSteps(t, t', rule) && RuleLists(t, t', rule) && s < |t.nts|
    ensures forall c: nat {:trigger c in t'.starters[s]} ::
      c in t'.starters[s] <==> Starts(t', rules + [rule], items + Dots(|rules|, |rule.body| + 1), s, c)
  {
    assert Listed(t, rules, items, s);
    var rules', items' := rules + [rule], items + Dots(|rules|, |rule.body| + 1);
    forall c: nat ensures c in t'.starters[s] <==> Starts(t', rules', items', s, c) {
      if c < |items| {
        assert c in t.starters[s] <==> Starts(t, rules, items, s, c);
        assert ItemOk(rules, items, |t.nts|, c);
      }
    }
  }

  lemma StepsListed(t: Tables, t': Tables, rules: seq<Rule>, rule: Rule, items: seq<Item>, s: nat)
    requires TablesOk(t, rules, items) && RuleSteps(t, t', rule) && RuleLists(t, t', rule) && s < |t.nts|
    ensures forall c: nat {:trigger c in t'.enders[s]} :: c in t'.enders[s] <==>
      c < |t'.steps| && t'.steps[c] == s - |t.nts|
    ensures forall c: nat {:trigger c in t'.predictors[s]} :: c in t'.predictors[s] <==>
      c < |t'.steps| && t'.steps[c] == s
  {
    assert Listed(t, rules, items, s);
    forall c: nat
      ensures c in t'.enders[s] <==> c < |t'.steps| && t'.steps[c] == s - |t.nts|
      ensures c in t'.predictors[s] <==> c < |t'.steps| && t'.steps[c] == s
    {
      if c < |items| {
        assert t'.steps[..|items|][c] == t.steps[c];
      } else if c < |t'.steps| {
        var k := c - |items|;
        if k < |rule.body| {
          assert rule.body[k] in rule.body && c == |t.steps| + k;
          assert t.nts[t'.steps[c]] == rule.body[k];
          if t.nts[s] == rule.body[k] { SameSymbol(t.nts, s, t'.steps[c]); }
        } else {
          if t.nts[s] == rule.head { SameSymbol(t.nts, s, t'.steps[c] + |t.nts|); }
        }
      }
    }
  }

  /** The description of the parser while it is being built. */
  class Description {
    const nts: seq<Symbol>
    const starters: array<seq<nat>>
    const enders: array<seq<nat>>
    const predictors: array<seq<nat>>
    const steps: array<int>
    const names: array<Option<Name>>

    ghost predicate Valid() {
      && Distinct(nts)
      && starters != enders && starters != predictors && enders != predictors
      && starters.Length == enders.Length == predictors.Length == |nts| <= steps.Length == names.Length
    }

    /** The arrays, those of the configurations up to conf. */
    function Upto(conf: nat): (t: Tables)
      requires Valid() && conf <= steps.Length
      reads starters, enders, predictors, steps, names
      ensures |t.steps| == |t.names| == conf
    {
      Tables(nts, starters[..], enders[..], predictors[..], steps[..conf], names[..conf])
    }

    /** Names that have not been given yet. */
    ghost predicate NoNames(conf: nat)
      requires Valid()
      reads names
    {
      forall c {:trigger names[c]} :: conf <= c < names.Length ==> names[c] == None
    }

    constructor (nts: seq<Symbol>, nbConfs: nat)
      requires Distinct(nts) && |nts| <= nbConfs
      ensures Valid() && this.nts == nts && steps.Length == nbConfs
      ensures fresh(starters) && fresh(enders) && fresh(predictors) && fresh(steps) && fresh(names)
      ensures NoNames(0)
      ensures forall s :: 0 <= s < |nts| ==> starters[s] == [] && enders[s] == [] && predictors[s] == []
    {
      this.nts := nts;
      starters := new seq<nat>[|nts|](_ => []);
      enders := new seq<nat>[|nts|](_ => []);
      predictors := new seq<nat>[|nts|](_ => []);
      steps := new int[nbConfs];
      names := new Option<Name>[nbConfs](_ => None);
    }

    /** The configurations of the categories themselves. */
    method Leaves()
      requires Valid() && NoNames(0)
      requires forall s :: 0 <= s < |nts| ==> starters[s] == [] && enders[s] == [] && predictors[s] == []
      modifies starters, enders, predictors, steps, names
      ensures TablesOk(Upto(|nts|), [], LeafItems(|nts|)) && NoNames(|nts|)
      ensures TablesOnce(Upto(|nts|), LeafItems(|nts|))
    {
      var n := |nts|;
      var i := n - 1;
      while i >= 0
        invariant -1 <= i < n && NoNames(n)
        invariant forall s :: 0 <= s < n ==> starters[s] == [] && predictors[s] == []
        invariant forall s :: i < s < n ==> enders[s] == [s] && steps[s] == s - n && names[s] == Some(Name(nts[s], 0))
      {
        steps[i] := i - n;
        names[i] := Some(Name(nts[i], 0));
        enders[i] := [i];
        i := i - 1;
      }
      ghost var t, items := Upto(n), LeafItems(n);
      forall c: nat | c < n
        ensures ItemOk([], items, n, c) && StepOk(t, [], items, c) && NameOk(t, [], items, c) && Listed(t, [], items, c)
      {
      }
    }
  
    /** The symbol of a rule at configuration conf: its category has conf among its predictors. */
    method AddSymbol(conf: nat, nt: Symbol)
      requires Valid() && nt in nts && conf < steps.Length
      modifies predictors, steps
      ensures 0 <= steps[conf] < |nts| && nts[steps[conf]] == nt
      ensures forall c {:trigger steps[c]} :: 0 <= c < steps.Length && c != conf ==> steps[c] == old(steps[c])
      ensures forall s: nat, c: nat {:trigger c in predictors[s]} :: s < |nts| ==>
        (c in predictors[s] <==> c in old(predictors[s]) || (c == conf && nts[s] == nt))
    {
      var i := Ind(nt, nts);
      steps[conf] := i.value;
      predictors[i.value] := [conf] + predictors[i.value];
      forall s: nat | s < |nts| && nts[s] == nt ensures s == i.value { SameSymbol(nts, s, i.value); }
    }

    method AddSymbols(conf: nat, body: seq<Symbol>)
      requires Valid() && conf + |body| <= steps.Length && forall k {:trigger body[k]} :: 0 <= k < |body| ==>
        body[k] in nts
      modifies predictors, steps
      ensures forall c {:trigger steps[c]} :: conf <= c < conf + |body| ==>
        0 <= steps[c] < |nts| && nts[steps[c]] == body[c - conf]
      ensures forall c {:trigger steps[c]} :: 0 <= c < conf ==> steps[c] == old(steps[c])
      ensures forall s: nat, c: nat {:trigger c in predictors[s]} :: s < |nts| ==>
        (c in predictors[s] <==> c in old(predictors[s]) || (conf <= c < conf + |body| && nts[s] == body[c - conf]))
    {
      var k := 0;
      while k < |body|
        invariant k <= |body|
        invariant forall c {:trigger steps[c]} :: conf <= c < conf + k ==>
          0 <= steps[c] < |nts| && nts[steps[c]] == body[c - conf]
        invariant forall c {:trigger steps[c]} :: 0 <= c < conf ==> steps[c] == old(steps[c])
        invariant forall s: nat, c: nat {:trigger c in predictors[s]} :: s < |nts| ==>
          (c in predictors[s] <==> c in old(predictors[s]) || (conf <= c < conf + k && nts[s] == body[c - conf]))
      {
        AddSymbol(conf + k, body[k]);
        k := k + 1;
      }
    }

    /** A rule starts at configuration conf. */
    method AddStart(conf: nat, head: Symbol, ruleNum: nat)
      requires Valid() && head in nts && conf < steps.Length
      modifies starters, names
      ensures names[conf] == Some(Name(head, ruleNum))
      ensures forall c {:trigger names[c]} :: 0 <= c < names.Length && c != conf ==> names[c] == old(names[c])
      ensures forall s: nat, c: nat {:trigger c in starters[s]} :: s < |nts| ==>
        (c in starters[s] <==> c in old(starters[s]) || (c == conf && nts[s] == head))
    {
      names[conf] := Some(Name(head, ruleNum));
      var i := Ind(head, nts);
      starters[i.value] := [conf] + starters[i.value];
      forall s: nat | s < |nts| && nts[s] == head ensures s == i.value { SameSymbol(nts, s, i.value); }
    }

    /** A rule ends at configuration conf. */
    method AddEnd(conf: nat, head: Symbol)
      requires Valid() && head in nts && conf < steps.Length
      modifies enders, steps
      ensures -|nts| <= steps[conf] < 0 && nts[steps[conf] + |nts|] == head
      ensures forall c {:trigger steps[c]} :: 0 <= c < steps.Length && c != conf ==> steps[c] == old(steps[c])
      ensures forall s: nat, c: nat {:trigger c in enders[s]} :: s < |nts| ==>
        (c in enders[s] <==> c in old(enders[s]) || (c == conf && nts[s] == head))
      ensures forall s {:trigger enders[s]} :: 0 <= s < |nts| ==>
        enders[s] == old(enders[s]) || enders[s] == [conf] + old(enders[s])
    {
      var i := Ind(head, nts);
      steps[conf] := i.value - |nts|;
      enders[i.value] := [conf] + enders[i.value];
      forall s: nat | s < |nts| && nts[s] == head ensures s == i.value { SameSymbol(nts, s, i.value); }
    }

    /** One rule, whose configurations start at conf. */
    method AddRule(conf: nat, rule: Rule) returns (next: nat)
      requires Valid() && NoNames(conf) && Mentions(nts, rule) && conf + |rule.body| < steps.Length && rule.number > 0
      modifies starters, enders, predictors, steps, names
      ensures next == conf + |rule.body| + 1 && NoNames(next)
      ensures RuleSteps(old(Upto(conf)), Upto(next), rule) && RuleLists(old(Upto(conf)), Upto(next), rule)
    {
      ghost var t := Upto(conf);
      AddStart(conf, rule.head, rule.number);
      AddSymbols(conf, rule.body);
      AddEnd(conf + |rule.body|, rule.head);
      next := conf + |rule.body| + 1;
      ghost var t' := Upto(next);
      assert RuleSteps(t, t', rule) by {
        assert t'.steps[..conf] == t.steps && t'.names[..conf] == t.names;
        forall k | 0 <= k < |rule.body|
          ensures 0 <= t'.steps[conf + k] < |nts| && nts[t'.steps[conf + k]] == rule.body[k] {
          assert t'.steps[conf + k] == steps[conf + k];
        }
      }
    }

    /** The rules of one definition, behind those of the definitions before it. */
    method AddDefinition(g: Grammar, d: nat, conf: nat, ghost items: seq<Item>)
        returns (next: nat, ghost more: seq<Item>)
      requires Valid() && d < |g| && MentionsAll(nts, Rules(g)) && steps.Length == |nts| + Confs(Rules(g))
      requires conf == |nts| + Confs(Rules(g[..d])) && NoNames(conf) && conf <= steps.Length
      requires TablesOk(Upto(conf), Rules(g[..d]), items) && TablesOnce(Upto(conf), items)
      modifies starters, enders, predictors, steps, names
      ensures next == |nts| + Confs(Rules(g[..d + 1])) <= steps.Length && NoNames(next)
      ensures TablesOk(Upto(next), Rules(g[..d + 1]), more) && TablesOnce(Upto(next), more)
    {
      RulesFirst(g, d);
      next, more := conf, items;
      var m := 0;
      while m < |g[d].bodies|
        invariant m <= |g[d].bodies| && next == |nts| + Confs(RulesUpto(g, d, m)) <= steps.Length && NoNames(next)
        invariant TablesOk(Upto(next), RulesUpto(g, d, m), more) && TablesOnce(Upto(next), more)
      {
        next, more := AddNext(g, d, m, next, more);
        m := m + 1;
      }
    }

    /** The next rule of a definition. */
    method AddNext(g: Grammar, d: nat, m: nat, conf: nat, ghost items: seq<Item>)
        returns (next: nat, ghost more: seq<Item>)
      requires Valid() && d < |g| && m < |g[d].bodies| && MentionsAll(nts, Rules(g)) &&
        steps.Length == |nts| + Confs(Rules(g))
      requires conf == |nts| + Confs(RulesUpto(g, d, m)) <= steps.Length && NoNames(conf)
      requires TablesOk(Upto(conf), RulesUpto(g, d, m), items) && TablesOnce(Upto(conf), items)
      modifies starters, enders, predictors, steps, names
      ensures next == |nts| + Confs(RulesUpto(g, d, m + 1)) <= steps.Length && NoNames(next)
      ensures TablesOk(Upto(next), RulesUpto(g, d, m + 1), more) && TablesOnce(Upto(next), more)
    {
      ghost var rules, t := RulesUpto(g, d, m), Upto(conf);
      var rule := Rule(g[d].head, g[d].bodies[m], m + 1);
      RulesNext(g, d, m);
      ConfsNext(rules, rule);
      UptoPrefix(g, d, m + 1);
      ConfsMore(RulesUpto(g, d, m + 1), Rules(g));
      assert Rules(g)[|rules|] == rule;
      next := AddRule(conf, rule);
      RuleAdded(t, Upto(next), rules, rule, items);
      OnceAdded(t, Upto(next), rules, rule, items);
      more := items + Dots(|rules|, |rule.body| + 1);
    }
  }

  /** The description before any rule. */
  method Blank(g: Grammar) returns (description: Description, ghost items: seq<Item>)
    requires g != []
    ensures description.Valid() && description.NoNames(|description.nts|) && MentionsAll(description.nts, Rules(g))
    ensures description.steps.Length == |description.nts| + Confs(Rules(g))
    ensures description.nts != [] && description.nts[0] == g[0].head && AllMentioned(description.nts, g)
    ensures fresh(description.starters) && fresh(description.enders) && fresh(description.predictors)
    ensures fresh(description.steps) && fresh(description.names)
    ensures TablesOk(description.Upto(|description.nts|), [], items)
    ensures TablesOnce(description.Upto(|description.nts|), items)
  {
    var nts := Categories(g);
    var nbConfs := CountConfs(g);
    description := new Description(nts, |nts| + nbConfs);
    description.Leaves();
    items := LeafItems(|nts|);
  }

  /** The parser description of a grammar. */
  method MakeTables(g: Grammar) returns (t: Tables, ghost items: seq<Item>)
    requires g != []
    ensures TablesOk(t, Rules(g), items) && TablesOnce(t, items) && t.nts != [] && t.nts[0] == g[0].head
    ensures AllMentioned(t.nts, g)
  {
    var description;
    description, items := Blank(g);
    var d: nat, conf: nat := 0, |description.nts|;
    assert Rules(g[..0]) == [];
    while d < |g|
      invariant d <= |g| && description.Valid() && description.NoNames(conf)
      invariant conf == |description.nts| + Confs(Rules(g[..d])) <= description.steps.Length
      invariant TablesOk(description.Upto(conf), Rules(g[..d]), items) && TablesOnce(description.Upto(conf), items)
    {
      conf, items := description.AddDefinition(g, d, conf, items);
      d := d + 1;
    }
    assert g[..d] == g;
    t := description.Upto(conf);
  }
}
