/** The parser description that earley-boyer.js makes of a grammar: configurations are dotted rules, numbered. */
module EarleyTabling {
  import opened EarleyGrammars

  datatype Option<T> = None | Some(value: T)

  /** The name of a configuration: a category and the number of one of its rules. */
  datatype Name = Name(head: Symbol, rule: nat)

  /** What a configuration stands for: a category of a token, or rule r with the dot before symbol k. */
  datatype Item = Leaf(nt: nat) | Dot(r: nat, k: nat)

  datatype Tables = Tables(
    nts: seq<Symbol>, starters: seq<seq<nat>>, enders: seq<seq<nat>>, predictors: seq<seq<nat>>, steps: seq<int>,
    names: seq<Option<Name>>)

  /** The dot moves through each rule in consecutive configurations. */
  ghost predicate ItemOk(rules: seq<Rule>, items: seq<Item>, n: nat, c: nat)
    requires c < |items|
  {
    match items[c]
    case Leaf(nt) => nt == c < n
    case Dot(r, k) =>
      && n <= c && r < |rules| && k <= |rules[r].body|
      && (k < |rules[r].body| ==> c + 1 < |items| && items[c + 1] == Dot(r, k + 1))
      && (k > 0 ==> c > 0 && items[c - 1] == Dot(r, k - 1))
      && (k == 0 && c > 0 ==> match items[c - 1] { case Leaf(_) => true case Dot(q,
        l) => q < |rules| && l == |rules[q].body| })
  }

  ghost predicate ItemsOk(rules: seq<Rule>, items: seq<Item>, n: nat) {
    && n <= |items|
    && (forall c: nat {:trigger ItemOk(rules, items, n, c)} :: c < |items| ==> ItemOk(rules, items, n, c))
    && (forall c: nat :: c < n ==> items[c] == Leaf(c))
    && (forall r: nat {:trigger rules[r]} :: r < |rules| ==> exists c: nat :: c < |items| && items[c] == Dot(r, 0))
  }

  /** The step of a configuration: the category it waits for, or the one it completes, less their number. */
  ghost predicate StepOk(t: Tables, rules: seq<Rule>, items: seq<Item>, c: nat)
    requires c < |items| == |t.steps|
  {
    var n, s := |t.nts|, t.steps[c];
    match items[c]
    case Leaf(nt) => s == nt - n
    case Dot(r, k) =>
      r < |rules| && if k < |rules[r].body| then 0 <= s < n && t.nts[s] == rules[r].body[k]
      else k == |rules[r].body| && -n <= s < 0 && t.nts[s + n] == rules[r].head
  }

  /** A configuration starts a rule of category s. */
  ghost predicate Starts(t: Tables, rules: seq<Rule>, items: seq<Item>, s: nat, c: nat) {
    && s < |t.nts| && c < |items| && items[c].Dot? && items[c].k == 0 && items[c].r < |rules| &&
      rules[items[c].r].head == t.nts[s]
  }

  ghost predicate Listed(t: Tables, rules: seq<Rule>, items: seq<Item>, s: nat)
    requires s < |t.starters| && s < |t.enders| && s < |t.predictors| && |t.steps| == |items|
  {
    && (forall c: nat {:trigger c in t.starters[s]} :: c in t.starters[s] <==> Starts(t, rules, items, s, c))
    && (forall c: nat {:trigger c in t.enders[s]} :: c in t.enders[s] <==> c < |items| && t.steps[c] == s - |t.nts|)
    && (forall c: nat {:trigger c in t.predictors[s]} :: c in t.predictors[s] <==> c < |items| && t.steps[c] == s)
  }

  /** A configuration has a name exactly when it is a category or starts a rule. */
  ghost predicate NameOk(t: Tables, rules: seq<Rule>, items: seq<Item>, c: nat)
    requires c < |items| == |t.names|
  {
    match items[c]
    case Leaf(nt) => nt < |t.nts| && t.names[c] == Some(Name(t.nts[nt], 0))
    case Dot(r, k) =>
      if k > 0 then t.names[c] == None
      else r < |rules| && rules[r].number > 0 && t.names[c] == Some(Name(rules[r].head, rules[r].number))
  }

  ghost predicate TablesOk(t: Tables, rules: seq<Rule>, items: seq<Item>) {
    var n := |t.nts|;
    && ItemsOk(rules, items, n)
    && (forall a, b :: 0 <= a < b < n ==> t.nts[a] != t.nts[b])
    && |t.starters| == |t.enders| == |t.predictors| == n && |t.steps| == |t.names| == |items|
    && (forall c: nat {:trigger StepOk(t, rules, items, c)} :: c < |items| ==> StepOk(t, rules, items, c))
    && (forall s: nat {:trigger Listed(t, rules, items, s)} :: s < n ==> Listed(t, rules, items, s))
    && (forall c: nat {:trigger NameOk(t, rules, items, c)} :: c < |items| ==> NameOk(t, rules, items, c))
  }

  ghost predicate Once<T>(l: seq<T>) {
    forall a, b :: 0 <= a < b < |l| ==> l[a] != l[b]
  }

  /** Nothing is numbered or listed twice. */
  ghost predicate TablesOnce(t: Tables, items: seq<Item>) {
    Once(items) && forall s {:trigger t.enders[s]} :: 0 <= s < |t.enders| ==> Once(t.enders[s])
  }

  /** The tests of deriv_trees and nb_deriv_trees agree. */
  lemma NameOrStart(t: Tables, rules: seq<Rule>, items: seq<Item>, c: nat)
    requires TablesOk(t, rules, items) && c < |items| && t.nts != []
    ensures t.names[c].Some? <==> c < |t.nts| || t.steps[c - 1] < 0
  {
    assert ItemOk(rules, items, |t.nts|, c) && NameOk(t, rules, items, c);
    if c >= |t.nts| && c > 0 {
      assert StepOk(t, rules, items, c - 1) && ItemOk(rules, items, |t.nts|, c - 1);
    }
  }
}
