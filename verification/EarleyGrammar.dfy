/** What the Earley parser of earley-boyer.js is about: grammars, tokens and derivations. */
module EarleyGrammars {
  type Symbol = string

  /** One rule of the grammar, which lists the rules of a category together and numbers them from 1. */
  datatype Rule = Rule(head: Symbol, body: seq<Symbol>, number: nat)

  datatype Definition = Definition(head: Symbol, bodies: seq<seq<Symbol>>)

  type Grammar = seq<Definition>

  /** The categories the lexer gives each token. */
  type Tokens = seq<seq<Symbol>>

  ghost function RulesOf(d: Definition, n: nat): seq<Rule>
    requires n <= |d.bodies|
  {
    seq(n, k requires 0 <= k < n => Rule(d.head, d.bodies[k], k + 1))
  }

  /** All rules, in the order of the grammar. */
  ghost function Rules(g: Grammar): seq<Rule> {
    if g == [] then [] else Rules(g[..|g| - 1]) + RulesOf(g[|g| - 1], |g[|g| - 1].bodies|)
  }

  /** nt derives the tokens from i up to j, by a derivation of height h at most. */
  ghost predicate Derives(rules: seq<Rule>, toks: Tokens, nt: Symbol, i: nat, j: nat, h: nat)
    decreases h, 0
  {
    && h > 0
    && ((i < |toks| && j == i + 1 && nt in toks[i])
      || exists r {:trigger rules[r]} ::
        0 <= r < |rules| && rules[r].head == nt && Sequence(rules, toks, rules[r].body, i, j, h - 1))
  }

  /** The symbols derive the tokens from i up to j, one after the other. */
  ghost predicate Sequence(rules: seq<Rule>, toks: Tokens, body: seq<Symbol>, i: nat, j: nat, h: nat)
    decreases h, 2 * |body| + 1
  {
    if body == [] then i == j
    else exists k: nat :: Split(rules, toks, body, i, k, j, h)
  }

  ghost predicate Split(rules: seq<Rule>, toks: Tokens, body: seq<Symbol>, i: nat, k: nat, j: nat, h: nat)
    requires body != []
    decreases h, 2 * |body|
  {
    Sequence(rules, toks, body[..|body| - 1], i, k, h) && Derives(rules, toks, body[|body| - 1], k, j, h)
  }

  /** Higher derivations are derivations. */
  lemma {:induction false} DerivesMore(rules: seq<Rule>, toks: Tokens, nt: Symbol, i: nat, j: nat, h: nat, h': nat)
    requires Derives(rules, toks, nt, i, j, h) && h <= h'
    ensures Derives(rules, toks, nt, i, j, h')
    decreases h, 0
  {
    if !(i < |toks| && j == i + 1 && nt in toks[i]) {
      var r :| 0 <= r < |rules| && rules[r].head == nt && Sequence(rules, toks, rules[r].body, i, j, h - 1);
      SequenceMore(rules, toks, rules[r].body, i, j, h - 1, h' - 1);
    }
  }

  lemma {:induction false} SequenceMore(rules: seq<Rule>, toks: Tokens, body: seq<Symbol>, i: nat, j: nat, h: nat,
      h': nat)
    requires Sequence(rules, toks, body, i, j, h) && h <= h'
    ensures Sequence(rules, toks, body, i, j, h')
    decreases h, 2 * |body| + 1
  {
    if body != [] {
      var k: nat :| Split(rules, toks, body, i, k, j, h);
      SequenceMore(rules, toks, body[..|body| - 1], i, k, h, h');
      DerivesMore(rules, toks, body[|body| - 1], k, j, h, h');
      assert Split(rules, toks, body, i, k, j, h');
    }
  }

  /** A derivation does not run backwards, nor past the tokens. */
  lemma {:induction false} DerivesForward(rules: seq<Rule>, toks: Tokens, nt: Symbol, i: nat, j: nat, h: nat)
    requires Derives(rules, toks, nt, i, j, h) && i <= |toks|
    ensures i <= j <= |toks|
    decreases h, 0
  {
    if !(i < |toks| && j == i + 1 && nt in toks[i]) {
      var r :| 0 <= r < |rules| && rules[r].head == nt && Sequence(rules, toks, rules[r].body, i, j, h - 1);
      SequenceForward(rules, toks, rules[r].body, i, j, h - 1);
    }
  }

  lemma {:induction false} SequenceForward(rules: seq<Rule>, toks: Tokens, body: seq<Symbol>, i: nat, j: nat, h: nat)
    requires Sequence(rules, toks, body, i, j, h) && i <= |toks|
    ensures i <= j <= |toks|
    decreases h, 2 * |body| + 1
  {
    if body != [] {
      var k: nat :| Split(rules, toks, body, i, k, j, h);
      SequenceForward(rules, toks, body[..|body| - 1], i, k, h);
      DerivesForward(rules, toks, body[|body| - 1], k, j, h);
    }
  }

  /** nt derives the tokens from i up to j. */
  ghost predicate Yields(rules: seq<Rule>, toks: Tokens, nt: Symbol, i: nat, j: nat) {
    exists h: nat :: Derives(rules, toks, nt, i, j, h)
  }

  ghost predicate Spans(rules: seq<Rule>, toks: Tokens, body: seq<Symbol>, i: nat, j: nat) {
    exists h: nat :: Sequence(rules, toks, body, i, j, h)
  }

  /** One more symbol behind a sequence. */
  lemma Extend(rules: seq<Rule>, toks: Tokens, body: seq<Symbol>, m: nat, i: nat, k: nat, j: nat)
    requires m < |body| && Spans(rules, toks, body[..m], i, k) && Yields(rules, toks, body[m], k, j)
    ensures Spans(rules, toks, body[..m + 1], i, j)
  {
    var h: nat :| Sequence(rules, toks, body[..m], i, k, h);
    var h': nat :| Derives(rules, toks, body[m], k, j, h');
    var H := if h < h' then h' else h;
    SequenceMore(rules, toks, body[..m], i, k, h, H);
    DerivesMore(rules, toks, body[m], k, j, h', H);
    var longer := body[..m + 1];
    assert longer[..|longer| - 1] == body[..m];
    assert Split(rules, toks, longer, i, k, j, H);
    assert Sequence(rules, toks, longer, i, j, H);
  }

  /** A rule whose symbols span the tokens gives a derivation of its head. */
  lemma ByRule(rules: seq<Rule>, toks: Tokens, r: nat, i: nat, j: nat)
    requires r < |rules| && Spans(rules, toks, rules[r].body, i, j)
    ensures Yields(rules, toks, rules[r].head, i, j)
  {
    var h: nat :| Sequence(rules, toks, rules[r].body, i, j, h);
    assert Derives(rules, toks, rules[r].head, i, j, h + 1);
  }

  /** A token is a derivation of each of its categories. */
  lemma ByToken(rules: seq<Rule>, toks: Tokens, nt: Symbol, i: nat)
    requires i < |toks| && nt in toks[i]
    ensures Yields(rules, toks, nt, i, i + 1)
  {
    assert Derives(rules, toks, nt, i, i + 1, 1);
  }
}
