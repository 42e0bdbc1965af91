/** The parse trees that are listed are all there are. */
module EarleyAllTrees {
  import opened EarleyGrammars
  import opened EarleyTabling
  import opened EarleySets
  import opened EarleyParsing
  import opened EarleyParses
  import opened EarleyForests

  /** The elements are those that the parses of the goal use. */
  ghost predicate Harvest(p: Input, words: seq<string>, chart: Chart, v: Elements) {
    && InputOk(p) && ChartOk(p, chart) && |words| == |p.toks| && AllFound(p, v)
    && forall c: nat, i: nat, j: nat {:trigger Holds(v, c, i, j)} ::
      Holds(v, c, i, j) <==> Useful(p, chart, c, i, j)
  }

  /** A tree derives the tokens that it spans. */
  lemma {:induction false} DerivationYields(rules: seq<Rule>, toks: Tokens, words: seq<string>, t: Tree, nt: Symbol,
      i: nat, j: nat)
    requires IsDerivation(rules, toks, words, t, nt, i, j)
    ensures Yields(rules, toks, nt, i, j)
    decreases t
  {
    if t.word.Some? {
      ByToken(rules, toks, nt, i);
    } else {
      var r: nat :| r < |rules| && rules[r].head == nt && |t.children| == |rules[r].body| &&
        Branches(rules, toks, words, t.children, rules[r].body, i, j);
      BranchesSpan(rules, toks, words, t.children, rules[r].body, i, j);
      assert rules[r].body[..|t.children|] == rules[r].body;
      ByRule(rules, toks, r, i, j);
    }
  }

  lemma {:induction false} BranchesSpan(rules: seq<Rule>, toks: Tokens, words: seq<string>, ts: seq<Tree>,
      body: seq<Symbol>, i: nat, j: nat)
    requires Branches(rules, toks, words, ts, body, i, j)
    ensures Spans(rules, toks, body[..|ts|], i, j)
    decreases ts
  {
    if ts == [] {
      assert Sequence(rules, toks, body[..0], i, j, 0);
    } else {
      var k: nat :| Fork(rules, toks, words, ts, body, i, k, j);
      BranchesSpan(rules, toks, words, ts[..|ts| - 1], body, i, k);
      DerivationYields(rules, toks, words, ts[|ts| - 1], body[|ts| - 1], k, j);
      Extend(rules, toks, body, |ts| - 1, i, k, j);
    }
  }

  /** The rule of configuration c has been started at i. */
  ghost predicate Started(p: Input, chart: Chart, c: nat, i: nat) {
    i < |chart| && c < |p.items| && match p.items[c]
    case Leaf(_) => true
    case Dot(r, k) => k <= c && p.items[c - k] == Dot(r, 0) && (c - k, i) in chart[i]
  }

  /** All rules of category s have been started at i. */
  ghost predicate AllStarted(p: Input, chart: Chart, s: nat, i: nat) {
    i < |chart| && s < |p.t.nts| && forall r: nat {:trigger p.rules[r]} ::
      r < |p.rules| && p.rules[r].head == p.t.nts[s] ==>
      exists q: nat :: q < |p.items| && p.items[q] == Dot(r, 0) && (q, i) in chart[i]
  }

  lemma WaitingStarts(p: Input, chart: Chart, c: nat, i: nat, k: nat)
    requires InputOk(p) && ChartOk(p, chart) && k < |chart| && (c, i) in chart[k] && c < |p.items| &&
      0 <= p.t.steps[c] < |p.t.nts|
    ensures AllStarted(p, chart, p.t.steps[c], k)
  {
    forall r: nat | r < |p.rules| && p.rules[r].head == p.t.nts[p.t.steps[c]]
      ensures exists q: nat :: q < |p.items| && p.items[q] == Dot(r, 0) && (q, k) in chart[k] {
      var q := StartOf(p, chart, c, i, k, r);
    }
  }

  lemma GoalStarts(p: Input, chart: Chart)
    requires InputOk(p) && ChartOk(p, chart)
    ensures AllStarted(p, chart, 0, 0)
  {
    forall r: nat | r < |p.rules| && p.rules[r].head == p.t.nts[0]
      ensures exists q: nat :: q < |p.items| && p.items[q] == Dot(r, 0) && (q, 0) in chart[0] {
      var q: nat :| q < |p.items| && p.items[q] == Dot(r, 0);
      assert EarleyTabling.Listed(p.t, p.rules, p.items, 0) && Starts(p.t, p.rules, p.items, 0, q);
      assert q in p.t.starters[0];
    }
  }

  /** The complete configuration of the rule, or of the token, at the root of a derivation. */
  lemma RootFound(p: Input, words: seq<string>, chart: Chart, s: nat, t: Tree, i: nat, j: nat) returns (e: nat)
    requires InputOk(p) && ChartOk(p, chart) && AllStarted(p, chart, s, i)
    requires IsDerivation(p.rules, p.toks, words, t, p.t.nts[s], i, j)
    ensures e in p.t.enders[s] && i <= j < |chart| && (e, i) in chart[j] && Started(p, chart, e, i) &&
      TreeOf(p, words, t, e, i, j)
  {
    assert EarleyTabling.Listed(p.t, p.rules, p.items, s);
    if t.word.Some? {
      e := s;
      assert Scanned(p, chart, j);
      assert p.items[s] == Leaf(s) && StepOk(p.t, p.rules, p.items, s);
    } else {
      var r: nat :| r < |p.rules| && p.rules[r].head == p.t.nts[s] && t.name == Name(p.t.nts[s], p.rules[r].number) &&
        |t.children| == |p.rules[r].body| && Branches(p.rules, p.toks, words, t.children, p.rules[r].body, i, j);
      var q: nat :| q < |p.items| && p.items[q] == Dot(r, 0) && (q, i) in chart[i];
      e := RuleFound(p, words, chart, r, q, t.children, i, j);
      EndStep(p, e, r, s);
    }
  }

  /** The dot has been moved over the branches. */
  lemma RuleFound(p: Input, words: seq<string>, chart: Chart, r: nat, q: nat, ts: seq<Tree>, i: nat, j: nat)
      returns (c: nat)
    requires InputOk(p) && ChartOk(p, chart) && r < |p.rules| && i < |chart|
    requires q < |p.items| && p.items[q] == Dot(r, 0) && (q, i) in chart[i]
    requires Branches(p.rules, p.toks, words, ts, p.rules[r].body, i, j)
    ensures c == q + |ts| < |p.items| && p.items[c] == Dot(r, |ts|) && i <= j < |chart| && (c, i) in chart[j]
    ensures Started(p, chart, c, i)
  {
    BranchesSpan(p.rules, p.toks, words, ts, p.rules[r].body, i, j);
    var body := p.rules[r].body[..|ts|];
    var h: nat :| Sequence(p.rules, p.toks, body, i, j, h);
    SequenceForward(p.rules, p.toks, body, i, j, h);
    AdvanceAll(p, chart, r, q, |ts|, i, j, h);
    c := q + |ts|;
  }

  /** A tree with branches: the tree without the last one, and where that starts. */
  lemma Parted(p: Input, words: seq<string>, chart: Chart, t: Tree, c: nat, i: nat, j: nat)
      returns (prev: Tree, b: Tree, k: nat)
    requires InputOk(p) && ChartOk(p, chart) && Started(p, chart, c, i) && TreeOf(p, words, t, c, i, j) && j < |chart|
    requires p.items[c].Dot? && p.items[c].k > 0
    ensures c > 0 && t == WithBranch(prev, b) && i <= k <= j && 0 <= p.t.steps[c - 1] < |p.t.nts|
    ensures (c - 1, i) in chart[k] && Started(p, chart, c - 1, i) && TreeOf(p, words, prev, c - 1, i, k)
    ensures IsDerivation(p.rules, p.toks, words, b, p.t.nts[p.t.steps[c - 1]], k, j)
  {
    var r, m := p.items[c].r, p.items[c].k;
    var ts, body := t.children, p.rules[r].body;
    assert ts != [] && Branches(p.rules, p.toks, words, ts, body, i, j);
    k :| Fork(p.rules, p.toks, words, ts, body, i, k, j);
    prev, b := Tree(t.name, None, ts[..m - 1]), ts[m - 1];
    assert ts == ts[..m - 1] + [b];
    var c' := RuleFound(p, words, chart, r, c - m, prev.children, i, k);
    assert StepOk(p.t, p.rules, p.items, c - 1);
    DerivationYields(p.rules, p.toks, words, b, body[m - 1], k, j);
    var h: nat :| Derives(p.rules, p.toks, body[m - 1], k, j, h);
    DerivesForward(p.rules, p.toks, body[m - 1], k, j, h);
  }

  lemma {:induction false} JoinOneHas(branch: Tree, trees: seq<Tree>, acc: seq<Tree>)
    ensures forall t :: t in acc ==> t in JoinOne(branch, trees, acc)
    ensures forall prev :: prev in trees ==> WithBranch(prev, branch) in JoinOne(branch, trees, acc)
    decreases |trees|
  {
    if trees != [] {
      var more := [WithBranch(trees[0], branch)] + acc;
      JoinOneHas(branch, trees[1..], more);
      assert WithBranch(trees[0], branch) in more;
      assert forall t :: t in acc ==> t in more;
      assert forall prev :: prev in trees ==> prev == trees[0] || prev in trees[1..];
    }
  }

  lemma {:induction false} JoinHas(branches: seq<Tree>, trees: seq<Tree>, acc: seq<Tree>)
    ensures forall t :: t in acc ==> t in Join(branches, trees, acc)
    ensures forall prev, b {:trigger WithBranch(prev, b)} :: prev in trees && b in branches ==>
      WithBranch(prev, b) in Join(branches, trees, acc)
    decreases |branches|
  {
    if branches != [] {
      JoinOneHas(branches[0], trees, acc);
      JoinHas(branches[1..], trees, JoinOne(branches[0], trees, acc));
      assert forall b :: b in branches ==> b == branches[0] || b in branches[1..];
    }
  }

  /** Trees that are in the list stay in it. */
  lemma {:induction false} PlacesKeep(p: Input, words: seq<string>, v: Elements, c: nat, i: nat, j: nat, e: nat,
      ks: seq<nat>, acc: seq<Tree>, fuel: nat)
    requires InputOk(p) && |words| == |p.toks| && AllFound(p, v) && j < |v| && c > 0
    requires forall k :: k in ks ==> Holds(v, e, k, j)
    requires PlaceTrees(p, words, v, c, i, j, e, ks, acc, fuel).Some?
    ensures forall t :: t in acc ==> t in PlaceTrees(p, words, v, c, i, j, e, ks, acc, fuel).value
    decreases |ks|
  {
    if ks != [] {
      var k := ks[0];
      assert Holds(v, e, k, j);
      if k >= i && c - 1 in v[k] && i in v[k][c - 1] {
        var prevs, branches := Trees(p, words, v, c - 1, i, k, fuel).value, Trees(p, words, v, e, k, j, fuel).value;
        JoinHas(branches, prevs, acc);
        PlacesKeep(p, words, v, c, i, j, e, ks[1..], Join(branches, prevs, acc), fuel);
      } else {
        PlacesKeep(p, words, v, c, i, j, e, ks[1..], acc, fuel);
      }
    }
  }

  lemma {:induction false} EndersKeep(p: Input, words: seq<string>, v: Elements, c: nat, i: nat, j: nat,
      l: seq<nat>, acc: seq<Tree>, fuel: nat)
    requires InputOk(p) && |words| == |p.toks| && AllFound(p, v) && j < |v| && c > 0
    requires EnderTrees(p, words, v, c, i, j, l, acc, fuel).Some?
    ensures forall t :: t in acc ==> t in EnderTrees(p, words, v, c, i, j, l, acc, fuel).value
    decreases |l|
  {
    if l != [] {
      if l[0] !in v[j] {
        EndersKeep(p, words, v, c, i, j, l[1..], acc, fuel);
      } else {
        PlacesKeep(p, words, v, c, i, j, l[0], v[j][l[0]], acc, fuel);
        EndersKeep(p, words, v, c, i, j, l[1..],
          PlaceTrees(p, words, v, c, i, j, l[0], v[j][l[0]], acc, fuel).value, fuel);
      }
    }
  }

  /** The trees put together at place k are in the list. */
  lemma {:induction false} PlacesHave(p: Input, words: seq<string>, v: Elements, c: nat, i: nat, j: nat, e: nat,
      ks: seq<nat>, acc: seq<Tree>, fuel: nat, k: nat)
    requires InputOk(p) && |words| == |p.toks| && AllFound(p, v) && j < |v| && c > 0
    requires forall k :: k in ks ==> Holds(v, e, k, j)
    requires PlaceTrees(p, words, v, c, i, j, e, ks, acc, fuel).Some?
    requires k in ks && i <= k && Holds(v, c - 1, i, k)
    ensures Holds(v, e, k, j) && Trees(p, words, v, c - 1, i, k, fuel).Some? && Trees(p, words, v, e, k, j, fuel).Some?
    ensures forall prev, b {:trigger WithBranch(prev, b)} ::
      prev in Trees(p, words, v, c - 1, i, k, fuel).value && b in Trees(p, words, v, e, k, j, fuel).value ==>
      WithBranch(prev, b) in PlaceTrees(p, words, v, c, i, j, e, ks, acc, fuel).value
    decreases |ks|
  {
    var k0 := ks[0];
    assert Holds(v, e, k0, j);
    if k0 >= i && c - 1 in v[k0] && i in v[k0][c - 1] {
      var prevs, branches := Trees(p, words, v, c - 1, i, k0, fuel).value, Trees(p, words, v, e, k0, j, fuel).value;
      var more := Join(branches, prevs, acc);
      if k == k0 {
        JoinHas(branches, prevs, acc);
        PlacesKeep(p, words, v, c, i, j, e, ks[1..], more, fuel);
      } else {
        PlacesHave(p, words, v, c, i, j, e, ks[1..], more, fuel, k);
      }
    } else {
      PlacesHave(p, words, v, c, i, j, e, ks[1..], acc, fuel, k);
    }
  }

  lemma {:induction false} EndersHave(p: Input, words: seq<string>, v: Elements, c: nat, i: nat, j: nat,
      l: seq<nat>, acc: seq<Tree>, fuel: nat, e: nat, k: nat)
    requires InputOk(p) && |words| == |p.toks| && AllFound(p, v) && j < |v| && c > 0
    requires EnderTrees(p, words, v, c, i, j, l, acc, fuel).Some?
    requires e in l && Holds(v, e, k, j) && i <= k && Holds(v, c - 1, i, k)
    ensures Trees(p, words, v, c - 1, i, k, fuel).Some? && Trees(p, words, v, e, k, j, fuel).Some?
    ensures forall prev, b {:trigger WithBranch(prev, b)} ::
      prev in Trees(p, words, v, c - 1, i, k, fuel).value && b in Trees(p, words, v, e, k, j, fuel).value ==>
      WithBranch(prev, b) in EnderTrees(p, words, v, c, i, j, l, acc, fuel).value
    decreases |l|
  {
    if l[0] !in v[j] {
      EndersHave(p, words, v, c, i, j, l[1..], acc, fuel, e, k);
    } else {
      var more := PlaceTrees(p, words, v, c, i, j, l[0], v[j][l[0]], acc, fuel).value;
      if l[0] == e {
        PlacesHave(p, words, v, c, i, j, e, v[j][e], acc, fuel, k);
        EndersKeep(p, words, v, c, i, j, l[1..], more, fuel);
      } else {
        EndersHave(p, words, v, c, i, j, l[1..], more, fuel, e, k);
      }
    }
  }

  ghost predicate OpenEnds(u: int) { true }

  ghost predicate OpenList(u: int) { true }

  /** t is a tree of an element that is held. */
  ghost predicate Belongs(p: Input, words: seq<string>, chart: Chart, v: Elements, t: Tree, c: nat, i: nat, j: nat) {
    forall u {:trigger Unlock(u)} :: Unlock(u) ==>
      && Harvest(p, words, chart, v) && Holds(v, c, i, j) && j < |chart| && Started(p, chart, c, i)
      && TreeOf(p, words, t, c, i, j)
  }

  /** The recursion for element i of c at j ends. */
  ghost predicate Ending(p: Input, words: seq<string>, v: Elements, c: nat, i: nat, j: nat, fuel: nat) {
    && InputOk(p) && |words| == |p.toks| && AllFound(p, v) && Holds(v, c, i, j)
    && Trees(p, words, v, c, i, j, fuel).Some?
  }

  ghost predicate Ends(p: Input, words: seq<string>, v: Elements, c: nat, i: nat, j: nat, fuel: nat) {
    forall u {:trigger OpenEnds(u)} :: OpenEnds(u) ==> Ending(p, words, v, c, i, j, fuel)
  }

  ghost predicate IsListed(p: Input, words: seq<string>, v: Elements, t: Tree, c: nat, i: nat, j: nat, fuel: nat) {
    forall u {:trigger OpenList(u)} :: OpenList(u) && Ending(p, words, v, c, i, j, fuel) ==>
      t in Trees(p, words, v, c, i, j, fuel).value
  }

  /** The last branch of t is the tree b of e, from place k on. */
  ghost predicate Parts(p: Input, t: Tree, prev: Tree, b: Tree, c: nat, i: nat, k: nat, e: nat) {
    && 0 < c <= |p.t.steps| && 0 <= p.t.steps[c - 1] < |p.t.nts| == |p.t.enders| && e in p.t.enders[p.t.steps[c - 1]]
    && t == WithBranch(prev, b) && i <= k
  }

  /** The parts of a tree belong to elements that are held. */
  lemma PartsHeld(p: Input, words: seq<string>, chart: Chart, v: Elements, t: Tree, c: nat, i: nat, j: nat)
      returns (prev: Tree, b: Tree, k: nat, e: nat)
    requires Belongs(p, words, chart, v, t, c, i, j) && c < |p.items| && p.items[c].Dot? && p.items[c].k > 0
    ensures Parts(p, t, prev, b, c, i, k, e) && Holds(v, c - 1, i, k) && Holds(v, e, k, j)
    ensures Belongs(p, words, chart, v, prev, c - 1, i, k) && Belongs(p, words, chart, v, b, e, k, j)
  {
    assert Unlock(0);
    assert ItemOk(p.rules, p.items, |p.t.nts|, c);
    prev, b, k := Parted(p, words, chart, t, c, i, j);
    WaitingStarts(p, chart, c - 1, i, k);
    e := RootFound(p, words, chart, p.t.steps[c - 1], b, k, j);
    assert Joint(p, chart, c, i, k, e, j);
    UsefulParts(p, chart, c, i, k, e, j);
  }

  /** A tree without branches is the only one in its list. */
  lemma BareListed(p: Input, words: seq<string>, chart: Chart, v: Elements, t: Tree, c: nat, i: nat, j: nat, fuel: nat)
    requires Belongs(p, words, chart, v, t, c, i, j) && Ends(p, words, v, c, i, j, fuel)
    requires c < |p.items| && (p.items[c].Dot? ==> p.items[c].k == 0)
    ensures IsListed(p, words, v, t, c, i, j, fuel)
  {
    assert Unlock(0) && OpenEnds(0) && OpenList(0);
    assert NameOk(p.t, p.rules, p.items, c) && ItemOk(p.rules, p.items, |p.t.nts|, c);
  }

  /** If the recursion ends, it ends for the parts. */
  lemma PartsEnd(p: Input, words: seq<string>, v: Elements, t: Tree, prev: Tree, b: Tree, c: nat, i: nat, j: nat,
      e: nat, k: nat, fuel: nat)
    requires Ends(p, words, v, c, i, j, fuel) && c < |p.items| && p.items[c].Dot? && p.items[c].k > 0
    requires Parts(p, t, prev, b, c, i, k, e)
    requires Holds(v, c - 1, i, k) && Holds(v, e, k, j)
    ensures fuel > 0 && Ends(p, words, v, c - 1, i, k, fuel - 1) && Ends(p, words, v, e, k, j, fuel - 1)
    ensures IsListed(p, words, v, prev, c - 1, i, k, fuel - 1) && IsListed(p, words, v, b, e, k, j, fuel - 1) ==>
      IsListed(p, words, v, t, c, i, j, fuel)
  {
    assert Unlock(0) && OpenEnds(0) && OpenList(0);
    assert NameOk(p.t, p.rules, p.items, c);
    Waits(p, c);
    EndersHave(p, words, v, c, i, j, p.t.enders[p.t.steps[c - 1]], [], fuel - 1, e, k);
  }

  lemma BelongsHolds(p: Input, words: seq<string>, chart: Chart, v: Elements, t: Tree, c: nat, i: nat, j: nat)
    requires Belongs(p, words, chart, v, t, c, i, j)
    ensures c < |p.items| && Holds(v, c, i, j)
  {
    assert Unlock(0);
  }

  /** Every tree of a configuration that a parse uses is in its list. */
  lemma {:induction false} TreeListed(p: Input, words: seq<string>, chart: Chart, v: Elements, t: Tree, c: nat, i: nat,
      j: nat, fuel: nat)
    requires Belongs(p, words, chart, v, t, c, i, j) && Ends(p, words, v, c, i, j, fuel)
    ensures IsListed(p, words, v, t, c, i, j, fuel)
    decreases fuel
  {
    BelongsHolds(p, words, chart, v, t, c, i, j);
    if p.items[c].Dot? && p.items[c].k > 0 {
      var prev, b, k, e := PartsHeld(p, words, chart, v, t, c, i, j);
      PartsEnd(p, words, v, t, prev, b, c, i, j, e, k, fuel);
      TreeListed(p, words, chart, v, prev, c - 1, i, k, fuel - 1);
      TreeListed(p, words, chart, v, b, e, k, j, fuel - 1);
    } else {
      BareListed(p, words, chart, v, t, c, i, j, fuel);
    }
  }

  /** All complete configurations of a category that were found there are used. */
  ghost predicate AllUsed(p: Input, chart: Chart, s: nat, i: nat, j: nat)
    requires s < |p.t.enders| && j < |chart|
  {
    forall e: nat {:trigger e in p.t.enders[s]} :: e in p.t.enders[s] && (e, i) in chart[j] ==>
      Useful(p, chart, e, i, j)
  }

  lemma JointUsed(p: Input, chart: Chart, c: nat, i: nat, k: nat, e: nat, j: nat, s: nat)
    requires InputOk(p) && ChartOk(p, chart) && s < |p.t.nts| && Useful(p, chart, c, i, j) && j < |chart|
    requires Joint(p, chart, c, i, k, e, j) && p.t.steps[c - 1] == s
    ensures AllStarted(p, chart, s, k) && AllUsed(p, chart, s, k, j)
  {
    WaitingStarts(p, chart, c - 1, i, k);
    forall e': nat | e' in p.t.enders[s] && (e', k) in chart[j] ensures Useful(p, chart, e', k, j) {
      assert Joint(p, chart, c, i, k, e', j);
      UsefulParts(p, chart, c, i, k, e', j);
    }
  }

  lemma GoalUsed(p: Input, chart: Chart)
    requires InputOk(p) && ChartOk(p, chart)
    ensures AllStarted(p, chart, 0, 0) && AllUsed(p, chart, 0, 0, |chart| - 1)
  {
    GoalStarts(p, chart);
    forall e: nat | e in p.t.enders[0] && (e, 0) in chart[|chart| - 1] ensures Useful(p, chart, e, 0, |chart| - 1) {
      assert Used(p, chart, e, 0, |chart| - 1, 1);
    }
  }

  /** If a parse uses one complete configuration of a category, it may use each of them. */
  lemma Siblings(p: Input, chart: Chart, s: nat, e: nat, i: nat, j: nat)
    requires InputOk(p) && ChartOk(p, chart) && s < |p.t.nts| && e in p.t.enders[s] && j < |chart|
    requires Useful(p, chart, e, i, j)
    ensures AllStarted(p, chart, s, i) && AllUsed(p, chart, s, i, j)
  {
    assert EarleyTabling.Listed(p.t, p.rules, p.items, s);
    var h: nat :| Used(p, chart, e, i, j, h);
    if c: nat, i': nat {:trigger Joint(p, chart, c, i', i, e, j)} :|
      Used(p, chart, c, i', j, h - 1) && Joint(p, chart, c, i', i, e, j) {
      assert EarleyTabling.Listed(p.t, p.rules, p.items, p.t.steps[c - 1]);
      JointUsed(p, chart, c, i', i, e, j, s);
    } else {
      assert EarleyTabling.Listed(p.t, p.rules, p.items, 0);
      GoalUsed(p, chart);
    }
  }

  ghost predicate Includes(a: seq<Tree>, b: seq<Tree>) {
    forall t :: t in a ==> t in b
  }

  /** The list of a category has the lists of its complete configurations, and only those. */
  lemma {:induction false} CategoryHas(p: Input, words: seq<string>, v: Elements, l: seq<nat>, i: nat, j: nat,
      acc: seq<Tree>, fuel: nat)
    requires InputOk(p) && |words| == |p.toks| && AllFound(p, v) && j < |v|
    requires CategoryTrees(p, words, v, l, i, j, acc, fuel).Some?
    ensures Includes(acc, CategoryTrees(p, words, v, l, i, j, acc, fuel).value)
    ensures forall e {:trigger e in l} :: e in l && Holds(v, e, i, j) ==>
      Trees(p, words, v, e, i, j, fuel).Some? &&
      Includes(Trees(p, words, v, e, i, j, fuel).value, CategoryTrees(p, words, v, l, i, j, acc, fuel).value)
    ensures (forall e {:trigger e in l} :: e in l ==> !Holds(v, e, i, j)) ==>
      CategoryTrees(p, words, v, l, i, j, acc, fuel).value == acc
    decreases |l|
  {
    if l != [] {
      assert forall e :: e in l <==> e == l[0] || e in l[1..];
      var more := if l[0] in v[j] && i in v[j][l[0]] then
        (assert Holds(v, l[0], i, j); Trees(p, words, v, l[0], i, j, fuel).value) + acc else acc;
      CategoryHas(p, words, v, l[1..], i, j, more, fuel);
      assert Includes(acc, more);
      assert l[0] in l;
      assert forall e {:trigger e in l[1..]} :: e in l[1..] ==> e in l;
      assert Holds(v, l[0], i, j) <==> l[0] in v[j] && i in v[j][l[0]];
    }
  }

  /** A derivation of a category that is part of a parse is in the list. */
  lemma DerivationListed(p: Input, words: seq<string>, chart: Chart, v: Elements, s: nat, i: nat, j: nat, fuel: nat,
      t: Tree)
    requires Harvest(p, words, chart, v) && s < |p.t.nts| && j < |v| == |chart|
    requires PartOfParse(p, chart, p.t.nts[s], i, j) && IsDerivation(p.rules, p.toks, words, t, p.t.nts[s], i, j)
    requires CategoryTrees(p, words, v, p.t.enders[s], i, j, [], fuel).Some?
    ensures t in CategoryTrees(p, words, v, p.t.enders[s], i, j, [], fuel).value
  {
    var s': nat, e0: nat {:trigger p.t.nts[s'], Useful(p, chart, e0, i, j)} :| s' < |p.t.nts| &&
      p.t.nts[s'] == p.t.nts[s] && e0 in p.t.enders[s'] && Useful(p, chart, e0, i, j);
    SameSymbol(p.t.nts, s, s');
    Siblings(p, chart, s, e0, i, j);
    var e := RootFound(p, words, chart, s, t, i, j);
    CategoryHas(p, words, v, p.t.enders[s], i, j, [], fuel);
    assert e in p.t.enders[s] && Useful(p, chart, e, i, j);
    assert Holds(v, e, i, j) <==> Useful(p, chart, e, i, j);
    TreeListed(p, words, chart, v, t, e, i, j, fuel);
    assert OpenList(0);
  }

  /** The list of a category has exactly its derivations, if a parse of the goal uses the category there. */
  lemma ExactlyDerivations(p: Input, words: seq<string>, chart: Chart, v: Elements, s: nat, i: nat, j: nat, fuel: nat)
    requires Harvest(p, words, chart, v) && s < |p.t.nts| && j < |v| == |chart|
    requires CategoryTrees(p, words, v, p.t.enders[s], i, j, [], fuel).Some?
    ensures forall t {:trigger t in CategoryTrees(p, words, v, p.t.enders[s], i, j, [], fuel).value} ::
      t in CategoryTrees(p, words, v, p.t.enders[s], i, j, [], fuel).value <==>
      PartOfParse(p, chart, p.t.nts[s], i, j) && IsDerivation(p.rules, p.toks, words, t, p.t.nts[s], i, j)
  {
    var list := CategoryTrees(p, words, v, p.t.enders[s], i, j, [], fuel).value;
    assert EarleyTabling.Listed(p.t, p.rules, p.items, s);
    CategoryDerives(p, words, v, s, p.t.enders[s], i, j, [], fuel);
    CategoryHas(p, words, v, p.t.enders[s], i, j, [], fuel);
    forall t ensures t in list <==>
      PartOfParse(p, chart, p.t.nts[s], i, j) && IsDerivation(p.rules, p.toks, words, t, p.t.nts[s], i, j)
    {
      if t in list {
        var e :| e in p.t.enders[s] && Holds(v, e, i, j);
        assert Useful(p, chart, e, i, j) && p.t.nts[s] == p.t.nts[s];
      } else if PartOfParse(p, chart, p.t.nts[s], i, j) &&
        IsDerivation(p.rules, p.toks, words, t, p.t.nts[s], i, j) {
        DerivationListed(p, words, chart, v, s, i, j, fuel, t);
      }
    }
  }
}
