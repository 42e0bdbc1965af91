/** The parse trees that the parser lists, and how many there are. */
module EarleyForests {
  import opened EarleyGrammars
  import opened EarleyTabling
  import opened EarleyParsing

  /** A tree: the name of its category, the word of a token, and the trees of the symbols of a rule. */
  datatype Tree = Tree(name: Name, word: Option<string>, children: seq<Tree>)

  /** t is a derivation of nt from the tokens from i up to j. */
  ghost predicate IsDerivation(rules: seq<Rule>, toks: Tokens, words: seq<string>, t: Tree, nt: Symbol, i: nat, j: nat)
    decreases t, 1
  {
    match t.word
    case Some(word) =>
      && t.name == Name(nt, 0) && t.children == []
      && i < |toks| && i < |words| && j == i + 1 && nt in toks[i] && word == words[i]
    case None => exists r {:trigger rules[r]} ::
      && 0 <= r < |rules| && rules[r].head == nt && t.name == Name(nt, rules[r].number)
      && |t.children| == |rules[r].body| && Branches(rules, toks, words, t.children, rules[r].body, i, j)
  }

  /** The trees derive the first symbols of a rule, one after the other. */
  ghost predicate Branches(rules: seq<Rule>, toks: Tokens, words: seq<string>, ts: seq<Tree>, body: seq<Symbol>,
      i: nat, j: nat)
    decreases ts, 1
  {
    |ts| <= |body| && if ts == [] then i == j else exists k: nat :: Fork(rules, toks, words, ts, body, i, k, j)
  }

  ghost predicate Fork(rules: seq<Rule>, toks: Tokens, words: seq<string>, ts: seq<Tree>, body: seq<Symbol>, i: nat,
      k: nat, j: nat)
    requires ts != [] && |ts| <= |body|
    decreases ts, 0
  {
    && Branches(rules, toks, words, ts[..|ts| - 1], body, i, k)
    && IsDerivation(rules, toks, words, ts[|ts| - 1], body[|ts| - 1], k, j)
  }

  /** The elements of each configuration in each state, in the order of their links. */
  type Elements = seq<map<nat, seq<nat>>>

  ghost predicate Holds(v: Elements, c: nat, i: nat, j: nat) {
    j < |v| && c in v[j] && i in v[j][c]
  }

  /** What the states hold has been found. */
  ghost predicate AllFound(p: Input, v: Elements) {
    forall c: nat, i: nat, j: nat {:trigger Holds(v, c, i, j)} :: Holds(v, c, i, j) ==>
      c < |p.items| && i <= j && Found(p, c, i, j)
  }

  /** t belongs to element i of c at j: all of a derivation, or the part before the dot. */
  ghost predicate TreeOf(p: Input, words: seq<string>, t: Tree, c: nat, i: nat, j: nat) {
    c < |p.items| && match p.items[c]
    case Leaf(nt) => nt < |p.t.nts| && t.word.Some? && IsDerivation(p.rules, p.toks, words, t, p.t.nts[nt], i, j)
    case Dot(r, k) =>
      && r < |p.rules| && t.name == Name(p.rules[r].head, p.rules[r].number) && t.word == None
      && k <= |p.rules[r].body| && |t.children| == k
      && Branches(p.rules, p.toks, words, t.children, p.rules[r].body, i, j)
  }

  /** A configuration without a name comes after one that waits for a category. */
  lemma Waits(p: Input, c: nat)
    requires InputOk(p) && c < |p.items| && p.t.names[c] == None
    ensures c > 0 && 0 <= p.t.steps[c - 1] < |p.t.nts|
    ensures forall e {:trigger e in p.t.enders[p.t.steps[c - 1]]} :: e in p.t.enders[p.t.steps[c - 1]] ==>
      e < |p.items| && p.t.steps[e] == p.t.steps[c - 1] - |p.t.nts|
  {
    assert NameOk(p.t, p.rules, p.items, c) && ItemOk(p.rules, p.items, |p.t.nts|, c);
    assert StepOk(p.t, p.rules, p.items, c - 1) && ItemOk(p.rules, p.items, |p.t.nts|, c - 1);
    assert Listed(p.t, p.rules, p.items, p.t.steps[c - 1]);
  }

  function WithBranch(t: Tree, branch: Tree): Tree {
    t.(children := t.children + [branch])
  }

  /** One more branch for each of the trees, in front of those there are. */
  function JoinOne(branch: Tree, trees: seq<Tree>, acc: seq<Tree>): (r: seq<Tree>)
    ensures |r| == |trees| + |acc|
    ensures forall t :: t in r ==> t in acc || exists prev :: prev in trees && t == WithBranch(prev, branch)
  {
    if trees == [] then acc else JoinOne(branch, trees[1..], [WithBranch(trees[0], branch)] + acc)
  }

  /** Each branch with each of the trees. */
  function Join(branches: seq<Tree>, trees: seq<Tree>, acc: seq<Tree>): (r: seq<Tree>)
    ensures |r| == |branches| * |trees| + |acc|
    ensures forall t :: t in r ==> t in acc || exists prev, b {:trigger WithBranch(prev, b)} ::
      prev in trees && b in branches && t == WithBranch(prev, b)
  {
    if branches == [] then acc
    else
      assert |branches| * |trees| == |branches[1..]| * |trees| + |trees|;
      Join(branches[1..], trees, JoinOne(branches[0], trees, acc))
  }

  /** deriv_trees: the trees of element i of c at j, or nothing if the recursion is deeper than fuel. */
  function Trees(p: Input, words: seq<string>, v: Elements, c: nat, i: nat, j: nat, fuel: nat): Option<seq<Tree>>
    requires InputOk(p) && |words| == |p.toks| && AllFound(p, v) && Holds(v, c, i, j)
    decreases fuel, 0
  {
    if fuel == 0 then None
    else match p.t.names[c]
      case Some(name) =>
        Some([Tree(name, if c < |p.t.nts| then (assert p.items[c] == Leaf(c); Some(words[i])) else None, [])])
      case None =>
        Waits(p, c);
        EnderTrees(p, words, v, c, i, j, p.t.enders[p.t.steps[c - 1]], [], fuel - 1)
  }

  function EnderTrees(p: Input, words: seq<string>, v: Elements, c: nat, i: nat, j: nat, l: seq<nat>, acc: seq<Tree>,
      fuel: nat): Option<seq<Tree>>
    requires InputOk(p) && |words| == |p.toks| && AllFound(p, v) && j < |v| && c > 0
    decreases fuel, 2, |l|
  {
    if l == [] then Some(acc)
    else if l[0] !in v[j] then EnderTrees(p, words, v, c, i, j, l[1..], acc, fuel)
    else
      var here := PlaceTrees(p, words, v, c, i, j, l[0], v[j][l[0]], acc, fuel);
      if here.None? then None else EnderTrees(p, words, v, c, i, j, l[1..], here.value, fuel)
  }

  function PlaceTrees(p: Input, words: seq<string>, v: Elements, c: nat, i: nat, j: nat, e: nat, ks: seq<nat>,
      acc: seq<Tree>, fuel: nat): Option<seq<Tree>>
    requires InputOk(p) && |words| == |p.toks| && AllFound(p, v) && j < |v| && c > 0
    requires forall k :: k in ks ==> Holds(v, e, k, j)
    decreases fuel, 1, |ks|
  {
    if ks == [] then Some(acc)
    else
      var k := ks[0];
      assert Holds(v, e, k, j);
      if k >= i && c - 1 in v[k] && i in v[k][c - 1] then
        var prevs, branches := Trees(p, words, v, c - 1, i, k, fuel), Trees(p, words, v, e, k, j, fuel);
        if prevs.None? || branches.None? then None
        else PlaceTrees(p, words, v, c, i, j, e, ks[1..], Join(branches.value, prevs.value, acc), fuel)
      else PlaceTrees(p, words, v, c, i, j, e, ks[1..], acc, fuel)
  }

  /** nb_deriv_trees: the same recursion, which only counts. */
  function Count(p: Input, v: Elements, c: nat, i: nat, j: nat, fuel: nat): Option<nat>
    requires InputOk(p) && AllFound(p, v) && Holds(v, c, i, j)
    decreases fuel, 0
  {
    if fuel == 0 then None
    else
      NameOrStart(p.t, p.rules, p.items, c);
      if c < |p.t.nts| || p.t.steps[c - 1] < 0 then Some(1)
      else
        Waits(p, c);
        EnderCount(p, v, c, i, j, p.t.enders[p.t.steps[c - 1]], 0, fuel - 1)
  }

  function EnderCount(p: Input, v: Elements, c: nat, i: nat, j: nat, l: seq<nat>, acc: nat, fuel: nat): Option<nat>
    requires InputOk(p) && AllFound(p, v) && j < |v| && c > 0
    decreases fuel, 2, |l|
  {
    if l == [] then Some(acc)
    else if l[0] !in v[j] then EnderCount(p, v, c, i, j, l[1..], acc, fuel)
    else
      var here := PlaceCount(p, v, c, i, j, l[0], v[j][l[0]], acc, fuel);
      if here.None? then None else EnderCount(p, v, c, i, j, l[1..], here.value, fuel)
  }

  function PlaceCount(p: Input, v: Elements, c: nat, i: nat, j: nat, e: nat, ks: seq<nat>, acc: nat,
      fuel: nat): Option<nat>
    requires InputOk(p) && AllFound(p, v) && j < |v| && c > 0
    requires forall k :: k in ks ==> Holds(v, e, k, j)
    decreases fuel, 1, |ks|
  {
    if ks == [] then Some(acc)
    else
      var k := ks[0];
      assert Holds(v, e, k, j);
      if k >= i && c - 1 in v[k] && i in v[k][c - 1] then
        var prevs, branches := Count(p, v, c - 1, i, k, fuel), Count(p, v, e, k, j, fuel);
        if prevs.None? || branches.None? then None
        else PlaceCount(p, v, c, i, j, e, ks[1..], acc + prevs.value * branches.value, fuel)
      else PlaceCount(p, v, c, i, j, e, ks[1..], acc, fuel)
  }

  ghost function Length(r: Option<seq<Tree>>): Option<nat> {
    match r case None => None case Some(trees) => Some(|trees|)
  }

  /** As many trees are counted as are listed. */
  lemma {:induction false} CountsTrees(p: Input, words: seq<string>, v: Elements, c: nat, i: nat, j: nat, fuel: nat)
    requires InputOk(p) && |words| == |p.toks| && AllFound(p, v) && Holds(v, c, i, j)
    ensures Count(p, v, c, i, j, fuel) == Length(Trees(p, words, v, c, i, j, fuel))
    decreases fuel, 0
  {
    if fuel > 0 {
      NameOrStart(p.t, p.rules, p.items, c);
      if p.t.names[c] == None {
        Waits(p, c);
        CountsEnders(p, words, v, c, i, j, p.t.enders[p.t.steps[c - 1]], [], fuel - 1);
      }
    }
  }

  lemma {:induction false} CountsEnders(p: Input, words: seq<string>, v: Elements, c: nat, i: nat, j: nat,
      l: seq<nat>, acc: seq<Tree>, fuel: nat)
    requires InputOk(p) && |words| == |p.toks| && AllFound(p, v) && j < |v| && c > 0
    ensures EnderCount(p, v, c, i, j, l, |acc|, fuel) == Length(EnderTrees(p, words, v, c, i, j, l, acc, fuel))
    decreases fuel, 2, |l|
  {
    if l != [] {
      if l[0] !in v[j] {
        CountsEnders(p, words, v, c, i, j, l[1..], acc, fuel);
      } else {
        CountsPlaces(p, words, v, c, i, j, l[0], v[j][l[0]], acc, fuel);
        var here := PlaceTrees(p, words, v, c, i, j, l[0], v[j][l[0]], acc, fuel);
        if here.Some? { CountsEnders(p, words, v, c, i, j, l[1..], here.value, fuel); }
      }
    }
  }

  lemma {:induction false} CountsPlaces(p: Input, words: seq<string>, v: Elements, c: nat, i: nat, j: nat, e: nat,
      ks: seq<nat>, acc: seq<Tree>, fuel: nat)
    requires InputOk(p) && |words| == |p.toks| && AllFound(p, v) && j < |v| && c > 0
    requires forall k :: k in ks ==> Holds(v, e, k, j)
    ensures PlaceCount(p, v, c, i, j, e, ks, |acc|, fuel) == Length(PlaceTrees(p, words, v, c, i, j, e, ks, acc, fuel))
    decreases fuel, 1, |ks|
  {
    if ks != [] {
      var k := ks[0];
      assert Holds(v, e, k, j);
      if k >= i && c - 1 in v[k] && i in v[k][c - 1] {
        CountsTrees(p, words, v, c - 1, i, k, fuel);
        CountsTrees(p, words, v, e, k, j, fuel);
        var prevs, branches := Trees(p, words, v, c - 1, i, k, fuel), Trees(p, words, v, e, k, j, fuel);
        if prevs.Some? && branches.Some? {
          var more := Join(branches.value, prevs.value, acc);
          assert |more| == |acc| + |prevs.value| * |branches.value|;
          CountsPlaces(p, words, v, c, i, j, e, ks[1..], more, fuel);
        }
      } else {
        CountsPlaces(p, words, v, c, i, j, e, ks[1..], acc, fuel);
      }
    }
  }

  /** Deeper recursion does not change the trees. */
  lemma {:induction false} DeeperTrees(p: Input, words: seq<string>, v: Elements, c: nat, i: nat, j: nat, fuel: nat,
      fuel': nat)
    requires InputOk(p) && |words| == |p.toks| && AllFound(p, v) && Holds(v, c, i, j) && fuel <= fuel'
    requires Trees(p, words, v, c, i, j, fuel).Some?
    ensures Trees(p, words, v, c, i, j, fuel') == Trees(p, words, v, c, i, j, fuel)
    decreases fuel, 0
  {
    if p.t.names[c] == None {
      Waits(p, c);
      DeeperEnders(p, words, v, c, i, j, p.t.enders[p.t.steps[c - 1]], [], fuel - 1, fuel' - 1);
    }
  }

  lemma {:induction false} DeeperEnders(p: Input, words: seq<string>, v: Elements, c: nat, i: nat, j: nat,
      l: seq<nat>, acc: seq<Tree>, fuel: nat, fuel': nat)
    requires InputOk(p) && |words| == |p.toks| && AllFound(p, v) && j < |v| && c > 0 && fuel <= fuel'
    requires EnderTrees(p, words, v, c, i, j, l, acc, fuel).Some?
    ensures EnderTrees(p, words, v, c, i, j, l, acc, fuel') == EnderTrees(p, words, v, c, i, j, l, acc, fuel)
    decreases fuel, 2, |l|
  {
    if l != [] {
      if l[0] !in v[j] {
        DeeperEnders(p, words, v, c, i, j, l[1..], acc, fuel, fuel');
      } else {
        DeeperPlaces(p, words, v, c, i, j, l[0], v[j][l[0]], acc, fuel, fuel');
        DeeperEnders(p, words, v, c, i, j, l[1..],
          PlaceTrees(p, words, v, c, i, j, l[0], v[j][l[0]], acc, fuel).value, fuel, fuel');
      }
    }
  }

  lemma {:induction false} DeeperPlaces(p: Input, words: seq<string>, v: Elements, c: nat, i: nat, j: nat, e: nat,
      ks: seq<nat>, acc: seq<Tree>, fuel: nat, fuel': nat)
    requires InputOk(p) && |words| == |p.toks| && AllFound(p, v) && j < |v| && c > 0 && fuel <= fuel'
    requires forall k :: k in ks ==> Holds(v, e, k, j)
    requires PlaceTrees(p, words, v, c, i, j, e, ks, acc, fuel).Some?
    ensures PlaceTrees(p, words, v, c, i, j, e, ks, acc, fuel') == PlaceTrees(p, words, v, c, i, j, e, ks, acc, fuel)
    decreases fuel, 1, |ks|
  {
    if ks != [] {
      var k := ks[0];
      assert Holds(v, e, k, j);
      if k >= i && c - 1 in v[k] && i in v[k][c - 1] {
        assert Holds(v, c - 1, i, k);
        DeeperTrees(p, words, v, c - 1, i, k, fuel, fuel');
        DeeperTrees(p, words, v, e, k, j, fuel, fuel');
        var prevs, branches := Trees(p, words, v, c - 1, i, k, fuel), Trees(p, words, v, e, k, j, fuel);
        DeeperPlaces(p, words, v, c, i, j, e, ks[1..], Join(branches.value, prevs.value, acc), fuel, fuel');
      } else {
        DeeperPlaces(p, words, v, c, i, j, e, ks[1..], acc, fuel, fuel');
      }
    }
  }

  /** Whenever both recursions end, the count is the length of the list; and if one ends, so does the other. */
  lemma CountIsLength(p: Input, words: seq<string>, v: Elements, c: nat, i: nat, j: nat, fuel: nat, fuel': nat)
    requires InputOk(p) && |words| == |p.toks| && AllFound(p, v) && Holds(v, c, i, j)
    ensures Trees(p, words, v, c, i, j, fuel).Some? && Count(p, v, c, i, j, fuel').Some? ==>
      Count(p, v, c, i, j, fuel').value == |Trees(p, words, v, c, i, j, fuel).value|
    ensures Trees(p, words, v, c, i, j, fuel).Some? <==> Count(p, v, c, i, j, fuel).Some?
  {
    CountsTrees(p, words, v, c, i, j, fuel);
    CountsTrees(p, words, v, c, i, j, fuel');
    if Trees(p, words, v, c, i, j, fuel).Some? && Trees(p, words, v, c, i, j, fuel').Some? {
      if fuel <= fuel' {
        DeeperTrees(p, words, v, c, i, j, fuel, fuel');
      } else {
        DeeperTrees(p, words, v, c, i, j, fuel', fuel);
      }
    }
  }

  ghost predicate AllTrees(p: Input, words: seq<string>, trees: seq<Tree>, c: nat, i: nat, j: nat) {
    forall t {:trigger t in trees} :: t in trees ==> TreeOf(p, words, t, c, i, j)
  }

  /** Every tree in the list is a derivation, or the beginning of one. */
  lemma {:induction false} TreesDerive(p: Input, words: seq<string>, v: Elements, c: nat, i: nat, j: nat, fuel: nat)
    requires InputOk(p) && |words| == |p.toks| && AllFound(p, v) && Holds(v, c, i, j)
    requires Trees(p, words, v, c, i, j, fuel).Some?
    ensures AllTrees(p, words, Trees(p, words, v, c, i, j, fuel).value, c, i, j)
    decreases fuel, 0
  {
    assert NameOk(p.t, p.rules, p.items, c) && ItemOk(p.rules, p.items, |p.t.nts|, c);
    if p.t.names[c] == None {
      Waits(p, c);
      EndersDerive(p, words, v, c, i, j, p.t.enders[p.t.steps[c - 1]], [], fuel - 1);
    }
  }

  lemma {:induction false} EndersDerive(p: Input, words: seq<string>, v: Elements, c: nat, i: nat, j: nat,
      l: seq<nat>, acc: seq<Tree>, fuel: nat)
    requires InputOk(p) && |words| == |p.toks| && AllFound(p, v) && j < |v| && c < |p.items| &&
      p.t.names[c] == None && c > 0
    requires p.t.steps[c - 1] >= 0 && forall e {:trigger e in l} :: e in l ==>
      e < |p.items| && p.t.steps[e] == p.t.steps[c - 1] - |p.t.nts|
    requires AllTrees(p, words, acc, c, i, j) && EnderTrees(p, words, v, c, i, j, l, acc, fuel).Some?
    ensures AllTrees(p, words, EnderTrees(p, words, v, c, i, j, l, acc, fuel).value, c, i, j)
    decreases fuel, 2, |l|
  {
    if l != [] {
      assert l[0] in l && forall e :: e in l[1..] ==> e in l;
      if l[0] !in v[j] {
        EndersDerive(p, words, v, c, i, j, l[1..], acc, fuel);
      } else {
        PlacesDerive(p, words, v, c, i, j, l[0], v[j][l[0]], acc, fuel);
        EndersDerive(p, words, v, c, i, j, l[1..],
          PlaceTrees(p, words, v, c, i, j, l[0], v[j][l[0]], acc, fuel).value, fuel);
      }
    }
  }

  lemma {:induction false} PlacesDerive(p: Input, words: seq<string>, v: Elements, c: nat, i: nat, j: nat, e: nat,
      ks: seq<nat>, acc: seq<Tree>, fuel: nat)
    requires InputOk(p) && |words| == |p.toks| && AllFound(p, v) && j < |v| && c < |p.items| &&
      p.t.names[c] == None && c > 0
    requires p.t.steps[c - 1] >= 0 && e < |p.items| && p.t.steps[e] == p.t.steps[c - 1] - |p.t.nts|
    requires forall k :: k in ks ==> Holds(v, e, k, j)
    requires AllTrees(p, words, acc, c, i, j) && PlaceTrees(p, words, v, c, i, j, e, ks, acc, fuel).Some?
    ensures AllTrees(p, words, PlaceTrees(p, words, v, c, i, j, e, ks, acc, fuel).value, c, i, j)
    decreases fuel, 1, |ks|
  {
    if ks != [] {
      var k := ks[0];
      assert Holds(v, e, k, j);
      if k >= i && c - 1 in v[k] && i in v[k][c - 1] {
        assert Holds(v, c - 1, i, k);
        TreesDerive(p, words, v, c - 1, i, k, fuel);
        TreesDerive(p, words, v, e, k, j, fuel);
        var prevs, branches := Trees(p, words, v, c - 1, i, k, fuel).value, Trees(p, words, v, e, k, j, fuel).value;
        forall t | t in Join(branches, prevs, acc) ensures TreeOf(p, words, t, c, i, j) {
          if t !in acc {
            var prev, b {:trigger WithBranch(prev, b)} :| prev in prevs && b in branches && t == WithBranch(prev, b);
            BranchAdded(p, words, prev, b, c, i, k, e, j);
          }
        }
        PlacesDerive(p, words, v, c, i, j, e, ks[1..], Join(branches, prevs, acc), fuel);
      } else {
        PlacesDerive(p, words, v, c, i, j, e, ks[1..], acc, fuel);
      }
    }
  }

  /** The branch of a complete configuration carries the dot on. */
  lemma BranchAdded(p: Input, words: seq<string>, prev: Tree, b: Tree, c: nat, i: nat, k: nat, e: nat, j: nat)
    requires InputOk(p) && 0 < c < |p.items| && p.t.names[c] == None && e < |p.items|
    requires p.t.steps[c - 1] >= 0 && p.t.steps[e] == p.t.steps[c - 1] - |p.t.nts|
    requires TreeOf(p, words, prev, c - 1, i, k) && TreeOf(p, words, b, e, k, j)
    ensures TreeOf(p, words, WithBranch(prev, b), c, i, j)
  {
    assert NameOk(p.t, p.rules, p.items, c) && ItemOk(p.rules, p.items, |p.t.nts|, c);
    assert StepOk(p.t, p.rules, p.items, c - 1) && StepOk(p.t, p.rules, p.items, e) &&
      ItemOk(p.rules, p.items, |p.t.nts|, e);
    var r, m := p.items[c].r, p.items[c].k;
    CompleteTree(p, words, b, e, p.t.steps[c - 1], k, j);
    var ts := WithBranch(prev, b).children;
    assert ts[..|ts| - 1] == prev.children;
    assert Fork(p.rules, p.toks, words, ts, p.rules[r].body, i, k, j);
  }

  /** The tree of a complete configuration is a derivation of its category. */
  lemma CompleteTree(p: Input, words: seq<string>, t: Tree, e: nat, s: nat, i: nat, j: nat)
    requires InputOk(p) && s < |p.t.nts| && e < |p.items| && p.t.steps[e] == s - |p.t.nts| &&
      TreeOf(p, words, t, e, i, j)
    ensures IsDerivation(p.rules, p.toks, words, t, p.t.nts[s], i, j)
  {
    assert StepOk(p.t, p.rules, p.items, e) && ItemOk(p.rules, p.items, |p.t.nts|, e);
    if p.items[e].Dot? { assert p.rules[p.items[e].r].head == p.t.nts[s]; }
  }

  /** The trees of the complete configurations of a category; each list goes in front of those before it. */
  function CategoryTrees(p: Input, words: seq<string>, v: Elements, l: seq<nat>, i: nat, j: nat, acc: seq<Tree>,
      fuel: nat): Option<seq<Tree>>
    requires InputOk(p) && |words| == |p.toks| && AllFound(p, v) && j < |v|
  {
    if l == [] then Some(acc)
    else if l[0] in v[j] && i in v[j][l[0]] then
      assert Holds(v, l[0], i, j);
      var trees := Trees(p, words, v, l[0], i, j, fuel);
      if trees.None? then None else CategoryTrees(p, words, v, l[1..], i, j, trees.value + acc, fuel)
    else CategoryTrees(p, words, v, l[1..], i, j, acc, fuel)
  }

  function CategoryCount(p: Input, v: Elements, l: seq<nat>, i: nat, j: nat, acc: nat, fuel: nat): Option<nat>
    requires InputOk(p) && AllFound(p, v) && j < |v|
  {
    if l == [] then Some(acc)
    else if l[0] in v[j] && i in v[j][l[0]] then
      assert Holds(v, l[0], i, j);
      var n := Count(p, v, l[0], i, j, fuel);
      if n.None? then None else CategoryCount(p, v, l[1..], i, j, n.value + acc, fuel)
    else CategoryCount(p, v, l[1..], i, j, acc, fuel)
  }

  lemma {:induction false} CategoryCounts(p: Input, words: seq<string>, v: Elements, l: seq<nat>, i: nat, j: nat,
      acc: seq<Tree>, fuel: nat)
    requires InputOk(p) && |words| == |p.toks| && AllFound(p, v) && j < |v|
    ensures CategoryCount(p, v, l, i, j, |acc|, fuel) == Length(CategoryTrees(p, words, v, l, i, j, acc, fuel))
    decreases |l|
  {
    if l != [] {
      if l[0] in v[j] && i in v[j][l[0]] {
        assert Holds(v, l[0], i, j);
        CountsTrees(p, words, v, l[0], i, j, fuel);
        var trees := Trees(p, words, v, l[0], i, j, fuel);
        if trees.Some? { CategoryCounts(p, words, v, l[1..], i, j, trees.value + acc, fuel); }
      } else {
        CategoryCounts(p, words, v, l[1..], i, j, acc, fuel);
      }
    }
  }

  ghost predicate AllDerive(p: Input, words: seq<string>, trees: seq<Tree>, nt: Symbol, i: nat, j: nat) {
    forall t {:trigger t in trees} :: t in trees ==> IsDerivation(p.rules, p.toks, words, t, nt, i, j)
  }

  /** All trees listed for a category derive it. */
  lemma {:induction false} CategoryDerives(p: Input, words: seq<string>, v: Elements, s: nat, l: seq<nat>, i: nat,
      j: nat, acc: seq<Tree>, fuel: nat)
    requires InputOk(p) && |words| == |p.toks| && AllFound(p, v) && j < |v| && s < |p.t.nts|
    requires forall e {:trigger e in l} :: e in l ==> e < |p.items| && p.t.steps[e] == s - |p.t.nts|
    requires AllDerive(p, words, acc, p.t.nts[s], i, j) && CategoryTrees(p, words, v, l, i, j, acc, fuel).Some?
    ensures AllDerive(p, words, CategoryTrees(p, words, v, l, i, j, acc, fuel).value, p.t.nts[s], i, j)
    decreases |l|
  {
    if l != [] {
      assert l[0] in l && forall e :: e in l[1..] ==> e in l;
      if l[0] in v[j] && i in v[j][l[0]] {
        assert Holds(v, l[0], i, j);
        TreesDerive(p, words, v, l[0], i, j, fuel);
        var trees := Trees(p, words, v, l[0], i, j, fuel).value;
        forall t | t in trees ensures IsDerivation(p.rules, p.toks, words, t, p.t.nts[s], i, j) {
          CompleteTree(p, words, t, l[0], s, i, j);
        }
        CategoryDerives(p, words, v, s, l[1..], i, j, trees + acc, fuel);
      } else {
        CategoryDerives(p, words, v, s, l[1..], i, j, acc, fuel);
      }
    }
  }
}
