/** When the recursion that lists the trees ends: at a depth, exactly if no tree is deeper. */
module EarleyEnding {
  import opened EarleyGrammars
  import opened EarleyTabling
  import opened EarleyParsing
  import opened EarleyParses
  import opened EarleyForests
  import opened EarleyAllTrees

  /** The depth to which the recursion for a tree goes: into its last branch, and into the tree without it. */
  ghost function Depth(t: Tree): nat {
    DepthOf(t.children)
  }

  ghost function DepthOf(ts: seq<Tree>): (d: nat)
    ensures d > 0
    decreases ts
  {
    if ts == [] then 1
    else
      var rest, last := DepthOf(ts[..|ts| - 1]), DepthOf(ts[|ts| - 1].children);
      if rest < last then 1 + last else 1 + rest
  }

  lemma DeeperBranch(t: Tree, b: Tree)
    ensures Depth(WithBranch(t, b)) == 1 + if Depth(t) < Depth(b) then Depth(b) else Depth(t)
  {
    var ts := t.children + [b];
    assert ts[..|ts| - 1] == t.children;
  }

  /** What is derived has a tree. */
  lemma {:induction false} DerivationExists(rules: seq<Rule>, toks: Tokens, words: seq<string>, nt: Symbol, i: nat,
      j: nat, h: nat) returns (t: Tree)
    requires Derives(rules, toks, nt, i, j, h) && |words| == |toks|
    ensures IsDerivation(rules, toks, words, t, nt, i, j)
    decreases h, 0
  {
    if i < |toks| && j == i + 1 && nt in toks[i] {
      t := Tree(Name(nt, 0), Some(words[i]), []);
    } else {
      var r: nat :| r < |rules| && rules[r].head == nt && Sequence(rules, toks, rules[r].body, i, j, h - 1);
      assert rules[r].body[..|rules[r].body|] == rules[r].body;
      var ts := BranchesExist(rules, toks, words, rules[r].body, |rules[r].body|, i, j, h - 1);
      t := Tree(Name(nt, rules[r].number), None, ts);
    }
  }

  lemma {:induction false} BranchesExist(rules: seq<Rule>, toks: Tokens, words: seq<string>, body: seq<Symbol>, m: nat,
      i: nat, j: nat, h: nat) returns (ts: seq<Tree>)
    requires m <= |body| && Sequence(rules, toks, body[..m], i, j, h) && |words| == |toks|
    ensures |ts| == m && Branches(rules, toks, words, ts, body, i, j)
    decreases h, 1 + m
  {
    if m == 0 {
      ts := [];
    } else {
      var k: nat :| Split(rules, toks, body[..m], i, k, j, h);
      assert body[..m][..m - 1] == body[..m - 1];
      var before := BranchesExist(rules, toks, words, body, m - 1, i, k, h);
      var b := DerivationExists(rules, toks, words, body[m - 1], k, j, h);
      ts := before + [b];
      assert ts[..m - 1] == before;
      assert Fork(rules, toks, words, ts, body, i, k, j);
    }
  }

  /** What is found has a tree. */
  lemma FoundTree(p: Input, words: seq<string>, c: nat, i: nat, j: nat) returns (t: Tree)
    requires InputOk(p) && |words| == |p.toks| && Found(p, c, i, j)
    ensures TreeOf(p, words, t, c, i, j)
  {
    match p.items[c] {
      case Leaf(nt) => t := Tree(Name(p.t.nts[nt], 0), Some(words[i]), []);
      case Dot(r, k) =>
        var h: nat :| Sequence(p.rules, p.toks, p.rules[r].body[..k], i, j, h);
        var ts := BranchesExist(p.rules, p.toks, words, p.rules[r].body, k, i, j, h);
        t := Tree(Name(p.rules[r].head, p.rules[r].number), None, ts);
    }
  }

  /** One of the parts for which the recursion does not end. */
  ghost predicate Stuck(p: Input, words: seq<string>, v: Elements, c: nat, i: nat, j: nat, e: nat, k: nat, fuel: nat)
    requires InputOk(p) && |words| == |p.toks| && AllFound(p, v) && c > 0
  {
    && i <= k && Holds(v, c - 1, i, k) && Holds(v, e, k, j)
    && (Trees(p, words, v, c - 1, i, k, fuel).None? || Trees(p, words, v, e, k, j, fuel).None?)
  }

  lemma {:induction false} StuckPlace(p: Input, words: seq<string>, v: Elements, c: nat, i: nat, j: nat, e: nat,
      ks: seq<nat>, acc: seq<Tree>, fuel: nat) returns (k: nat)
    requires InputOk(p) && |words| == |p.toks| && AllFound(p, v) && j < |v| && c > 0
    requires forall k :: k in ks ==> Holds(v, e, k, j)
    requires PlaceTrees(p, words, v, c, i, j, e, ks, acc, fuel).None?
    ensures Stuck(p, words, v, c, i, j, e, k, fuel)
    decreases |ks|
  {
    k := ks[0];
    assert Holds(v, e, k, j);
    if k >= i && c - 1 in v[k] && i in v[k][c - 1] {
      var prevs, branches := Trees(p, words, v, c - 1, i, k, fuel), Trees(p, words, v, e, k, j, fuel);
      if prevs.Some? && branches.Some? {
        k := StuckPlace(p, words, v, c, i, j, e, ks[1..], Join(branches.value, prevs.value, acc), fuel);
      }
    } else {
      k := StuckPlace(p, words, v, c, i, j, e, ks[1..], acc, fuel);
    }
  }

  lemma {:induction false} StuckEnder(p: Input, words: seq<string>, v: Elements, c: nat, i: nat, j: nat, l: seq<nat>,
      acc: seq<Tree>, fuel: nat) returns (e: nat, k: nat)
    requires InputOk(p) && |words| == |p.toks| && AllFound(p, v) && j < |v| && c > 0
    requires EnderTrees(p, words, v, c, i, j, l, acc, fuel).None?
    ensures e in l && Stuck(p, words, v, c, i, j, e, k, fuel)
    decreases |l|
  {
    e := l[0];
    if e !in v[j] {
      e, k := StuckEnder(p, words, v, c, i, j, l[1..], acc, fuel);
    } else {
      var here := PlaceTrees(p, words, v, c, i, j, e, v[j][e], acc, fuel);
      if here.None? {
        k := StuckPlace(p, words, v, c, i, j, e, v[j][e], acc, fuel);
      } else {
        e, k := StuckEnder(p, words, v, c, i, j, l[1..], here.value, fuel);
      }
    }
  }

  /** If the recursion does not end, there is a deeper tree. */
  lemma {:induction false} DeepTree(p: Input, words: seq<string>, v: Elements, c: nat, i: nat, j: nat, fuel: nat)
      returns (t: Tree)
    requires InputOk(p) && |words| == |p.toks| && AllFound(p, v) && Holds(v, c, i, j)
    requires Trees(p, words, v, c, i, j, fuel).None?
    ensures TreeOf(p, words, t, c, i, j) && Depth(t) > fuel
    decreases fuel
  {
    if fuel == 0 {
      t := FoundTree(p, words, c, i, j);
    } else {
      Waits(p, c);
      var e, k := StuckEnder(p, words, v, c, i, j, p.t.enders[p.t.steps[c - 1]], [], fuel - 1);
      var prev, b;
      if Trees(p, words, v, c - 1, i, k, fuel - 1).None? {
        prev := DeepTree(p, words, v, c - 1, i, k, fuel - 1);
        b := FoundTree(p, words, e, k, j);
      } else {
        prev := FoundTree(p, words, c - 1, i, k);
        b := DeepTree(p, words, v, e, k, j, fuel - 1);
      }
      BranchAdded(p, words, prev, b, c, i, k, e, j);
      DeeperBranch(prev, b);
      t := WithBranch(prev, b);
    }
  }

  ghost predicate Shallow(trees: seq<Tree>, fuel: nat) {
    forall t {:trigger t in trees} :: t in trees ==> Depth(t) <= fuel
  }

  /** The recursion lists no trees deeper than it goes. */
  lemma {:induction false} ListedShallow(p: Input, words: seq<string>, v: Elements, c: nat, i: nat, j: nat, fuel: nat)
    requires InputOk(p) && |words| == |p.toks| && AllFound(p, v) && Holds(v, c, i, j)
    requires Trees(p, words, v, c, i, j, fuel).Some?
    ensures Shallow(Trees(p, words, v, c, i, j, fuel).value, fuel)
    decreases fuel, 0
  {
    if p.t.names[c] == None {
      Waits(p, c);
      EndersShallow(p, words, v, c, i, j, p.t.enders[p.t.steps[c - 1]], [], fuel - 1);
    }
  }

  lemma {:induction false} EndersShallow(p: Input, words: seq<string>, v: Elements, c: nat, i: nat, j: nat,
      l: seq<nat>, acc: seq<Tree>, fuel: nat)
    requires InputOk(p) && |words| == |p.toks| && AllFound(p, v) && j < |v| && c > 0
    requires Shallow(acc, fuel + 1) && EnderTrees(p, words, v, c, i, j, l, acc, fuel).Some?
    ensures Shallow(EnderTrees(p, words, v, c, i, j, l, acc, fuel).value, fuel + 1)
    decreases fuel, 2, |l|
  {
    if l != [] {
      if l[0] !in v[j] {
        EndersShallow(p, words, v, c, i, j, l[1..], acc, fuel);
      } else {
        PlacesShallow(p, words, v, c, i, j, l[0], v[j][l[0]], acc, fuel);
        EndersShallow(p, words, v, c, i, j, l[1..],
          PlaceTrees(p, words, v, c, i, j, l[0], v[j][l[0]], acc, fuel).value, fuel);
      }
    }
  }

  lemma {:induction false} PlacesShallow(p: Input, words: seq<string>, v: Elements, c: nat, i: nat, j: nat, e: nat,
      ks: seq<nat>, acc: seq<Tree>, fuel: nat)
    requires InputOk(p) && |words| == |p.toks| && AllFound(p, v) && j < |v| && c > 0
    requires forall k :: k in ks ==> Holds(v, e, k, j)
    requires Shallow(acc, fuel + 1) && PlaceTrees(p, words, v, c, i, j, e, ks, acc, fuel).Some?
    ensures Shallow(PlaceTrees(p, words, v, c, i, j, e, ks, acc, fuel).value, fuel + 1)
    decreases fuel, 1, |ks|
  {
    if ks != [] {
      var k := ks[0];
      assert Holds(v, e, k, j);
      if k >= i && c - 1 in v[k] && i in v[k][c - 1] {
        ListedShallow(p, words, v, c - 1, i, k, fuel);
        ListedShallow(p, words, v, e, k, j, fuel);
        var prevs, branches := Trees(p, words, v, c - 1, i, k, fuel).value, Trees(p, words, v, e, k, j, fuel).value;
        forall t | t in Join(branches, prevs, acc) ensures Depth(t) <= fuel + 1 {
          if t !in acc {
            var prev, b {:trigger WithBranch(prev, b)} :| prev in prevs && b in branches && t == WithBranch(prev, b);
            DeeperBranch(prev, b);
          }
        }
        PlacesShallow(p, words, v, c, i, j, e, ks[1..], Join(branches, prevs, acc), fuel);
      } else {
        PlacesShallow(p, words, v, c, i, j, e, ks[1..], acc, fuel);
      }
    }
  }

  lemma {:induction false} CategoryShallow(p: Input, words: seq<string>, v: Elements, l: seq<nat>, i: nat, j: nat,
      acc: seq<Tree>, fuel: nat)
    requires InputOk(p) && |words| == |p.toks| && AllFound(p, v) && j < |v| && Shallow(acc, fuel)
    requires CategoryTrees(p, words, v, l, i, j, acc, fuel).Some?
    ensures Shallow(CategoryTrees(p, words, v, l, i, j, acc, fuel).value, fuel)
    decreases |l|
  {
    if l != [] {
      if l[0] in v[j] && i in v[j][l[0]] {
        assert Holds(v, l[0], i, j);
        ListedShallow(p, words, v, l[0], i, j, fuel);
        CategoryShallow(p, words, v, l[1..], i, j, Trees(p, words, v, l[0], i, j, fuel).value + acc, fuel);
      } else {
        CategoryShallow(p, words, v, l[1..], i, j, acc, fuel);
      }
    }
  }

  lemma {:induction false} StuckCategory(p: Input, words: seq<string>, v: Elements, l: seq<nat>, i: nat, j: nat,
      acc: seq<Tree>, fuel: nat) returns (e: nat)
    requires InputOk(p) && |words| == |p.toks| && AllFound(p, v) && j < |v|
    requires CategoryTrees(p, words, v, l, i, j, acc, fuel).None?
    ensures e in l && Holds(v, e, i, j) && Trees(p, words, v, e, i, j, fuel).None?
    decreases |l|
  {
    e := l[0];
    if e in v[j] && i in v[j][e] {
      assert Holds(v, e, i, j);
      var trees := Trees(p, words, v, e, i, j, fuel);
      if trees.Some? { e := StuckCategory(p, words, v, l[1..], i, j, trees.value + acc, fuel); }
    } else {
      e := StuckCategory(p, words, v, l[1..], i, j, acc, fuel);
    }
  }

  ghost predicate DepthWithin(p: Input, words: seq<string>, nt: Symbol, i: nat, j: nat, fuel: nat) {
    forall t {:trigger Depth(t)} :: IsDerivation(p.rules, p.toks, words, t, nt, i, j) ==> Depth(t) <= fuel
  }

  /** The listing for a category ends within a depth exactly if none of its derivations is deeper, where a parse of
      the goal uses it. */
  lemma EndsExactly(p: Input, words: seq<string>, chart: Chart, v: Elements, s: nat, i: nat, j: nat, fuel: nat)
    requires Harvest(p, words, chart, v) && s < |p.t.nts| && j < |v| == |chart|
    ensures CategoryTrees(p, words, v, p.t.enders[s], i, j, [], fuel).Some? <==>
      (PartOfParse(p, chart, p.t.nts[s], i, j) ==> DepthWithin(p, words, p.t.nts[s], i, j, fuel))
  {
    assert EarleyTabling.Listed(p.t, p.rules, p.items, s);
    var r := CategoryTrees(p, words, v, p.t.enders[s], i, j, [], fuel);
    if r.None? {
      var e := StuckCategory(p, words, v, p.t.enders[s], i, j, [], fuel);
      var t := DeepTree(p, words, v, e, i, j, fuel);
      CompleteTree(p, words, t, e, s, i, j);
      assert Useful(p, chart, e, i, j) && p.t.nts[s] == p.t.nts[s];
    } else if PartOfParse(p, chart, p.t.nts[s], i, j) {
      CategoryShallow(p, words, v, p.t.enders[s], i, j, [], fuel);
      forall t | IsDerivation(p.rules, p.toks, words, t, p.t.nts[s], i, j) ensures Depth(t) <= fuel {
        DerivationListed(p, words, chart, v, s, i, j, fuel, t);
      }
    }
  }
}
