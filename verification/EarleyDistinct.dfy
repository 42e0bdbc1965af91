/** No parse tree is listed twice, so that the count is the number of derivations. */
module EarleyDistinct {
  import opened EarleyGrammars
  import opened EarleyTabling
  import opened EarleyParsing
  import opened EarleyForests

  /** No two rules have the same name. */
  ghost predicate NamedOnce(rules: seq<Rule>) {
    forall q, r {:trigger rules[q], rules[r]} :: 0 <= q < r < |rules| && rules[q].head == rules[r].head ==>
      rules[q].number != rules[r].number
  }

  ghost predicate ListsOnce(v: Elements) {
    forall j: nat, c: nat {:trigger v[j][c]} :: j < |v| && c in v[j] ==> Once(v[j][c])
  }

  ghost predicate Plain(p: Input, words: seq<string>, v: Elements) {
    && InputOk(p) && |words| == |p.toks| && AllFound(p, v)
    && TablesOnce(p.t, p.items) && NamedOnce(p.rules) && ListsOnce(v)
  }

  /** A category defined only once has its rules numbered apart. */
  lemma {:induction false} DefinedOnce(g: Grammar)
    requires forall a, b :: 0 <= a < b < |g| ==> g[a].head != g[b].head
    ensures NamedOnce(Rules(g))
    ensures forall r {:trigger Rules(g)[r]} :: 0 <= r < |Rules(g)| ==>
      exists d {:trigger g[d]} :: 0 <= d < |g| && g[d].head == Rules(g)[r].head
  {
    if g != [] {
      var n := |g| - 1;
      var before, here := Rules(g[..n]), RulesOf(g[n], |g[n].bodies|);
      DefinedOnce(g[..n]);
      forall r | 0 <= r < |Rules(g)|
        ensures exists d {:trigger g[d]} :: 0 <= d < |g| && g[d].head == Rules(g)[r].head
        ensures r < |before| ==> Rules(g)[r].head != g[n].head
      {
        if r < |before| {
          assert Rules(g)[r] == before[r];
          var d :| 0 <= d < n && g[..n][d].head == before[r].head;
          assert g[d].head == before[r].head;
        } else {
          assert Rules(g)[r] == here[r - |before|];
        }
      }
    }
  }

  /** The number of tokens under a tree. */
  ghost function Width(t: Tree): nat
    decreases t, 0
  {
    if t.word.Some? then 1 else Widths(t.children)
  }

  ghost function Widths(ts: seq<Tree>): nat
    decreases ts, 1
  {
    if ts == [] then 0 else Widths(ts[..|ts| - 1]) + Width(ts[|ts| - 1])
  }

  lemma {:induction false} DerivationWidth(rules: seq<Rule>, toks: Tokens, words: seq<string>, t: Tree, nt: Symbol,
      i: nat, j: nat)
    requires IsDerivation(rules, toks, words, t, nt, i, j)
    ensures j == i + Width(t)
    decreases t
  {
    if t.word.None? {
      var r: nat :| r < |rules| && |t.children| == |rules[r].body| &&
        Branches(rules, toks, words, t.children, rules[r].body, i, j);
      BranchesWidth(rules, toks, words, t.children, rules[r].body, i, j);
    }
  }

  lemma {:induction false} BranchesWidth(rules: seq<Rule>, toks: Tokens, words: seq<string>, ts: seq<Tree>,
      body: seq<Symbol>, i: nat, j: nat)
    requires Branches(rules, toks, words, ts, body, i, j)
    ensures j == i + Widths(ts)
    decreases ts
  {
    if ts != [] {
      var k: nat :| Fork(rules, toks, words, ts, body, i, k, j);
      BranchesWidth(rules, toks, words, ts[..|ts| - 1], body, i, k);
      DerivationWidth(rules, toks, words, ts[|ts| - 1], body[|ts| - 1], k, j);
    }
  }

  /** A tree tells where it starts. */
  lemma TreeStart(p: Input, words: seq<string>, t: Tree, c: nat, i: nat, j: nat)
    requires TreeOf(p, words, t, c, i, j)
    ensures j == i + Width(t)
  {
    match p.items[c]
    case Leaf(nt) => DerivationWidth(p.rules, p.toks, words, t, p.t.nts[nt], i, j);
    case Dot(r, k) => BranchesWidth(p.rules, p.toks, words, t.children, p.rules[r].body, i, j);
  }

  /** A tree tells which complete configuration of a category it belongs to. */
  lemma TreeItem(p: Input, words: seq<string>, v: Elements, t: Tree, s: nat, e: nat, i: nat, e': nat, i': nat, j: nat)
    requires Plain(p, words, v) && e < |p.items| && e' < |p.items| && s < |p.t.nts|
    requires p.t.steps[e] == p.t.steps[e'] == s - |p.t.nts|
    requires TreeOf(p, words, t, e, i, j) && TreeOf(p, words, t, e', i', j)
    ensures e == e' && i == i'
  {
    TreeStart(p, words, t, e, i, j);
    TreeStart(p, words, t, e', i', j);
    assert StepOk(p.t, p.rules, p.items, e) && StepOk(p.t, p.rules, p.items, e');
    assert ItemOk(p.rules, p.items, |p.t.nts|, e) && ItemOk(p.rules, p.items, |p.t.nts|, e');
    assert p.items[e] == p.items[e'];
  }

  lemma {:induction false} JoinOneOnce(branch: Tree, trees: seq<Tree>, acc: seq<Tree>)
    requires Once(trees) && Once(acc)
    requires forall prev {:trigger prev in trees} :: prev in trees ==> WithBranch(prev, branch) !in acc
    ensures Once(JoinOne(branch, trees, acc))
    decreases |trees|
  {
    if trees != [] {
      var more := [WithBranch(trees[0], branch)] + acc;
      forall prev | prev in trees[1..] ensures WithBranch(prev, branch) !in more {
        var x :| 0 <= x < |trees[1..]| && trees[1..][x] == prev;
        assert trees[x + 1] == prev && prev in trees;
        SameBranches(prev, branch, trees[0], branch);
      }
      assert trees[0] in trees;
      JoinOneOnce(branch, trees[1..], more);
    }
  }

  lemma SameBranches(t: Tree, b: Tree, t': Tree, b': Tree)
    ensures WithBranch(t, b) == WithBranch(t', b') <==> t == t' && b == b'
  {
    if WithBranch(t, b) == WithBranch(t', b') {
      var ts, ts' := t.children + [b], t'.children + [b'];
      assert ts == ts' && t.children == ts[..|ts| - 1] && t'.children == ts'[..|ts'| - 1];
      assert b == ts[|ts| - 1] && b' == ts'[|ts'| - 1];
    }
  }

  lemma {:induction false} JoinOnce(branches: seq<Tree>, trees: seq<Tree>, acc: seq<Tree>)
    requires Once(branches) && Once(trees) && Once(acc)
    requires forall prev, b {:trigger WithBranch(prev, b)} :: prev in trees && b in branches ==>
      WithBranch(prev, b) !in acc
    ensures Once(Join(branches, trees, acc))
    decreases |branches|
  {
    if branches != [] {
      assert branches[0] in branches;
      JoinOneOnce(branches[0], trees, acc);
      var more := JoinOne(branches[0], trees, acc);
      forall prev, b {:trigger WithBranch(prev, b)} | prev in trees && b in branches[1..]
        ensures WithBranch(prev, b) !in more {
        if WithBranch(prev, b) in more {
          var prev' :| prev' in trees && WithBranch(prev, b) == WithBranch(prev', branches[0]);
          SameBranches(prev, b, prev', branches[0]);
        }
      }
      JoinOnce(branches[1..], trees, more);
    }
  }

  /** The last branch of t belongs to element k of e at j. */
  ghost predicate Onto(p: Input, words: seq<string>, t: Tree, e: nat, k: nat, j: nat) {
    t.children != [] && TreeOf(p, words, t.children[|t.children| - 1], e, k, j)
  }

  ghost predicate NoneOnto(p: Input, words: seq<string>, trees: seq<Tree>, e: nat, k: nat, j: nat) {
    forall t {:trigger t in trees} :: t in trees ==> !Onto(p, words, t, e, k, j)
  }

  ghost predicate CompleteFor(p: Input, s: nat, e: nat)
    requires |p.t.steps| == |p.items|
  {
    e < |p.items| && p.t.steps[e] == s - |p.t.nts|
  }

  /** The list of a configuration has each tree once. */
  lemma {:induction false} TreesOnce(p: Input, words: seq<string>, v: Elements, c: nat, i: nat, j: nat, fuel: nat)
    requires Plain(p, words, v) && Holds(v, c, i, j) && Trees(p, words, v, c, i, j, fuel).Some?
    ensures Once(Trees(p, words, v, c, i, j, fuel).value)
    decreases fuel, 0
  {
    if p.t.names[c] == None {
      Waits(p, c);
      var s := p.t.steps[c - 1];
      assert Once(p.t.enders[s]);
      EndersOnce(p, words, v, c, i, j, s, p.t.enders[s], [], fuel - 1);
    }
  }

  lemma {:induction false} EndersOnce(p: Input, words: seq<string>, v: Elements, c: nat, i: nat, j: nat, s: nat,
      l: seq<nat>, acc: seq<Tree>, fuel: nat)
    requires Plain(p, words, v) && j < |v| && c > 0 && EnderTrees(p, words, v, c, i, j, l, acc, fuel).Some?
    requires s < |p.t.nts| && Once(l) && forall e {:trigger e in l} :: e in l ==> CompleteFor(p, s, e)
    requires Once(acc) && forall e, k: nat {:trigger NoneOnto(p, words, acc, e, k, j)} :: e in l ==>
      NoneOnto(p, words, acc, e, k, j)
    ensures Once(EnderTrees(p, words, v, c, i, j, l, acc, fuel).value)
    decreases fuel, 2, |l|
  {
    if l != [] {
      assert l[0] in l && forall e :: e in l[1..] ==> e in l && e != l[0];
      if l[0] !in v[j] {
        EndersOnce(p, words, v, c, i, j, s, l[1..], acc, fuel);
      } else {
        var e := l[0];
        assert forall k: nat :: k in v[j][e] ==> NoneOnto(p, words, acc, e, k, j);
        PlacesOnce(p, words, v, c, i, j, s, e, v[j][e], acc, fuel);
        var here := PlaceTrees(p, words, v, c, i, j, e, v[j][e], acc, fuel).value;
        forall e', k': nat | e' in l[1..] ensures NoneOnto(p, words, here, e', k', j) {
          OthersOnto(p, words, v, s, e, here, acc, e', k', j);
        }
        EndersOnce(p, words, v, c, i, j, s, l[1..], here, fuel);
      }
    }
  }

  lemma OthersOnto(p: Input, words: seq<string>, v: Elements, s: nat, e: nat, here: seq<Tree>, acc: seq<Tree>,
      e': nat, k': nat, j: nat)
    requires Plain(p, words, v) && s < |p.t.nts| && CompleteFor(p, s, e) && CompleteFor(p, s, e') && e != e'
    requires NoneOnto(p, words, acc, e', k', j)
    requires forall t {:trigger t in here} :: t in here ==>
      t in acc || exists k: nat :: Onto(p, words, t, e, k, j)
    ensures NoneOnto(p, words, here, e', k', j)
  {
    forall t | t in here ensures !Onto(p, words, t, e', k', j) {
      if t !in acc && Onto(p, words, t, e', k', j) {
        var k: nat :| Onto(p, words, t, e, k, j);
        TreeItem(p, words, v, t.children[|t.children| - 1], s, e, k, e', k', j);
      }
    }
  }

  lemma {:induction false} PlacesOnce(p: Input, words: seq<string>, v: Elements, c: nat, i: nat, j: nat, s: nat,
      e: nat, ks: seq<nat>, acc: seq<Tree>, fuel: nat)
    requires Plain(p, words, v) && j < |v| && c > 0 && s < |p.t.nts| && CompleteFor(p, s, e)
    requires forall k :: k in ks ==> Holds(v, e, k, j)
    requires PlaceTrees(p, words, v, c, i, j, e, ks, acc, fuel).Some?
    requires Once(ks) && Once(acc) && forall k {:trigger k in ks} :: k in ks ==> NoneOnto(p, words, acc, e, k, j)
    ensures var r := PlaceTrees(p, words, v, c, i, j, e, ks, acc, fuel).value;
      Once(r) && forall t {:trigger t in r} :: t in r ==> t in acc || exists k: nat :: Onto(p, words, t, e, k, j)
    decreases fuel, 1, |ks|
  {
    if ks != [] {
      var k := ks[0];
      assert Holds(v, e, k, j) && k in ks && forall k' :: k' in ks[1..] ==> k' in ks && k' != k;
      if k >= i && c - 1 in v[k] && i in v[k][c - 1] {
        TreesOnce(p, words, v, c - 1, i, k, fuel);
        TreesOnce(p, words, v, e, k, j, fuel);
        var prevs, branches := Trees(p, words, v, c - 1, i, k, fuel).value, Trees(p, words, v, e, k, j, fuel).value;
        TreesDerive(p, words, v, e, k, j, fuel);
        var more := JoinPlace(p, words, v, s, e, k, j, prevs, branches, acc);
        forall k' | k' in ks[1..] ensures NoneOnto(p, words, more, e, k', j) {
          forall t | t in more ensures !Onto(p, words, t, e, k', j) {
            if t !in acc && Onto(p, words, t, e, k', j) {
              TreeItem(p, words, v, t.children[|t.children| - 1], s, e, k, e, k', j);
            }
          }
        }
        PlacesOnce(p, words, v, c, i, j, s, e, ks[1..], more, fuel);
      } else {
        PlacesOnce(p, words, v, c, i, j, s, e, ks[1..], acc, fuel);
      }
    }
  }

  /** The trees put together at place k are new. */
  lemma JoinPlace(p: Input, words: seq<string>, v: Elements, s: nat, e: nat, k: nat, j: nat, prevs: seq<Tree>,
      branches: seq<Tree>, acc: seq<Tree>) returns (more: seq<Tree>)
    requires Once(prevs) && Once(branches) && Once(acc) && NoneOnto(p, words, acc, e, k, j)
    requires AllTrees(p, words, branches, e, k, j)
    ensures more == Join(branches, prevs, acc) && Once(more)
    ensures forall t {:trigger t in more} :: t in more ==> t in acc || Onto(p, words, t, e, k, j)
  {
    forall prev, b {:trigger WithBranch(prev, b)} | prev in prevs && b in branches
      ensures WithBranch(prev, b) !in acc {
      assert Onto(p, words, WithBranch(prev, b), e, k, j);
    }
    JoinOnce(branches, prevs, acc);
    more := Join(branches, prevs, acc);
    forall t | t in more && t !in acc ensures Onto(p, words, t, e, k, j) {
      var prev, b {:trigger WithBranch(prev, b)} :| prev in prevs && b in branches && t == WithBranch(prev, b);
    }
  }

  lemma OnceBoth<T>(a: seq<T>, b: seq<T>)
    requires Once(a) && Once(b) && forall t {:trigger t in a} :: t in a ==> t !in b
    ensures Once(a + b)
  {
    forall x, y | 0 <= x < y < |a + b| ensures (a + b)[x] != (a + b)[y] {
      if x < |a| <= y { assert a[x] in a && b[y - |a|] in b; }
    }
  }

  ghost predicate NoneOf(p: Input, words: seq<string>, trees: seq<Tree>, e: nat, i: nat, j: nat) {
    forall t {:trigger t in trees} :: t in trees ==> !TreeOf(p, words, t, e, i, j)
  }

  /** The list of a category has each tree once. */
  lemma {:induction false} CategoryOnce(p: Input, words: seq<string>, v: Elements, s: nat, l: seq<nat>, i: nat,
      j: nat, acc: seq<Tree>, fuel: nat)
    requires Plain(p, words, v) && j < |v| && CategoryTrees(p, words, v, l, i, j, acc, fuel).Some?
    requires s < |p.t.nts| && Once(l) && forall e {:trigger e in l} :: e in l ==> CompleteFor(p, s, e)
    requires Once(acc) && forall e {:trigger e in l} :: e in l ==> NoneOf(p, words, acc, e, i, j)
    ensures Once(CategoryTrees(p, words, v, l, i, j, acc, fuel).value)
    decreases |l|
  {
    if l != [] {
      var e := l[0];
      assert e in l && forall e' :: e' in l[1..] ==> e' in l && e' != e;
      if e in v[j] && i in v[j][e] {
        assert Holds(v, e, i, j);
        TreesOnce(p, words, v, e, i, j, fuel);
        TreesDerive(p, words, v, e, i, j, fuel);
        var trees := Trees(p, words, v, e, i, j, fuel).value;
        forall e' | e' in l[1..] ensures NoneOf(p, words, trees + acc, e', i, j) {
          forall t | t in trees + acc ensures !TreeOf(p, words, t, e', i, j) {
            if t in trees && TreeOf(p, words, t, e', i, j) { TreeItem(p, words, v, t, s, e, i, e', i, j); }
          }
        }
        OnceBoth(trees, acc);
        CategoryOnce(p, words, v, s, l[1..], i, j, trees + acc, fuel);
      } else {
        CategoryOnce(p, words, v, s, l[1..], i, j, acc, fuel);
      }
    }
  }
}
