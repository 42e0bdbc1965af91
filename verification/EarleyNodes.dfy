/** What it means that a parse of the goal uses a category: a tree of the goal has a node for it there. */
module EarleyNodes {
  import opened EarleyGrammars
  import opened EarleyTabling
  import opened EarleyParsing
  import opened EarleyParses
  import opened EarleyForests
  import opened EarleyAllTrees
  import opened EarleyDistinct
  import opened EarleyEnding

  /** The path leads down into the tree, from branch to branch. */
  ghost predicate LeadsDown(t: Tree, path: seq<nat>)
    decreases |path|
  {
    path != [] ==> path[0] < |t.children| && LeadsDown(t.children[path[0]], path[1..])
  }

  /** The tree to which it leads. */
  ghost function At(t: Tree, path: seq<nat>): Tree
    requires LeadsDown(t, path)
    decreases |path|
  {
    if path == [] then t else At(t.children[path[0]], path[1..])
  }

  /** Where that tree starts, if t starts at a. */
  ghost function Place(t: Tree, a: nat, path: seq<nat>): nat
    requires LeadsDown(t, path)
    decreases |path|
  {
    if path == [] then a else Place(t.children[path[0]], a + Widths(t.children[..path[0]]), path[1..])
  }

  /** The tree, which starts at 0, has a node for the category that spans the tokens from i up to j. */
  ghost predicate HasNode(t: Tree, nt: Symbol, i: nat, j: nat) {
    exists path :: LeadsDown(t, path) && At(t, path).name.head == nt && Place(t, 0, path) == i &&
      j == i + Width(At(t, path))
  }

  /** Some derivation of the goal has. */
  ghost predicate InParse(rules: seq<Rule>, toks: Tokens, words: seq<string>, goal: Symbol, nt: Symbol, i: nat,
      j: nat)
  {
    exists t :: IsDerivation(rules, toks, words, t, goal, 0, |toks|) && HasNode(t, nt, i, j)
  }

  /** One branch further. */
  lemma {:induction false} Further(t: Tree, a: nat, path: seq<nat>, k: nat)
    requires LeadsDown(t, path) && k < |At(t, path).children|
    ensures LeadsDown(t, path + [k]) && At(t, path + [k]) == At(t, path).children[k]
    ensures Place(t, a, path + [k]) == Place(t, a, path) + Widths(At(t, path).children[..k])
    decreases |path|
  {
    if path == [] {
      assert [k][1..] == [] && LeadsDown(t.children[k], []);
    } else {
      Further(t.children[path[0]], a + Widths(t.children[..path[0]]), path[1..], k);
      assert (path + [k])[1..] == path[1..] + [k];
    }
  }

  ghost predicate OpenElement(u: int) { true }

  /** t is a tree of an element that a parse uses, at depth h at most. */
  ghost predicate Element(p: Input, words: seq<string>, chart: Chart, t: Tree, c: nat, i: nat, j: nat, h: nat) {
    forall u {:trigger OpenElement(u)} :: OpenElement(u) ==>
      && InputOk(p) && ChartOk(p, chart) && |words| == |p.toks| && j < |chart| && Used(p, chart, c, i, j, h)
      && c < |p.items| && TreeOf(p, words, t, c, i, j)
  }

  ghost predicate Complete(p: Input, c: nat) {
    c < |p.t.steps| && p.t.steps[c] < 0
  }

  /** u is what has become of the tree t of configuration c: it has t's branches and perhaps more. */
  ghost predicate Grown(p: Input, t: Tree, u: Tree, c: nat) {
    u.name == t.name && u.word == t.word && t.children <= u.children && (Complete(p, c) ==> u == t)
  }

  /** What is in the chart has a tree. */
  lemma ElementTree(p: Input, words: seq<string>, chart: Chart, c: nat, i: nat, j: nat) returns (t: Tree)
    requires InputOk(p) && ChartOk(p, chart) && |words| == |p.toks| && j < |chart| && (c, i) in chart[j]
    ensures c < |p.items| && TreeOf(p, words, t, c, i, j)
  {
    t := FoundTree(p, words, c, i, j);
  }

  /** The parts of an element make a tree of it. */
  lemma JointTree(p: Input, words: seq<string>, chart: Chart, c: nat, i: nat, k: nat, e: nat, j: nat, prev: Tree,
      b: Tree)
    requires InputOk(p) && ChartOk(p, chart) && Joint(p, chart, c, i, k, e, j) && c < |p.items|
    requires TreeOf(p, words, prev, c - 1, i, k) && TreeOf(p, words, b, e, k, j)
    ensures TreeOf(p, words, WithBranch(prev, b), c, i, j) && prev.word == None && p.t.steps[e] < 0
  {
    assert StepOk(p.t, p.rules, p.items, c - 1) && ItemOk(p.rules, p.items, |p.t.nts|, c - 1);
    assert ItemOk(p.rules, p.items, |p.t.nts|, c) && NameOk(p.t, p.rules, p.items, c);
    assert EarleyTabling.Listed(p.t, p.rules, p.items, p.t.steps[c - 1]);
    BranchAdded(p, words, prev, b, c, i, k, e, j);
  }

  lemma LastBranch(u: Tree, prev: Tree, b: Tree)
    requires WithBranch(prev, b).children <= u.children
    ensures |prev.children| < |u.children| && u.children[|prev.children|] == b
    ensures u.children[..|prev.children|] == prev.children
  {
    assert u.children[|prev.children|] == WithBranch(prev, b).children[|prev.children|];
  }

  /** How a tree becomes a part of a larger one: it is a derivation of the goal already, or a branch joins it, or it
      joins a tree as a branch. */
  datatype Way = Rooted | Joined(branch: Tree) | Joining(prev: Tree)

  lemma JoinedUp(p: Input, words: seq<string>, chart: Chart, t: Tree, c: nat, i: nat, j: nat, e: nat, k: nat, h: nat)
      returns (b: Tree)
    requires InputOk(p) && ChartOk(p, chart) && |words| == |p.toks| && c < |p.items| && TreeOf(p, words, t, c, i, j)
    requires h > 0 && Used(p, chart, c + 1, i, k, h - 1) && Joint(p, chart, c + 1, i, j, e, k)
    ensures !Complete(p, c) && Element(p, words, chart, WithBranch(t, b), c + 1, i, k, h - 1)
  {
    b := ElementTree(p, words, chart, e, j, k);
    JointTree(p, words, chart, c + 1, i, j, e, k, t, b);
  }

  lemma JoiningUp(p: Input, words: seq<string>, chart: Chart, t: Tree, c: nat, i: nat, j: nat, d: nat, k: nat, h: nat)
      returns (prev: Tree)
    requires InputOk(p) && ChartOk(p, chart) && |words| == |p.toks| && c < |p.items| && TreeOf(p, words, t, c, i, j)
    requires h > 0 && Used(p, chart, d, k, j, h - 1) && Joint(p, chart, d, k, i, c, j)
    ensures i == k + Widths(prev.children) && Element(p, words, chart, WithBranch(prev, t), d, k, j, h - 1)
  {
    prev := ElementTree(p, words, chart, d - 1, k, i);
    JointTree(p, words, chart, d, k, i, c, j, prev, t);
    TreeStart(p, words, prev, d - 1, k, i);
  }

  /** The larger tree that t becomes a part of. */
  lemma OneUp(p: Input, words: seq<string>, chart: Chart, t: Tree, c: nat, i: nat, j: nat, h: nat)
      returns (way: Way, c': nat, i': nat, j': nat)
    requires Element(p, words, chart, t, c, i, j, h)
    ensures p.t.nts != [] && h > 0
    ensures match way
      case Rooted => i == 0 && IsDerivation(p.rules, p.toks, words, t, p.t.nts[0], 0, |p.toks|)
      case Joined(b) =>
        !Complete(p, c) && i' == i && Element(p, words, chart, WithBranch(t, b), c', i', j', h - 1)
      case Joining(prev) =>
        i == i' + Widths(prev.children) && Element(p, words, chart, WithBranch(prev, t), c', i', j', h - 1)
  {
    assert OpenElement(0);
    if e: nat, k: nat {:trigger Joint(p, chart, c + 1, i, j, e, k)} :|
      Used(p, chart, c + 1, i, k, h - 1) && Joint(p, chart, c + 1, i, j, e, k) {
      var b := JoinedUp(p, words, chart, t, c, i, j, e, k, h);
      way, c', i', j' := Joined(b), c + 1, i, k;
    } else if d: nat, k: nat {:trigger Joint(p, chart, d, k, i, c, j)} :|
      Used(p, chart, d, k, j, h - 1) && Joint(p, chart, d, k, i, c, j) {
      var prev := JoiningUp(p, words, chart, t, c, i, j, d, k, h);
      way, c', i', j' := Joining(prev), d, k, j;
    } else {
      assert EarleyTabling.Listed(p.t, p.rules, p.items, 0);
      CompleteTree(p, words, t, c, 0, i, j);
      way, c', i', j' := Rooted, c, i, j;
    }
  }

  /** Every tree of an element that a parse uses has grown into a part of a derivation of the goal. */
  lemma {:induction false} UsedInTree(p: Input, words: seq<string>, chart: Chart, t: Tree, c: nat, i: nat, j: nat,
      h: nat) returns (root: Tree, path: seq<nat>)
    requires Element(p, words, chart, t, c, i, j, h)
    ensures p.t.nts != [] && IsDerivation(p.rules, p.toks, words, root, p.t.nts[0], 0, |p.toks|)
    ensures LeadsDown(root, path) && Place(root, 0, path) == i && Grown(p, t, At(root, path), c)
    decreases h
  {
    var way, c', i', j' := OneUp(p, words, chart, t, c, i, j, h);
    match way {
      case Rooted =>
        root, path := t, [];
      case Joined(b) =>
        root, path := UsedInTree(p, words, chart, WithBranch(t, b), c', i', j', h - 1);
      case Joining(prev) =>
        root, path := UsedInTree(p, words, chart, WithBranch(prev, t), c', i', j', h - 1);
        LastBranch(At(root, path), prev, t);
        Further(root, 0, path, |prev.children|);
        path := path + [|prev.children|];
    }
  }

  ghost predicate OpenRoot(t: Tree, u: int) { true }

  /** t is a tree of an element that a parse uses, of a rule that has been started. */
  ghost predicate Begun(p: Input, words: seq<string>, chart: Chart, t: Tree, c: nat, i: nat, j: nat) {
    forall u {:trigger OpenRoot(t, u)} :: OpenRoot(t, u) ==>
      && InputOk(p) && ChartOk(p, chart) && |words| == |p.toks| && j < |chart| && Useful(p, chart, c, i, j)
      && Started(p, chart, c, i) && TreeOf(p, words, t, c, i, j)
  }

  /** The parts of a tree, and the elements that they belong to. */
  lemma PartsJoint(p: Input, words: seq<string>, chart: Chart, t: Tree, c: nat, a: nat, b: nat)
      returns (prev: Tree, last: Tree, x: nat, e: nat)
    requires InputOk(p) && ChartOk(p, chart) && |words| == |p.toks| && b < |chart| && (c, a) in chart[b]
    requires Started(p, chart, c, a) && TreeOf(p, words, t, c, a, b) && t.children != []
    ensures c > 0 && t == WithBranch(prev, last) && Joint(p, chart, c, a, x, e, b)
    ensures Started(p, chart, c - 1, a) && TreeOf(p, words, prev, c - 1, a, x)
    ensures Started(p, chart, e, x) && TreeOf(p, words, last, e, x, b)
  {
    assert ItemOk(p.rules, p.items, |p.t.nts|, c);
    prev, last, x := Parted(p, words, chart, t, c, a, b);
    WaitingStarts(p, chart, c - 1, a, x);
    e := RootFound(p, words, chart, p.t.steps[c - 1], last, x, b);
  }

  /** The parts of a tree of an element that a parse uses belong to elements that it uses. */
  lemma PartsUsed(p: Input, words: seq<string>, chart: Chart, t: Tree, c: nat, a: nat, b: nat)
      returns (prev: Tree, last: Tree, x: nat, e: nat)
    requires Begun(p, words, chart, t, c, a, b) && t.children != []
    ensures t == WithBranch(prev, last) && c > 0 && x == a + Widths(prev.children)
    ensures Begun(p, words, chart, prev, c - 1, a, x) && Begun(p, words, chart, last, e, x, b) && Complete(p, e)
  {
    assert OpenRoot(t, 0);
    prev, last, x, e := PartsJoint(p, words, chart, t, c, a, b);
    UsefulParts(p, chart, c, a, x, e, b);
    JointTree(p, words, chart, c, a, x, e, b, prev, last);
    TreeStart(p, words, prev, c - 1, a, x);
  }

  /** A path into all but the last branch does not see that. */
  lemma BesideLast(prev: Tree, last: Tree, a: nat, path: seq<nat>)
    requires path != [] && path[0] < |prev.children| && LeadsDown(WithBranch(prev, last), path)
    ensures var t := WithBranch(prev, last);
      LeadsDown(prev, path) && At(prev, path) == At(t, path) && Place(prev, a, path) == Place(t, a, path)
  {
    var t := WithBranch(prev, last);
    assert prev.children[path[0]] == t.children[path[0]] && prev.children[..path[0]] == t.children[..path[0]];
  }

  lemma IntoLast(prev: Tree, last: Tree, a: nat, path: seq<nat>)
    requires path != [] && path[0] == |prev.children| && LeadsDown(WithBranch(prev, last), path)
    ensures var t, x := WithBranch(prev, last), a + Widths(prev.children);
      LeadsDown(last, path[1..]) && At(last, path[1..]) == At(t, path) && Place(last, x, path[1..]) == Place(t, a, path)
  {
    var t := WithBranch(prev, last);
    assert t.children[path[0]] == last && t.children[..path[0]] == prev.children;
  }

  /** The trees below a tree of an element that a parse uses belong to complete elements that it uses. */
  lemma {:induction false} BelowUsed(p: Input, words: seq<string>, chart: Chart, t: Tree, c: nat, a: nat, b: nat,
      path: seq<nat>) returns (u: Tree, i: nat, e: nat, j: nat)
    requires Begun(p, words, chart, t, c, a, b) && LeadsDown(t, path) && path != []
    ensures u == At(t, path) && i == Place(t, a, path) && Begun(p, words, chart, u, e, i, j) && Complete(p, e)
    decreases Depth(t)
  {
    var prev, last, x;
    prev, last, x, e := PartsUsed(p, words, chart, t, c, a, b);
    DeeperBranch(prev, last);
    j := b;
    if path[0] < |prev.children| {
      BesideLast(prev, last, a, path);
      u, i, e, j := BelowUsed(p, words, chart, prev, c - 1, a, x, path);
    } else {
      IntoLast(prev, last, a, path);
      if path[1..] != [] {
        u, i, e, j := BelowUsed(p, words, chart, last, e, x, b, path[1..]);
      } else {
        u, i := last, x;
      }
    }
  }

  /** A parse of the goal uses a category exactly where a derivation of the goal has a node for it. */
  lemma UsedIsNode(p: Input, words: seq<string>, chart: Chart, nt: Symbol, i: nat, j: nat)
    requires InputOk(p) && ChartOk(p, chart) && |words| == |p.toks|
    ensures PartOfParse(p, chart, nt, i, j) <==> InParse(p.rules, p.toks, words, p.t.nts[0], nt, i, j)
  {
    if PartOfParse(p, chart, nt, i, j) { NodeOfUsed(p, words, chart, nt, i, j); }
    if InParse(p.rules, p.toks, words, p.t.nts[0], nt, i, j) { UsedOfNode(p, words, chart, nt, i, j); }
  }

  /** The category of a tree. */
  lemma NodeCategory(p: Input, words: seq<string>, t: Tree, e: nat, i: nat, j: nat) returns (s: nat)
    requires InputOk(p) && e < |p.items| && p.t.steps[e] < 0 && TreeOf(p, words, t, e, i, j)
    ensures s < |p.t.nts| && e in p.t.enders[s] && p.t.nts[s] == t.name.head && j == i + Width(t)
  {
    assert StepOk(p.t, p.rules, p.items, e) && ItemOk(p.rules, p.items, |p.t.nts|, e);
    s := p.t.steps[e] + |p.t.nts|;
    assert EarleyTabling.Listed(p.t, p.rules, p.items, s);
    CompleteTree(p, words, t, e, s, i, j);
    TreeStart(p, words, t, e, i, j);
  }

  lemma NodeOfUsed(p: Input, words: seq<string>, chart: Chart, nt: Symbol, i: nat, j: nat)
    requires InputOk(p) && ChartOk(p, chart) && |words| == |p.toks| && PartOfParse(p, chart, nt, i, j)
    ensures InParse(p.rules, p.toks, words, p.t.nts[0], nt, i, j)
  {
    var s: nat, e: nat {:trigger p.t.nts[s], Useful(p, chart, e, i, j)} :| s < |p.t.nts| && p.t.nts[s] == nt &&
      e in p.t.enders[s] && Useful(p, chart, e, i, j);
    assert EarleyTabling.Listed(p.t, p.rules, p.items, s);
    var h: nat :| Used(p, chart, e, i, j, h);
    var t := ElementTree(p, words, chart, e, i, j);
    var root, path := UsedInTree(p, words, chart, t, e, i, j, h);
    CompleteTree(p, words, t, e, s, i, j);
    TreeStart(p, words, t, e, i, j);
    assert At(root, path) == t && HasNode(root, nt, i, j);
  }

  /** A derivation of the goal belongs to a complete element that a parse uses. */
  lemma RootBegun(p: Input, words: seq<string>, chart: Chart, t: Tree) returns (e: nat)
    requires InputOk(p) && ChartOk(p, chart) && |words| == |p.toks|
    requires IsDerivation(p.rules, p.toks, words, t, p.t.nts[0], 0, |p.toks|)
    ensures Begun(p, words, chart, t, e, 0, |p.toks|) && Complete(p, e)
  {
    GoalUsed(p, chart);
    e := RootFound(p, words, chart, 0, t, 0, |p.toks|);
    assert EarleyTabling.Listed(p.t, p.rules, p.items, 0);
    assert Used(p, chart, e, 0, |p.toks|, 1);
  }

  /** A tree of an element that a parse uses has its category used. */
  lemma BegunPart(p: Input, words: seq<string>, chart: Chart, u: Tree, e: nat, i: nat, j: nat)
    requires Begun(p, words, chart, u, e, i, j) && Complete(p, e)
    ensures j == i + Width(u) && PartOfParse(p, chart, u.name.head, i, j)
  {
    assert OpenRoot(u, 0);
    var s := NodeCategory(p, words, u, e, i, j);
    assert p.t.nts[s] == u.name.head && Useful(p, chart, e, i, j);
  }

  lemma UsedOfNode(p: Input, words: seq<string>, chart: Chart, nt: Symbol, i: nat, j: nat)
    requires InputOk(p) && ChartOk(p, chart) && |words| == |p.toks|
    requires InParse(p.rules, p.toks, words, p.t.nts[0], nt, i, j)
    ensures PartOfParse(p, chart, nt, i, j)
  {
    var t :| IsDerivation(p.rules, p.toks, words, t, p.t.nts[0], 0, |p.toks|) && HasNode(t, nt, i, j);
    var path :| LeadsDown(t, path) && At(t, path).name.head == nt && Place(t, 0, path) == i &&
      j == i + Width(At(t, path));
    var u, x, j' := t, 0, |p.toks|;
    var e := RootBegun(p, words, chart, t);
    if path != [] { u, x, e, j' := BelowUsed(p, words, chart, t, e, 0, j', path); }
    BegunPart(p, words, chart, u, e, x, j');
  }
}
