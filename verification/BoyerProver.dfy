/**
  The Boyer prover in jni/v8core/v8/benchmarks/earley-boyer.js: lemmas are entered by operator, a term
  is rewritten by them and the result checked for being a tautology.
*/
module BoyerProving {
  import opened BoyerTerms
  import opened BoyerMatching
  import opened BoyerRewriting
  import opened BoyerTautologies
  import BoyerRuns

  /** One lemma entered, before those of the same operator. */
  function AddLemma(R: Records, l: Term): (S: Records)
    requires IsLemma(l)
    ensures ValidRecords(R) ==> ValidRecords(S)
  {
    var op := l.args[0].op;
    R[op := [l] + LemmasFor(R, op)]
  }

  function RecordsOf(ls: seq<Term>): (R: Records)
    requires AllLemmas(ls)
    ensures ValidRecords(R)
  {
    if ls == [] then map[] else AddLemma(RecordsOf(ls[..|ls| - 1]), ls[|ls| - 1])
  }

  /** The records hold the lemmas given and no others, each under the operator of its left-hand side. */
  lemma {:induction false} RecordsHold(ls: seq<Term>, op: string, l: Term)
    requires AllLemmas(ls)
    ensures l in LemmasFor(RecordsOf(ls), op) <==> l in ls && l.args[0].op == op
  {
    if ls != [] {
      var n := |ls| - 1;
      RecordsHold(ls[..n], op, l);
      assert ls == ls[..n] + [ls[n]];
    }
  }

  /** The lemmas with that operator, in the order given. */
  ghost function WithOp(ls: seq<Term>, op: string): seq<Term>
    requires AllLemmas(ls)
  {
    if ls == [] then []
    else (if ls[0].args[0].op == op then [ls[0]] else []) + WithOp(ls[1..], op)
  }

  lemma {:induction false} WithOpAppend(ls: seq<Term>, l: Term, op: string)
    requires AllLemmas(ls) && IsLemma(l)
    ensures WithOp(ls + [l], op) == WithOp(ls, op) + if l.args[0].op == op then [l] else []
  {
    if ls != [] {
      WithOpAppend(ls[1..], l, op);
      assert (ls + [l])[1..] == ls[1..] + [l];
    } else {
      assert WithOp(ls[..0], op) == [] && ls + [l] == [l] && [l][1..] == [];
    }
  }

  /** The lemmas of an operator are tried in the reverse of the order in which they were given. */
  lemma {:induction false} NewestFirst(ls: seq<Term>, op: string)
    requires AllLemmas(ls)
    ensures var r, w := LemmasFor(RecordsOf(ls), op), WithOp(ls, op);
      |r| == |w| && forall i :: 0 <= i < |r| ==> r[i] == w[|w| - 1 - i]
  {
    if ls != [] {
      var n := |ls| - 1;
      NewestFirst(ls[..n], op);
      WithOpAppend(ls[..n], ls[n], op);
      assert ls == ls[..n] + [ls[n]];
      var r, w := LemmasFor(RecordsOf(ls[..n]), op), WithOp(ls[..n], op);
      if ls[n].args[0].op == op {
        assert LemmasFor(RecordsOf(ls), op) == [ls[n]] + r;
      } else {
        assert LemmasFor(RecordsOf(ls), op) == r;
      }
    }
  }

  lemma RecordsSatisfied<D(!new)>(I: Interp<D>, ls: seq<Term>)
    requires AllLemmas(ls) && forall i :: 0 <= i < |ls| ==> Satisfies(I, ls[i])
    ensures SatisfiesAll(I, RecordsOf(ls))
  {
    var R := RecordsOf(ls);
    forall op | op in R ensures forall i :: 0 <= i < |R[op]| ==> Satisfies(I, R[op][i]) {
      forall i | 0 <= i < |R[op]| ensures Satisfies(I, R[op][i]) {
        assert R[op][i] in LemmasFor(R, op);
        RecordsHold(ls, op, R[op][i]);
      }
    }
  }

  /** What the prover answers for an instance of a term. */
  ghost function Answer(R: Records, alist: Alist, t: Term, fuel: nat): Option<bool>
    requires ValidRecords(R)
  {
    var r := BoyerRewriting.Rewrite(R, ApplySubst(alist, t), fuel);
    if r.None? then None else Taut(r.value.0, [], [])
  }

  /** Answered true, the instance is not false in any interpretation that satisfies the lemmas and
      gives `if`, true and false their meaning, whatever the variables mean. */
  lemma ProverSound<D(!new)>(I: Interp<D>, ls: seq<Term>, alist: Alist, t: Term, fuel: nat, env: string -> D)
    requires AllLemmas(ls) && Meaningful(I) && forall i :: 0 <= i < |ls| ==> Satisfies(I, ls[i])
    requires Answer(RecordsOf(ls), alist, t, fuel) == Some(true)
    ensures Eval(I, env, ApplySubst(alist, t)) != I.apply("f", [])
  {
    RecordsSatisfied(I, ls);
    var R, x := RecordsOf(ls), ApplySubst(alist, t);
    var y := BoyerRewriting.Rewrite(R, x, fuel).value.0;
    RewriteSound(I, R, x, fuel, env);
    TautSound(TrueIn(I, env), y, [], []);
    ValIsEval(I, env, y);
  }

  /** if(if(a, b, c), d, e) */
  const NESTED_IF: Term :=
    Call(IF, [Call(IF, [Var("a"), Var("b"), Var("c")]), Var("d"), Var("e")])

  /** Every `if` has three operands. */
  predicate Ternary(t: Term) {
    t.Call? ==> (t.op == IF ==> |t.args| == 3) && forall i :: 0 <= i < |t.args| ==> Ternary(t.args[i])
  }

  ghost predicate BindsTernary(s: Alist) {
    forall i :: 0 <= i < |s| ==> Ternary(s[i].1)
  }

  lemma {:induction false} MatchTernary(s: Alist, t: Term, p: Term)
    requires BindsTernary(s) && Ternary(t)
    ensures BindsTernary(Match(s, t, p).1)
    decreases p
  {
    if p.Call? && t.Call? { MatchArgsTernary(s, t.args, p.args); }
  }

  lemma {:induction false} MatchArgsTernary(s: Alist, ts: seq<Term>, ps: seq<Term>)
    requires BindsTernary(s) && forall i :: 0 <= i < |ts| ==> Ternary(ts[i])
    ensures BindsTernary(MatchArgs(s, ts, ps).1)
    decreases ps
  {
    if ts != [] && ps != [] {
      MatchTernary(s, ts[0], ps[0]);
      MatchArgsTernary(Match(s, ts[0], ps[0]).1, ts[1..], ps[1..]);
    }
  }

  lemma {:induction false} ApplyTernary(s: Alist, t: Term)
    requires BindsTernary(s) && Ternary(t)
    ensures Ternary(ApplySubst(s, t))
    decreases t
  {
    if t.Call? {
      ApplyTernaryArgs(s, t.args);
    } else if Assq(t, s).Some? {
      var i :| 0 <= i < |s| && s[i] == (t, Assq(t, s).value);
    }
  }

  lemma {:induction false} ApplyTernaryArgs(s: Alist, ts: seq<Term>)
    requires BindsTernary(s) && forall i :: 0 <= i < |ts| ==> Ternary(ts[i])
    ensures var r := ApplySubstArgs(s, ts); |r| == |ts| && forall i :: 0 <= i < |r| ==> Ternary(r[i])
    decreases ts
  {
    if ts != [] {
      ApplyTernary(s, ts[0]);
      ApplyTernaryArgs(s, ts[1..]);
    }
  }

  ghost predicate RecordsTernary(R: Records) {
    forall op :: op in R ==> forall i :: 0 <= i < |R[op]| ==> Ternary(R[op][i])
  }

  lemma {:induction false} RewriteTernary(R: Records, t: Term, fuel: nat)
    requires ValidRecords(R) && RecordsTernary(R) && Ternary(t) && BoyerRewriting.Rewrite(R, t, fuel).Some?
    ensures Ternary(BoyerRewriting.Rewrite(R, t, fuel).value.0)
    decreases fuel, 0
  {
    if t.Call? {
      RewriteArgsTernary(R, t.args, fuel - 1);
      var ls := LemmasFor(R, t.op);
      var t1 := Call(t.op, BoyerRewriting.RewriteArgs(R, t.args, fuel - 1).value.0);
      var next := Reduce(ls, t1);
      if next.Reduced? {
        var l := ls[FirstMatch(ls, t1)];
        MatchTernary([], t1, l.args[0]);
        ApplyTernary(Match([], t1, l.args[0]).1, l.args[1]);
        RewriteTernary(R, next.term, fuel - 1);
      }
    }
  }

  lemma {:induction false} RewriteArgsTernary(R: Records, ts: seq<Term>, fuel: nat)
    requires ValidRecords(R) && RecordsTernary(R) && BoyerRewriting.RewriteArgs(R, ts, fuel).Some?
    requires forall i :: 0 <= i < |ts| ==> Ternary(ts[i])
    ensures var r := BoyerRewriting.RewriteArgs(R, ts, fuel).value.0; forall i :: 0 <= i < |r| ==> Ternary(r[i])
    decreases fuel, 2 + |ts|
  {
    if ts != [] {
      RewriteTernary(R, ts[0], fuel);
      RewriteArgsTernary(R, ts[1..], fuel);
    }
  }

  /** A nested `if` is an instance of the left-hand side of the lemma that lifts the inner one out. */
  lemma NestedInstance(t: Term)
    requires Ternary(t) && t.Call? && t.op == IF && t.args[0].Call? && t.args[0].op == IF
    ensures Instance(t, NESTED_IF)
  {
    var u := t.args[0];
    var f: string -> Term := x =>
      if x == "a" then u.args[0] else if x == "b" then u.args[1] else if x == "c" then u.args[2]
      else if x == "d" then t.args[1] else t.args[2];
    var inner := NESTED_IF.args[0];
    ThreeArgs(f, inner.args);
    assert Subst(f, inner) == u;
    ThreeArgs(f, NESTED_IF.args);
    assert Subst(f, NESTED_IF) == t;
  }

  lemma ThreeArgs(f: string -> Term, ts: seq<Term>)
    requires |ts| == 3
    ensures SubstArgs(f, ts) == [Subst(f, ts[0]), Subst(f, ts[1]), Subst(f, ts[2])]
  {
    assert ts[1..][0] == ts[1] && ts[1..][1..] == ts[2..] && ts[2..][0] == ts[2] && ts[2..][1..] == [];
    assert SubstArgs(f, ts[2..]) == [Subst(f, ts[2])];
    assert SubstArgs(f, ts[1..]) == [Subst(f, ts[1])] + SubstArgs(f, ts[2..]);
  }

  /** With that lemma, a normal term has simple tests. */
  lemma {:induction false} NormalSimple(R: Records, l: Term, t: Term)
    requires ValidRecords(R) && l in LemmasFor(R, IF) && l.args[0] == NESTED_IF
    requires Normal(R, t) && Ternary(t)
    ensures TestsSimple(t)
    decreases t
  {
    if t.Call? && t.op == IF {
      if t.args[0].Call? && t.args[0].op == IF {
        var i :| 0 <= i < |LemmasFor(R, IF)| && LemmasFor(R, IF)[i] == l;
        NestedInstance(t);
      }
      NormalSimple(R, l, t.args[1]);
      NormalSimple(R, l, t.args[2]);
    }
  }

  /** Among the lemmas the one that lifts a nested `if` out, the answer is true exactly when what the
      instance is rewritten to is a tautology. */
  lemma ProverDecides(ls: seq<Term>, l: Term, alist: Alist, t: Term, fuel: nat)
    requires AllLemmas(ls) && l in ls && l.args[0] == NESTED_IF && forall i :: 0 <= i < |ls| ==> Ternary(ls[i])
    requires Ternary(t) && BindsTernary(alist)
    requires Answer(RecordsOf(ls), alist, t, fuel).Some?
    ensures Answer(RecordsOf(ls), alist, t, fuel) == Some(true)
      <==> Tautology(BoyerRewriting.Rewrite(RecordsOf(ls), ApplySubst(alist, t), fuel).value.0)
  {
    var R, x := RecordsOf(ls), ApplySubst(alist, t);
    forall op, i | op in R && 0 <= i < |R[op]| ensures Ternary(R[op][i]) {
      assert R[op][i] in LemmasFor(R, op);
      RecordsHold(ls, op, R[op][i]);
    }
    RecordsHold(ls, IF, l);
    ApplyTernary(alist, t);
    RewriteTernary(R, x, fuel);
    RewriteNormal(R, x, fuel);
    var y := BoyerRewriting.Rewrite(R, x, fuel).value.0;
    NormalSimple(R, l, y);
    TautDecides(y);
  }

  /** (or (or ... (f)) (f)), n times, as the benchmark wraps its theorem. */
  function Wrapped(t: Term, n: nat): Term
    decreases n
  {
    if n == 0 then t else Wrapped(Call("or", [t, FALSE]), n - 1)
  }

  /** "or" is true when one of its operands is. */
  ghost predicate Disjunctive<D(!new)>(I: Interp<D>) {
    var no := I.apply("f", []);
    forall d, e {:trigger I.apply("or", [d, e])} :: I.apply("or", [d, e]) != no <==> d != no || e != no
  }

  /** The wrapping changes neither the truth of a term nor what a substitution does to it. */
  lemma {:induction false} WrappedTruth<D(!new)>(I: Interp<D>, env: string -> D, t: Term, n: nat)
    requires Disjunctive(I)
    ensures Eval(I, env, Wrapped(t, n)) != I.apply("f", []) <==> Eval(I, env, t) != I.apply("f", [])
    decreases n
  {
    if n > 0 {
      var u := Call("or", [t, FALSE]);
      WrappedTruth(I, env, u, n - 1);
      var d := Eval(I, env, t);
      assert EvalArgs(I, env, FALSE.args) == [];
      assert EvalArgs(I, env, u.args) == [d, I.apply("f", [])];
      assert Eval(I, env, u) == I.apply("or", [d, I.apply("f", [])]);
    }
  }

  lemma {:induction false} WrappedSubst(s: Alist, t: Term, n: nat)
    ensures ApplySubst(s, Wrapped(t, n)) == Wrapped(ApplySubst(s, t), n)
    decreases n
  {
    if n > 0 {
      var ts := [t, FALSE];
      WrappedSubst(s, Call("or", ts), n - 1);
      assert ts[1..] == [FALSE] && ApplySubst(s, FALSE) == FALSE;
      assert ApplySubstArgs(s, [FALSE]) == [FALSE];
      assert ApplySubstArgs(s, ts) == [ApplySubst(s, t), FALSE];
    }
  }

  /** Each layer has two subterms more. */
  lemma {:induction false} WrappedSize(t: Term, n: nat)
    ensures BoyerRuns.Size(Wrapped(t, n)) == BoyerRuns.Size(t) + 2 * n
    decreases n
  {
    if n > 0 {
      var ts := [t, FALSE];
      WrappedSize(Call("or", ts), n - 1);
      assert ts[1..] == [FALSE] && BoyerRuns.Sizes([FALSE]) == 1;
      assert BoyerRuns.Sizes(ts) == BoyerRuns.Size(t) + 1;
    }
  }

  /** Answered true for the wrapped theorem, the theorem's instance itself is not false in any interpretation that
      satisfies the lemmas and gives `if`, `or`, true and false their meaning. */
  lemma TheoremProved<D(!new)>(I: Interp<D>, ls: seq<Term>, alist: Alist, theorem: Term, n: nat, fuel: nat,
      env: string -> D)
    requires AllLemmas(ls) && forall i :: 0 <= i < |ls| ==> Satisfies(I, ls[i])
    requires Meaningful(I) && Disjunctive(I)
    requires Answer(RecordsOf(ls), alist, Wrapped(theorem, n), fuel) == Some(true)
    ensures Eval(I, env, ApplySubst(alist, theorem)) != I.apply("f", [])
  {
    ProverSound(I, ls, alist, Wrapped(theorem, n), fuel, env);
    WrappedSubst(alist, theorem, n);
    WrappedTruth(I, env, ApplySubst(alist, theorem), n);
  }

  /** A run of the rewriter on the wrapped theorem's instance, with the answer and the number of its calls. */
  ghost predicate Tested(R: Records, run: BoyerRuns.Run, term: Term, answer: Option<bool>, count: nat)
    requires ValidRecords(R)
  {
    && BoyerRuns.IsRun(R, run) && run.term == term
    && answer == Taut(BoyerRuns.Result(run), [], []) && count == BoyerRuns.Calls(run)
  }

  /** The global variables of the prover. */
  class Prover {
    var records: Records
    var unifySubst: Alist
    var rewriteCount: nat

    constructor ()
      ensures records == map[]
    {
      records, unifySubst, rewriteCount := map[], [], 0;
    }

    /** `setup-boyer`; not ok where the source reports an error. */
    method Setup(lst: seq<Term>) returns (ok: bool)
      modifies `records
      ensures ok <==> AllLemmas(lst)
      ensures ok ==> records == RecordsOf(lst)
    {
      records := map[];
      var i := 0;
      while i < |lst|
        invariant 0 <= i <= |lst| && AllLemmas(lst[..i]) && records == RecordsOf(lst[..i])
      {
        if !IsLemma(lst[i]) {
          return false;
        }
        assert lst[..i + 1][..i] == lst[..i];
        records := AddLemma(records, lst[i]);
        i := i + 1;
      }
      assert lst[..i] == lst;
      ok := true;
    }

    /** `one_way_unify1` */
    method OneWayUnify1(term1: Term, term2: Term) returns (r: bool)
      modifies `unifySubst
      ensures (r, unifySubst) == Match(old(unifySubst), term1, term2)
      decreases term2
    {
      if !term2.Call? {
        var temp := Assq(term2, unifySubst);
        if temp.Some? {
          r := IsTermEqual(term1, temp.value);
        } else if term2.Num? {
          r := term1 == term2;
        } else {
          unifySubst := [(term2, term1)] + unifySubst;
          r := true;
        }
        return;
      }
      if !term1.Call? || term1.op != term2.op {
        return false;
      }
      var lst1, lst2 := term1.args, term2.args;
      while true
        invariant |lst2| <= |term2.args| && lst2 == term2.args[|term2.args| - |lst2|..]
        invariant MatchArgs(unifySubst, lst1, lst2) == MatchArgs(old(unifySubst), term1.args, term2.args)
        decreases |lst1|
      {
        if lst1 == [] {
          return lst2 == [];
        }
        if lst2 == [] {
          return false;
        }
        assert lst2[0] == term2.args[|term2.args| - |lst2|];
        r := OneWayUnify1(lst1[0], lst2[0]);
        if !r {
          return false;
        }
        lst1, lst2 := lst1[1..], lst2[1..];
      }
    }

    /** `rewrite` */
    method Rewrite(term: Term, fuel: nat) returns (r: Option<Term>)
      requires ValidRecords(records)
      modifies `unifySubst, `rewriteCount
      ensures var x := BoyerRewriting.Rewrite(records, term, fuel);
        if x.Some? then r == Some(x.value.0) && rewriteCount == old(rewriteCount) + x.value.1 else r.None?
      decreases fuel, 0
    {
      if fuel == 0 {
        return None;
      }
      rewriteCount := rewriteCount + 1;
      if !term.Call? {
        return Some(term);
      }
      var args := RewriteArgs(term.args, fuel - 1);
      if args.None? {
        return None;
      }
      var t := Call(term.op, args.value);
      var lst := LemmasFor(records, term.op);
      var i := 0;
      while i < |lst|
        invariant 0 <= i <= |lst| && FirstMatch(lst, t) >= i
        invariant rewriteCount == old(rewriteCount) + 1 + BoyerRewriting.RewriteArgs(records, term.args,
          fuel - 1).value.1
      {
        unifySubst := [];
        var ok := OneWayUnify1(t, lst[i].args[0]);
        if ok {
          if |lst[i].args| < 2 {
            return None;
          }
          r := Rewrite(ApplySubst(unifySubst, lst[i].args[1]), fuel - 1);
          return;
        }
        i := i + 1;
      }
      r := Some(t);
    }

    /** `rewrite_args` */
    method RewriteArgs(lst: seq<Term>, fuel: nat) returns (r: Option<seq<Term>>)
      requires ValidRecords(records)
      modifies `unifySubst, `rewriteCount
      ensures var x := BoyerRewriting.RewriteArgs(records, lst, fuel);
        if x.Some? then r == Some(x.value.0) && rewriteCount == old(rewriteCount) + x.value.1 else r.None?
      decreases fuel, 1 + |lst|
    {
      if lst == [] {
        return Some([]);
      }
      var first := Rewrite(lst[0], fuel);
      var rest := RewriteArgs(lst[1..], fuel);
      r := if first.None? || rest.None? then None else Some([first.value] + rest.value);
    }

    /** `tautologyp` */
    method Tautologyp(x: Term, trues: seq<Term>, falses: seq<Term>) returns (r: Option<bool>)
      ensures r == Taut(x, trues, falses)
      decreases x
    {
      var y, fs := x, falses;
      while true
        invariant y == x || y < x
        invariant Taut(y, trues, fs) == Taut(x, trues, falses)
        decreases y
      {
        var yes := TrueTerm(y, trues);
        if yes { return Some(true); }
        var no := FalseTerm(y, fs);
        if no { return Some(false); }
        if !y.Call? || y.op != IF { return Some(false); }
        if |y.args| < 1 { return None; }
        yes := TrueTerm(y.args[0], trues);
        if yes {
          if |y.args| < 2 { return None; }
          y := y.args[1];
        } else {
          no := FalseTerm(y.args[0], fs);
          if no {
            if |y.args| < 3 { return None; }
            y := y.args[2];
          } else {
            if |y.args| < 2 { return None; }
            var t := Tautologyp(y.args[1], [y.args[0]] + trues, fs);
            if t != Some(true) { return t; }
            if |y.args| < 3 { return None; }
            fs := [y.args[0]] + fs;
            y := y.args[2];
          }
        }
      }
    }

    /** Equal to the term for true, or assumed. */
    method TrueTerm(x: Term, trues: seq<Term>) returns (r: bool)
      ensures r <==> x == TRUE || x in trues
    {
      r := IsTermEqual(x, TRUE);
      if !r { r := IsTermMember(x, trues); }
    }

    method FalseTerm(x: Term, falses: seq<Term>) returns (r: bool)
      ensures r <==> x == FALSE || x in falses
    {
      r := IsTermEqual(x, FALSE);
      if !r { r := IsTermMember(x, falses); }
    }

    /** `test-boyer`: whether the wrapped theorem is proved, and the number of rewrites. */
    method TestBoyer(n: nat, theorem: Term, alist: Alist, fuel: nat)
        returns (answer: Option<bool>, ghost run: BoyerRuns.Run)
      requires ValidRecords(records)
      modifies `unifySubst, `rewriteCount
      ensures answer == Answer(records, alist, Wrapped(theorem, n), fuel)
      ensures answer.Some? ==>
        Tested(records, run, Wrapped(ApplySubst(alist, theorem), n), answer, rewriteCount)
    {
      rewriteCount, run := 0, BoyerRuns.Run(theorem, [], None);
      var term := theorem;
      var i := n;
      while i != 0
        invariant Wrapped(term, i) == Wrapped(theorem, n)
      {
        term := Call("or", [term, FALSE]);
        i := i - 1;
      }
      var rewritten := Rewrite(ApplySubst(alist, term), fuel);
      if rewritten.None? {
        return None, run;
      }
      run := BoyerRuns.RunOf(records, ApplySubst(alist, term), fuel);
      WrappedSubst(alist, theorem, n);
      answer := Tautologyp(rewritten.value, [], []);
    }
  }
}
