/**
  Runs of the rewriter in jni/v8core/v8/benchmarks/earley-boyer.js as trees of calls: what a run is, that
  the rewriter's answers and counts are exactly those of the runs, and how many calls a normal term takes.
*/
module BoyerRuns {
  import opened BoyerTerms
  import opened BoyerMatching
  import opened BoyerRewriting

  /** One call: its term, the calls for the operands, and the call for what a lemma has made of it. */
  datatype Run = Run(term: Term, operands: seq<Run>, next: Option<Run>)

  /** What the call returns. */
  ghost function Result(r: Run): Term
    decreases r, 1
  {
    if r.next.Some? then Result(r.next.value)
    else if r.term.Call? then Call(r.term.op, Results(r.operands))
    else r.term
  }

  ghost function Results(rs: seq<Run>): (ts: seq<Term>)
    ensures |ts| == |rs| && forall i :: 0 <= i < |rs| ==> ts[i] == Result(rs[i])
    decreases rs, 0
  {
    if rs == [] then [] else [Result(rs[0])] + Results(rs[1..])
  }

  /** The number of calls. */
  ghost function Calls(r: Run): nat
    decreases r, 1
  {
    1 + AllCalls(r.operands) + if r.next.Some? then Calls(r.next.value) else 0
  }

  ghost function AllCalls(rs: seq<Run>): nat
    decreases rs, 0
  {
    if rs == [] then 0 else Calls(rs[0]) + AllCalls(rs[1..])
  }

  /** How deep the calls are nested. */
  ghost function Height(r: Run): nat
    decreases r, 1
  {
    var below, after := Heights(r.operands), if r.next.Some? then Height(r.next.value) else 0;
    1 + if below < after then after else below
  }

  ghost function Heights(rs: seq<Run>): nat
    decreases rs, 0
  {
    if rs == [] then 0
    else
      var first, rest := Height(rs[0]), Heights(rs[1..]);
      if first < rest then rest else first
  }

  /** The variable occurs in the term. */
  ghost predicate Occurs(x: string, t: Term) {
    t == Var(x) || (t.Call? && exists i :: 0 <= i < |t.args| && Occurs(x, t.args[i]))
  }

  ghost predicate TurnsBy(f: string -> Term, l: Term, t: Term, u: Term)
    requires l.Call? && |l.args| > 1
  {
    && Subst(f, l.args[0]) == t && Subst(f, l.args[1]) == u
    && forall x :: !Occurs(x, l.args[0]) ==> f(x) == Var(x)
  }

  /** Lemma l turns t into u: the left-hand side made t, the right-hand side is u; variables that only the right-hand
      side has stay. */
  ghost predicate Turns(l: Term, t: Term, u: Term) {
    && l.Call? && |l.args| > 1
    && exists f :: TurnsBy(f, l, t, u)
  }

  /** The first of the lemmas that has an instance turns t into u. */
  ghost predicate TurnsFirst(ls: seq<Term>, t: Term, u: Term)
    requires AllLemmas(ls)
  {
    exists i :: 0 <= i < |ls| && Turns(ls[i], t, u) && forall k :: 0 <= k < i ==> !Instance(t, ls[k].args[0])
  }

  ghost predicate NoInstance(ls: seq<Term>, t: Term)
    requires AllLemmas(ls)
  {
    forall i :: 0 <= i < |ls| ==> !Instance(t, ls[i].args[0])
  }

  /** The bindings of a match are for variables of the pattern, besides those there were. */
  lemma {:induction false} MatchBinds(s: Alist, t: Term, p: Term, x: string)
    requires !Occurs(x, p)
    ensures Assq(Var(x), Match(s, t, p).1) == Assq(Var(x), s)
    decreases p
  {
    if p.Call? {
      if t.Call? { MatchArgsBinds(s, t.args, p.args, x); }
    } else if Assq(p, s).None? && p.Var? {
      assert Match(s, t, p).1[1..] == s;
    }
  }

  lemma {:induction false} MatchArgsBinds(s: Alist, ts: seq<Term>, ps: seq<Term>, x: string)
    requires forall i :: 0 <= i < |ps| ==> !Occurs(x, ps[i])
    ensures Assq(Var(x), MatchArgs(s, ts, ps).1) == Assq(Var(x), s)
    decreases ps
  {
    if ts != [] && ps != [] {
      MatchBinds(s, ts[0], ps[0], x);
      MatchArgsBinds(Match(s, ts[0], ps[0]).1, ts[1..], ps[1..], x);
    }
  }

  /** Substitutions that make a pattern the same term agree on its variables. */
  lemma {:induction false} AgreeOn(f: string -> Term, g: string -> Term, p: Term, x: string)
    requires Subst(f, p) == Subst(g, p) && Occurs(x, p)
    ensures f(x) == g(x)
    decreases p
  {
    if p.Call? {
      var i :| 0 <= i < |p.args| && Occurs(x, p.args[i]);
      ArgAt(f, p.args, i);
      ArgAt(g, p.args, i);
      AgreeOn(f, g, p.args[i], x);
    }
  }

  lemma {:induction false} ArgAt(f: string -> Term, ts: seq<Term>, i: nat)
    requires i < |ts|
    ensures |SubstArgs(f, ts)| == |ts| && SubstArgs(f, ts)[i] == Subst(f, ts[i])
    decreases ts
  {
    if i > 0 {
      ArgAt(f, ts[1..], i - 1);
    } else if |ts| > 1 {
      ArgAt(f, ts[1..], 0);
    }
  }

  lemma {:induction false} SameSubst(f: string -> Term, g: string -> Term, t: Term)
    requires forall x :: f(x) == g(x)
    ensures Subst(f, t) == Subst(g, t)
    decreases t
  {
    if t.Call? { SameSubstArgs(f, g, t.args); }
  }

  lemma {:induction false} SameSubstArgs(f: string -> Term, g: string -> Term, ts: seq<Term>)
    requires forall x :: f(x) == g(x)
    ensures SubstArgs(f, ts) == SubstArgs(g, ts)
    decreases ts
  {
    if ts != [] {
      SameSubst(f, g, ts[0]);
      SameSubstArgs(f, g, ts[1..]);
    }
  }

  /** The substitution that a match has found. */
  lemma Found(l: Term, t: Term) returns (f: string -> Term)
    requires IsLemma(l) && |l.args| > 1 && Match([], t, l.args[0]).0
    ensures TurnsBy(f, l, t, ApplySubst(Match([], t, l.args[0]).1, l.args[1]))
  {
    var s := Match([], t, l.args[0]).1;
    f := Of(s);
    MatchSound([], t, l.args[0], f);
    ApplyIsSubst(s, l.args[1]);
    forall x | !Occurs(x, l.args[0]) ensures f(x) == Var(x) { MatchBinds([], t, l.args[0], x); }
  }

  lemma TurnsIs(ls: seq<Term>, t: Term, u: Term)
    requires AllLemmas(ls) && TurnsFirst(ls, t, u)
    ensures Reduce(ls, t) == Reduced(u)
  {
    var k :| 0 <= k < |ls| && Turns(ls[k], t, u) && forall n :: 0 <= n < k ==> !Instance(t, ls[n].args[0]);
    var l := ls[k];
    var g :| TurnsBy(g, l, t, u);
    assert Instance(t, l.args[0]);
    forall n | 0 <= n <= k ensures Match([], t, ls[n].args[0]).0 <==> n == k { MatchExact(t, ls[n].args[0]); }
    assert FirstMatch(ls, t) == k;
    var f := Found(l, t);
    forall x ensures f(x) == g(x) {
      if Occurs(x, l.args[0]) { AgreeOn(f, g, l.args[0], x); }
    }
    SameSubst(f, g, l.args[1]);
  }

  /** What the rewriter's search makes of t is what the first lemma that has an instance turns it into. */
  lemma ReduceIs(ls: seq<Term>, t: Term, u: Term)
    requires AllLemmas(ls)
    ensures Reduce(ls, t) == Reduced(u) <==> TurnsFirst(ls, t, u)
    ensures Reduce(ls, t) == Irreducible <==> NoInstance(ls, t)
  {
    var i := FirstMatch(ls, t);
    forall k | 0 <= k < |ls| ensures Match([], t, ls[k].args[0]).0 <==> Instance(t, ls[k].args[0]) {
      MatchExact(t, ls[k].args[0]);
    }
    if Reduce(ls, t) == Reduced(u) { var f := Found(ls[i], t); }
    if TurnsFirst(ls, t, u) { TurnsIs(ls, t, u); }
  }

  /** The operands are rewritten first, then the result of the first lemma that has an instance; if there is none, that
      is all. */
  ghost predicate IsRun(R: Records, r: Run)
    requires ValidRecords(R)
    decreases r, 1
  {
    if !r.term.Call? then r.operands == [] && r.next.None?
    else
      && AreRuns(R, r.operands, r.term.args)
      && var step := Reduce(LemmasFor(R, r.term.op), Call(r.term.op, Results(r.operands)));
      if r.next.None? then step == Irreducible else step == Reduced(r.next.value.term) && IsRun(R, r.next.value)
  }

  ghost predicate AreRuns(R: Records, rs: seq<Run>, ts: seq<Term>)
    requires ValidRecords(R)
    decreases rs, 0
  {
    && |rs| == |ts|
    && (rs != [] ==> rs[0].term == ts[0] && IsRun(R, rs[0]) && AreRuns(R, rs[1..], ts[1..]))
  }

  /** The rewriter's answer is that of a run, and so is the number of its calls. */
  lemma {:induction false} RunOf(R: Records, t: Term, fuel: nat) returns (r: Run)
    requires ValidRecords(R) && Rewrite(R, t, fuel).Some?
    ensures IsRun(R, r) && r.term == t && Rewrite(R, t, fuel).value == (Result(r), Calls(r)) && Height(r) <= fuel
    decreases fuel, 0
  {
    if !t.Call? {
      r := Run(t, [], None);
    } else {
      var operands := RunsOf(R, t.args, fuel - 1);
      var step := Reduce(LemmasFor(R, t.op), Call(t.op, Results(operands)));
      if step.Reduced? {
        var next := RunOf(R, step.term, fuel - 1);
        r := Run(t, operands, Some(next));
      } else {
        r := Run(t, operands, None);
      }
      Unfolded(R, r, fuel);
    }
  }

  /** The answer for a call whose operands come to ts in n calls; after is the answer for what a lemma makes of it. */
  lemma RewriteCall(R: Records, t: Term, fuel: nat, ts: seq<Term>, n: nat, step: Step, after: (Term, nat))
    requires ValidRecords(R) && t.Call? && fuel > 0 && RewriteArgs(R, t.args, fuel - 1) == Some((ts, n))
    requires step == Reduce(LemmasFor(R, t.op), Call(t.op, ts))
    requires step.Reduced? ==> Rewrite(R, step.term, fuel - 1) == Some(after)
    ensures step.Irreducible? ==> Rewrite(R, t, fuel) == Some((Call(t.op, ts), 1 + n))
    ensures step.Reduced? ==> Rewrite(R, t, fuel) == Some((after.0, 1 + n + after.1))
  {
  }

  /** The answer for a call whose parts are runs. */
  lemma Unfolded(R: Records, r: Run, fuel: nat)
    requires ValidRecords(R) && r.term.Call? && AreRuns(R, r.operands, r.term.args) && fuel > 0
    requires var step := Reduce(LemmasFor(R, r.term.op), Call(r.term.op, Results(r.operands)));
      if r.next.None? then step == Irreducible else step == Reduced(r.next.value.term) && IsRun(R, r.next.value)
    requires RewriteArgs(R, r.term.args, fuel - 1) == Some((Results(r.operands), AllCalls(r.operands)))
    requires r.next.Some? ==>
      Rewrite(R, r.next.value.term, fuel - 1) == Some((Result(r.next.value), Calls(r.next.value)))
    ensures IsRun(R, r) && Rewrite(R, r.term, fuel) == Some((Result(r), Calls(r)))
  {
    var ts, n := Results(r.operands), AllCalls(r.operands);
    var after := if r.next.Some? then (Result(r.next.value), Calls(r.next.value)) else (r.term, 0);
    RewriteCall(R, r.term, fuel, ts, n, Reduce(LemmasFor(R, r.term.op), Call(r.term.op, ts)), after);
  }

  lemma {:induction false} RunsOf(R: Records, ts: seq<Term>, fuel: nat) returns (rs: seq<Run>)
    requires ValidRecords(R) && RewriteArgs(R, ts, fuel).Some?
    ensures AreRuns(R, rs, ts)
    ensures RewriteArgs(R, ts, fuel).value == (Results(rs), AllCalls(rs)) && Heights(rs) <= fuel
    decreases fuel, 2 + |ts|
  {
    if ts == [] {
      rs := [];
    } else {
      var first := RunOf(R, ts[0], fuel);
      var rest := RunsOf(R, ts[1..], fuel);
      rs := [first] + rest;
      OneMore(R, first, rest, ts);
    }
  }

  lemma OneMore(R: Records, first: Run, rest: seq<Run>, ts: seq<Term>)
    requires ValidRecords(R) && ts != [] && first.term == ts[0] && IsRun(R, first) && AreRuns(R, rest, ts[1..])
    ensures var rs := [first] + rest;
      && AreRuns(R, rs, ts) && Results(rs) == [Result(first)] + Results(rest)
      && AllCalls(rs) == Calls(first) + AllCalls(rest)
      && Heights(rs) == if Height(first) < Heights(rest) then Heights(rest) else Height(first)
  {
    var rs := [first] + rest;
    assert rs[0] == first && rs[1..] == rest;
  }

  /** Every run is the rewriter's, once it may go as deep. */
  lemma {:induction false} RunRewrites(R: Records, r: Run, fuel: nat)
    requires ValidRecords(R) && IsRun(R, r) && Height(r) <= fuel
    ensures Rewrite(R, r.term, fuel) == Some((Result(r), Calls(r)))
    decreases r, 1
  {
    if r.term.Call? {
      RunsRewrite(R, r.operands, r.term.args, fuel - 1);
      if r.next.Some? { RunRewrites(R, r.next.value, fuel - 1); }
      Unfolded(R, r, fuel);
    }
  }

  lemma {:induction false} RunsRewrite(R: Records, rs: seq<Run>, ts: seq<Term>, fuel: nat)
    requires ValidRecords(R) && AreRuns(R, rs, ts) && Heights(rs) <= fuel
    ensures RewriteArgs(R, ts, fuel) == Some((Results(rs), AllCalls(rs)))
    decreases rs, 0
  {
    if rs != [] {
      RunRewrites(R, rs[0], fuel);
      RunsRewrite(R, rs[1..], ts[1..], fuel);
    }
  }

  /** An answer with its count is a run's, and the run is the only one; it goes no deeper than the fuel. */
  lemma RewriteIsRun(R: Records, t: Term, fuel: nat, u: Term, n: nat)
    requires ValidRecords(R)
    ensures Rewrite(R, t, fuel) == Some((u, n)) <==>
      exists r :: IsRun(R, r) && r.term == t && Height(r) <= fuel && Result(r) == u && Calls(r) == n
  {
    if Rewrite(R, t, fuel) == Some((u, n)) {
      var r := RunOf(R, t, fuel);
    }
    if r :| IsRun(R, r) && r.term == t && Height(r) <= fuel && Result(r) == u && Calls(r) == n {
      RunRewrites(R, r, fuel);
    }
  }

  /** The number of subterms, the term itself with them. */
  ghost function Size(t: Term): nat
    decreases t, 1
  {
    if t.Call? then 1 + Sizes(t.args) else 1
  }

  ghost function Sizes(ts: seq<Term>): nat
    decreases ts, 0
  {
    if ts == [] then 0 else Size(ts[0]) + Sizes(ts[1..])
  }

  ghost function Depth(t: Term): nat
    decreases t, 1
  {
    if t.Call? then 1 + Depths(t.args) else 1
  }

  ghost function Depths(ts: seq<Term>): nat
    decreases ts, 0
  {
    if ts == [] then 0
    else
      var first, rest := Depth(ts[0]), Depths(ts[1..]);
      if first < rest then rest else first
  }

  lemma NormalStays(R: Records, t: Term)
    requires ValidRecords(R) && Normal(R, t) && t.Call?
    ensures Reduce(LemmasFor(R, t.op), t) == Irreducible && Call(t.op, t.args) == t
  {
    ReduceIs(LemmasFor(R, t.op), t, t);
  }

  /** A normal term is returned as it is, after one call for each of its subterms. */
  lemma {:induction false} NormalCount(R: Records, t: Term, fuel: nat)
    requires ValidRecords(R) && Normal(R, t) && fuel >= Depth(t)
    ensures Rewrite(R, t, fuel) == Some((t, Size(t)))
    decreases t, 1
  {
    if t.Call? {
      NormalCounts(R, t.args, fuel - 1);
      NormalStays(R, t);
    }
  }

  lemma {:induction false} NormalCounts(R: Records, ts: seq<Term>, fuel: nat)
    requires ValidRecords(R) && fuel >= Depths(ts) && forall i :: 0 <= i < |ts| ==> Normal(R, ts[i])
    ensures RewriteArgs(R, ts, fuel) == Some((ts, Sizes(ts)))
    decreases ts, 0
  {
    if ts != [] {
      NormalCount(R, ts[0], fuel);
      NormalCounts(R, ts[1..], fuel);
      assert [ts[0]] + ts[1..] == ts;
    }
  }

  /** No term takes fewer calls than the one that comes out of it has subterms. */
  lemma {:induction false} AtLeastSize(R: Records, r: Run)
    requires ValidRecords(R) && IsRun(R, r)
    ensures Calls(r) >= Size(Result(r))
    decreases r, 1
  {
    if r.next.Some? {
      AtLeastSize(R, r.next.value);
    } else if r.term.Call? {
      AtLeastSizes(R, r.operands, r.term.args);
    }
  }

  lemma {:induction false} AtLeastSizes(R: Records, rs: seq<Run>, ts: seq<Term>)
    requires ValidRecords(R) && AreRuns(R, rs, ts)
    ensures AllCalls(rs) >= Sizes(Results(rs))
    decreases rs, 0
  {
    if rs != [] {
      AtLeastSize(R, rs[0]);
      AtLeastSizes(R, rs[1..], ts[1..]);
      assert Results(rs)[1..] == Results(rs[1..]);
    }
  }
}
