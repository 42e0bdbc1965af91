/**
  Rewriting by lemmas in jni/v8core/v8/benchmarks/earley-boyer.js, as a function that also counts the
  calls. It need not terminate, so it has fuel: with enough fuel the answer does not depend on it.
*/
module BoyerRewriting {
  import opened BoyerTerms
  import opened BoyerMatching

  /** For each operator, the lemmas whose left-hand side has it, in the order they are tried. */
  type Records = map<string, seq<Term>>

  /** (equal (op ...) ...) */
  predicate IsLemma(l: Term) {
    l.Call? && l.op == "equal" && |l.args| > 0 && l.args[0].Call?
  }

  function LemmasFor(R: Records, op: string): seq<Term> {
    if op in R then R[op] else []
  }

  ghost predicate ValidRecords(R: Records) {
    forall op :: op in R ==> forall i :: 0 <= i < |R[op]| ==> IsLemma(R[op][i])
  }

  predicate AllLemmas(ls: seq<Term>) {
    forall i :: 0 <= i < |ls| ==> IsLemma(ls[i])
  }

  /** The place of the first lemma whose left-hand side the term is an instance of, or the end. */
  function FirstMatch(ls: seq<Term>, t: Term): (i: nat)
    requires AllLemmas(ls)
    ensures i <= |ls| && (i < |ls| ==> Match([], t, ls[i].args[0]).0)
    ensures forall k :: 0 <= k < i ==> !Match([], t, ls[k].args[0]).0
  {
    if ls == [] || Match([], t, ls[0].args[0]).0 then 0 else 1 + FirstMatch(ls[1..], t)
  }

  /** `rewrite`: the term and the number of calls; nothing when the fuel ends or a lemma has no
      right-hand side. */
  ghost function Rewrite(R: Records, t: Term, fuel: nat): Option<(Term, nat)>
    requires ValidRecords(R)
    decreases fuel, 0
  {
    if fuel == 0 then None
    else if !t.Call? then Some((t, 1))
    else
      var args := RewriteArgs(R, t.args, fuel - 1);
      if args.None? then None else RewriteTop(R, Call(t.op, args.value.0), 1 + args.value.1, fuel - 1)
  }

  /** The rest, after n calls have rewritten the operands. */
  ghost function RewriteTop(R: Records, t: Term, n: nat, fuel: nat): Option<(Term, nat)>
    requires ValidRecords(R) && t.Call?
    decreases fuel, 1
  {
    match Reduce(LemmasFor(R, t.op), t)
    case Irreducible => Some((t, n))
    case Stuck => None
    case Reduced(u) =>
      var rest := Rewrite(R, u, fuel);
      if rest.None? then None else Some((rest.value.0, n + rest.value.1))
  }

  ghost function RewriteArgs(R: Records, ts: seq<Term>, fuel: nat): (r: Option<(seq<Term>, nat)>)
    requires ValidRecords(R)
    ensures r.Some? ==> |r.value.0| == |ts|
    decreases fuel, 2 + |ts|
  {
    if ts == [] then Some(([], 0))
    else
      var first, rest := Rewrite(R, ts[0], fuel), RewriteArgs(R, ts[1..], fuel);
      if first.None? || rest.None? then None
      else Some(([first.value.0] + rest.value.0, first.value.1 + rest.value.1))
  }

  /** What the lemmas make of a term at its top. */
  datatype Step = Irreducible | Stuck | Reduced(term: Term)

  function Reduce(ls: seq<Term>, t: Term): Step
    requires AllLemmas(ls)
  {
    var i := FirstMatch(ls, t);
    if i == |ls| then Irreducible
    else if |ls[i].args| < 2 then Stuck
    else Reduced(ApplySubst(Match([], t, ls[i].args[0]).1, ls[i].args[1]))
  }

  /** More fuel does not change an answer. */
  lemma {:induction false} MoreFuel(R: Records, t: Term, fuel: nat, more: nat)
    requires ValidRecords(R) && fuel <= more && Rewrite(R, t, fuel).Some?
    ensures Rewrite(R, t, more) == Rewrite(R, t, fuel)
    decreases fuel, 0
  {
    if t.Call? {
      MoreFuelArgs(R, t.args, fuel - 1, more - 1);
      var args := RewriteArgs(R, t.args, fuel - 1).value;
      MoreFuelTop(R, Call(t.op, args.0), 1 + args.1, fuel - 1, more - 1);
    }
  }

  lemma {:induction false} MoreFuelTop(R: Records, t: Term, n: nat, fuel: nat, more: nat)
    requires ValidRecords(R) && t.Call? && fuel <= more && RewriteTop(R, t, n, fuel).Some?
    ensures RewriteTop(R, t, n, more) == RewriteTop(R, t, n, fuel)
    decreases fuel, 1
  {
    var next := Reduce(LemmasFor(R, t.op), t);
    if next.Reduced? { MoreFuel(R, next.term, fuel, more); }
  }

  lemma {:induction false} MoreFuelArgs(R: Records, ts: seq<Term>, fuel: nat, more: nat)
    requires ValidRecords(R) && fuel <= more && RewriteArgs(R, ts, fuel).Some?
    ensures RewriteArgs(R, ts, more) == RewriteArgs(R, ts, fuel)
    decreases fuel, 2 + |ts|
  {
    if ts != [] {
      MoreFuel(R, ts[0], fuel, more);
      MoreFuelArgs(R, ts[1..], fuel, more);
    }
  }

  /** The two sides of a lemma mean the same whatever its variables mean. */
  ghost predicate Satisfies<D(!new)>(I: Interp<D>, l: Term) {
    l.Call? && |l.args| > 1 ==> forall env :: Eval(I, env, l.args[0]) == Eval(I, env, l.args[1])
  }

  ghost predicate SatisfiesAll<D(!new)>(I: Interp<D>, R: Records) {
    forall op :: op in R ==> forall i :: 0 <= i < |R[op]| ==> Satisfies(I, R[op][i])
  }

  /** A step at the top keeps the meaning. */
  lemma ReduceSound<D(!new)>(I: Interp<D>, ls: seq<Term>, t: Term, env: string -> D)
    requires AllLemmas(ls) && (forall i :: 0 <= i < |ls| ==> Satisfies(I, ls[i])) && Reduce(ls, t).Reduced?
    ensures Eval(I, env, Reduce(ls, t).term) == Eval(I, env, t)
  {
    var l := ls[FirstMatch(ls, t)];
    var s := Match([], t, l.args[0]).1;
    MatchSound([], t, l.args[0], Of(s));
    ApplyIsSubst(s, l.args[1]);
    EvalSubst(I, env, Of(s), l.args[0]);
    EvalSubst(I, env, Of(s), l.args[1]);
  }

  /** Rewriting keeps the meaning in every interpretation that satisfies the lemmas. */
  lemma {:induction false} RewriteSound<D(!new)>(I: Interp<D>, R: Records, t: Term, fuel: nat, env: string -> D)
    requires ValidRecords(R) && SatisfiesAll(I, R) && Rewrite(R, t, fuel).Some?
    ensures Eval(I, env, Rewrite(R, t, fuel).value.0) == Eval(I, env, t)
    decreases fuel, 0
  {
    if t.Call? {
      RewriteArgsSound(I, R, t.args, fuel - 1, env);
      var t1 := Call(t.op, RewriteArgs(R, t.args, fuel - 1).value.0);
      var next := Reduce(LemmasFor(R, t.op), t1);
      if next.Reduced? {
        ReduceSound(I, LemmasFor(R, t.op), t1, env);
        RewriteSound(I, R, next.term, fuel - 1, env);
      }
    }
  }

  lemma {:induction false} RewriteArgsSound<D(!new)>(I: Interp<D>, R: Records, ts: seq<Term>, fuel: nat,
      env: string -> D)
    requires ValidRecords(R) && SatisfiesAll(I, R) && RewriteArgs(R, ts, fuel).Some?
    ensures EvalArgs(I, env, RewriteArgs(R, ts, fuel).value.0) == EvalArgs(I, env, ts)
    decreases fuel, 2 + |ts|
  {
    if ts != [] {
      RewriteSound(I, R, ts[0], fuel, env);
      RewriteArgsSound(I, R, ts[1..], fuel, env);
      var r := RewriteArgs(R, ts, fuel).value.0;
      assert r[0] == Rewrite(R, ts[0], fuel).value.0 && r[1..] == RewriteArgs(R, ts[1..], fuel).value.0;
    }
  }

  /** No subterm is an instance of the left-hand side of a lemma. */
  ghost predicate Normal(R: Records, t: Term)
    requires ValidRecords(R)
  {
    t.Call? ==>
      && (forall i :: 0 <= i < |LemmasFor(R, t.op)| ==> !Instance(t, LemmasFor(R, t.op)[i].args[0]))
      && (forall i :: 0 <= i < |t.args| ==> Normal(R, t.args[i]))
  }

  /** What rewriting returns is normal. */
  lemma {:induction false} RewriteNormal(R: Records, t: Term, fuel: nat)
    requires ValidRecords(R) && Rewrite(R, t, fuel).Some?
    ensures Normal(R, Rewrite(R, t, fuel).value.0)
    decreases fuel, 0
  {
    if t.Call? {
      RewriteArgsNormal(R, t.args, fuel - 1);
      var ls := LemmasFor(R, t.op);
      var t1 := Call(t.op, RewriteArgs(R, t.args, fuel - 1).value.0);
      var next := Reduce(ls, t1);
      if next.Reduced? {
        RewriteNormal(R, next.term, fuel - 1);
      } else {
        forall i | 0 <= i < |ls| ensures !Instance(t1, ls[i].args[0]) {
          MatchExact(t1, ls[i].args[0]);
        }
      }
    }
  }

  lemma {:induction false} RewriteArgsNormal(R: Records, ts: seq<Term>, fuel: nat)
    requires ValidRecords(R) && RewriteArgs(R, ts, fuel).Some?
    ensures var r := RewriteArgs(R, ts, fuel).value.0; forall i :: 0 <= i < |r| ==> Normal(R, r[i])
    decreases fuel, 2 + |ts|
  {
    if ts != [] {
      RewriteNormal(R, ts[0], fuel);
      RewriteArgsNormal(R, ts[1..], fuel);
    }
  }
}
