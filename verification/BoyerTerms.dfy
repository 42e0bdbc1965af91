/**
  Terms of the Boyer prover in jni/v8core/v8/benchmarks/earley-boyer.js, with its equality, membership
  and substitution.

  A term is a pair of an operator and its operands, a variable or a number. The prover compares
  operators by the identity of their records, of which there is one for each name; here by name.
*/
module BoyerTerms {

  datatype Option<T> = None | Some(value: T)

  datatype Term = Var(name: string) | Num(n: int) | Call(op: string, args: seq<Term>)

  const TRUE: Term := Call("t", [])
  const FALSE: Term := Call("f", [])
  const IF := "if"

  /** `is_term_equal` */
  method IsTermEqual(x: Term, y: Term) returns (r: bool)
    ensures r <==> x == y
    decreases x
  {
    if !x.Call? {
      return x == y;
    }
    if !y.Call? || x.op != y.op {
      return false;
    }
    var i := 0;
    while i < |x.args|
      invariant 0 <= i <= |x.args| && i <= |y.args| && x.args[..i] == y.args[..i]
    {
      if i == |y.args| {
        return false;
      }
      r := IsTermEqual(x.args[i], y.args[i]);
      if !r {
        return false;
      }
      i := i + 1;
    }
    r := i == |y.args|;
  }

  /** `is_term_member` */
  method IsTermMember(x: Term, lst: seq<Term>) returns (r: bool)
    ensures r <==> x in lst
  {
    var i := 0;
    while i < |lst|
      invariant 0 <= i <= |lst| && x !in lst[..i]
    {
      r := IsTermEqual(x, lst[i]);
      if r {
        return true;
      }
      i := i + 1;
    }
    r := false;
  }

  /** An association list, newest entry first. */
  type Alist = seq<(Term, Term)>

  /** What `assq` finds for a variable or a number. */
  function Assq(key: Term, s: Alist): (r: Option<Term>)
    ensures r.Some? ==> (key, r.value) in s
    ensures r.None? ==> forall i :: 0 <= i < |s| ==> s[i].0 != key
  {
    if s == [] then None else if s[0].0 == key then Some(s[0].1) else Assq(key, s[1..])
  }

  /** Only variables are bound. */
  predicate BindsVariables(s: Alist) {
    forall i :: 0 <= i < |s| ==> s[i].0.Var?
  }

  /** `apply_subst`: each atom looked up. */
  function ApplySubst(s: Alist, t: Term): Term {
    match t
    case Call(op, args) => Call(op, ApplySubstArgs(s, args))
    case _ => var found := Assq(t, s); if found.Some? then found.value else t
  }

  function ApplySubstArgs(s: Alist, ts: seq<Term>): (r: seq<Term>) {
    if ts == [] then [] else [ApplySubst(s, ts[0])] + ApplySubstArgs(s, ts[1..])
  }

  /** Substitution for all variables at once. */
  ghost function Subst(f: string -> Term, t: Term): Term {
    match t
    case Var(x) => f(x)
    case Num(_) => t
    case Call(op, args) => Call(op, SubstArgs(f, args))
  }

  ghost function SubstArgs(f: string -> Term, ts: seq<Term>): seq<Term> {
    if ts == [] then [] else [Subst(f, ts[0])] + SubstArgs(f, ts[1..])
  }

  /** An association list as such a substitution: variables it does not bind stand for themselves. */
  ghost function Of(s: Alist): string -> Term {
    x => var found := Assq(Var(x), s); if found.Some? then found.value else Var(x)
  }

  lemma {:induction false} ApplyIsSubst(s: Alist, t: Term)
    requires BindsVariables(s)
    ensures ApplySubst(s, t) == Subst(Of(s), t)
    decreases t
  {
    if t.Call? {
      ApplyIsSubstArgs(s, t.args);
    }
  }

  lemma {:induction false} ApplyIsSubstArgs(s: Alist, ts: seq<Term>)
    requires BindsVariables(s)
    ensures ApplySubstArgs(s, ts) == SubstArgs(Of(s), ts)
    decreases ts
  {
    if ts != [] {
      ApplyIsSubst(s, ts[0]);
      ApplyIsSubstArgs(s, ts[1..]);
    }
  }

  /** An interpretation: what numbers and operators stand for. */
  datatype Interp<!D> = Interp(num: int -> D, apply: (string, seq<D>) -> D)

  ghost function Eval<D>(I: Interp<D>, env: string -> D, t: Term): D {
    match t
    case Var(x) => env(x)
    case Num(n) => I.num(n)
    case Call(op, args) => I.apply(op, EvalArgs(I, env, args))
  }

  ghost function EvalArgs<D>(I: Interp<D>, env: string -> D, ts: seq<Term>): (r: seq<D>)
    ensures |r| == |ts| && forall i :: 0 <= i < |ts| ==> r[i] == Eval(I, env, ts[i])
  {
    if ts == [] then [] else [Eval(I, env, ts[0])] + EvalArgs(I, env, ts[1..])
  }

  /** Substituting first is evaluating where the variables mean what is put for them. */
  lemma {:induction false} EvalSubst<D>(I: Interp<D>, env: string -> D, f: string -> Term, t: Term)
    ensures Eval(I, env, Subst(f, t)) == Eval(I, x => Eval(I, env, f(x)), t)
    decreases t
  {
    if t.Call? {
      EvalSubstArgs(I, env, f, t.args);
    }
  }

  lemma {:induction false} EvalSubstArgs<D>(I: Interp<D>, env: string -> D, f: string -> Term, ts: seq<Term>)
    ensures EvalArgs(I, env, SubstArgs(f, ts)) == EvalArgs(I, x => Eval(I, env, f(x)), ts)
    decreases ts
  {
    if ts != [] {
      EvalSubst(I, env, f, ts[0]);
      EvalSubstArgs(I, env, f, ts[1..]);
      assert SubstArgs(f, ts)[0] == Subst(f, ts[0]);
      assert SubstArgs(f, ts)[1..] == SubstArgs(f, ts[1..]);
    }
  }
}
