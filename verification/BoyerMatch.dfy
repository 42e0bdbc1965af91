/**
  One-way unification in jni/v8core/v8/benchmarks/earley-boyer.js, as a function on the bindings that
  `one_way_unify1` keeps in a global variable.
*/
module BoyerMatching {
  import opened BoyerTerms

  /** The answer for subject t and pattern p from the bindings s, and the bindings it leaves. */
  function Match(s: Alist, t: Term, p: Term): (r: (bool, Alist))
    ensures BindsVariables(s) ==> BindsVariables(r.1)
    decreases p
  {
    if !p.Call? then
      var found := Assq(p, s);
      if found.Some? then (t == found.value, s)
      else if p.Num? then (t == p, s)
      else (true, [(p, t)] + s)
    else if !t.Call? || t.op != p.op then (false, s)
    else MatchArgs(s, t.args, p.args)
  }

  function MatchArgs(s: Alist, ts: seq<Term>, ps: seq<Term>): (r: (bool, Alist))
    ensures BindsVariables(s) ==> BindsVariables(r.1)
    decreases ps
  {
    if ts == [] then (ps == [], s)
    else if ps == [] then (false, s)
    else
      var (ok, s1) := Match(s, ts[0], ps[0]);
      if ok then MatchArgs(s1, ts[1..], ps[1..]) else (false, s1)
  }

  /** f agrees with what s binds. */
  ghost predicate Extends(f: string -> Term, s: Alist) {
    forall x {:trigger f(x)} :: var found := Assq(Var(x), s); found.Some? ==> f(x) == found.value
  }

  /** Whatever agrees with the bindings left by a success makes the pattern the subject. */
  lemma {:induction false} MatchSound(s: Alist, t: Term, p: Term, f: string -> Term)
    requires BindsVariables(s)
    requires var r := Match(s, t, p); r.0 && Extends(f, r.1)
    ensures Subst(f, p) == t && Extends(f, s)
    decreases p
  {
    var r := Match(s, t, p);
    if p.Call? {
      MatchArgsSound(s, t.args, p.args, f);
    } else if p.Var? {
      assert f(p.name) == Subst(f, p);
      if Assq(p, s).None? {
        assert Assq(p, r.1) == Some(t);
        assert r.1[1..] == s;
        forall x ensures var found := Assq(Var(x), s); found.Some? ==> f(x) == found.value {
          assert Var(x) == p ==> Assq(Var(x), s).None?;
        }
      }
    }
  }

  lemma {:induction false} MatchArgsSound(s: Alist, ts: seq<Term>, ps: seq<Term>, f: string -> Term)
    requires BindsVariables(s)
    requires var r := MatchArgs(s, ts, ps); r.0 && Extends(f, r.1)
    ensures SubstArgs(f, ps) == ts && Extends(f, s)
    decreases ps
  {
    if ts != [] {
      var r := Match(s, ts[0], ps[0]);
      MatchArgsSound(r.1, ts[1..], ps[1..], f);
      MatchSound(s, ts[0], ps[0], f);
      assert ts == [ts[0]] + ts[1..];
    }
  }

  /** If a substitution does, then so does the search, and its bindings are that substitution's. */
  lemma {:induction false} MatchComplete(s: Alist, t: Term, p: Term, f: string -> Term)
    requires BindsVariables(s) && Extends(f, s) && Subst(f, p) == t
    ensures var r := Match(s, t, p); r.0 && Extends(f, r.1)
    decreases p
  {
    if p.Call? {
      MatchArgsComplete(s, t.args, p.args, f);
    } else if p.Var? {
      assert f(p.name) == t;
      var r := Match(s, t, p);
      if Assq(p, s).None? {
        assert r.1[1..] == s;
        forall x ensures var found := Assq(Var(x), r.1); found.Some? ==> f(x) == found.value {
          assert Var(x) == p ==> Assq(Var(x), r.1) == Some(t);
        }
      }
    } else if Assq(p, s).Some? {
      assert false;
    }
  }

  lemma {:induction false} MatchArgsComplete(s: Alist, ts: seq<Term>, ps: seq<Term>, f: string -> Term)
    requires BindsVariables(s) && Extends(f, s) && SubstArgs(f, ps) == ts
    ensures var r := MatchArgs(s, ts, ps); r.0 && Extends(f, r.1)
    decreases ps
  {
    if ps != [] {
      assert ts[0] == Subst(f, ps[0]) && ts[1..] == SubstArgs(f, ps[1..]);
      MatchComplete(s, ts[0], ps[0], f);
      MatchArgsComplete(Match(s, ts[0], ps[0]).1, ts[1..], ps[1..], f);
    }
  }

  ghost predicate Instance(t: Term, p: Term) {
    exists f :: Subst(f, p) == t
  }

  /** From no bindings, the answer is true exactly for an instance of the pattern, and applying the
      bindings found gives the subject. */
  lemma MatchExact(t: Term, p: Term)
    ensures Match([], t, p).0 <==> Instance(t, p)
    ensures Match([], t, p).0 ==> ApplySubst(Match([], t, p).1, p) == t
  {
    var r := Match([], t, p);
    if r.0 {
      MatchSound([], t, p, Of(r.1));
      ApplyIsSubst(r.1, p);
    }
    if Instance(t, p) {
      var f :| Subst(f, p) == t;
      MatchComplete([], t, p, f);
    }
  }
}
