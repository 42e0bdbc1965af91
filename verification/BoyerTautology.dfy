/**
  The tautology checker in jni/v8core/v8/benchmarks/earley-boyer.js: `tautologyp` as a function, sound
  for every valuation of the terms it does not look into, and complete when no `if` tests an `if`.
*/
module BoyerTautologies {
  import opened BoyerTerms

  /** `tautologyp`; nothing when an `if` lacks an operand the source reads. */
  function Taut(x: Term, trues: seq<Term>, falses: seq<Term>): Option<bool>
    decreases x
  {
    if x == TRUE || x in trues then Some(true)
    else if x == FALSE || x in falses then Some(false)
    else if !x.Call? || x.op != IF then Some(false)
    else if |x.args| < 1 then None
    else
      var a := x.args[0];
      if a == TRUE || a in trues then TautAt(x, 1, trues, falses)
      else if a == FALSE || a in falses then TautAt(x, 2, trues, falses)
      else if TautAt(x, 1, [a] + trues, falses) == Some(true) then TautAt(x, 2, trues, [a] + falses)
      else TautAt(x, 1, [a] + trues, falses)
  }

  /** The answer for an operand. */
  function TautAt(x: Term, i: nat, trues: seq<Term>, falses: seq<Term>): Option<bool>
    requires x.Call?
    decreases x, 0
  {
    if i < |x.args| then Taut(x.args[i], trues, falses) else None
  }

  /** The truth of a term where S holds the true ones among those that are not `if`, true or false.
      An `if` means its second operand when the first is true and its third when it is false, whether
      or not it has all three. */
  ghost predicate Val(S: iset<Term>, x: Term)
    decreases x
  {
    if x == TRUE then true
    else if x == FALSE then false
    else if x.Call? && x.op == IF && |x.args| >= 2 && Val(S, x.args[0]) then Val(S, x.args[1])
    else if x.Call? && x.op == IF && |x.args| >= 3 && !Val(S, x.args[0]) then Val(S, x.args[2])
    else x in S
  }

  ghost predicate Agrees(S: iset<Term>, trues: seq<Term>, falses: seq<Term>) {
    && (forall i :: 0 <= i < |trues| ==> Val(S, trues[i]))
    && (forall i :: 0 <= i < |falses| ==> !Val(S, falses[i]))
  }

  /** Answered true, the term is true under every valuation that makes the one list true and the other false. */
  lemma {:induction false} TautSound(S: iset<Term>, x: Term, trues: seq<Term>, falses: seq<Term>)
    requires Taut(x, trues, falses) == Some(true) && Agrees(S, trues, falses)
    ensures Val(S, x)
    decreases x
  {
    if x == TRUE {
    } else if x in trues {
      var i :| 0 <= i < |trues| && trues[i] == x;
    } else {
      var a := x.args[0];
      if Val(S, a) {
        assert a !in falses;
        if a == TRUE || a in trues {
          TautSound(S, x.args[1], trues, falses);
        } else {
          TautSound(S, x.args[1], [a] + trues, falses);
        }
      } else {
        assert a !in trues;
        if a == FALSE || a in falses {
          TautSound(S, x.args[2], trues, falses);
        } else {
          TautSound(S, x.args[2], trues, [a] + falses);
        }
      }
    }
  }

  /** A term that is not an `if`, nor true or false themselves. */
  predicate Basic(x: Term) {
    x != TRUE && x != FALSE && !(x.Call? && x.op == IF)
  }

  /** Along the branches of `if`, no test is an `if`. */
  predicate TestsSimple(x: Term) {
    x.Call? && x.op == IF && |x.args| > 0 ==>
      && !(x.args[0].Call? && x.args[0].op == IF)
      && forall i :: 0 < i < |x.args| ==> TestsSimple(x.args[i])
  }

  /** Assumptions that can be met. */
  ghost predicate Consistent(trues: seq<Term>, falses: seq<Term>) {
    && (forall i :: 0 <= i < |trues| ==> Basic(trues[i]) && trues[i] !in falses)
    && (forall i :: 0 <= i < |falses| ==> Basic(falses[i]) && falses[i] !in trues)
  }

  /** Answered false, a term with simple tests is false under a valuation that agrees with the lists. */
  lemma {:induction false} TautComplete(x: Term, trues: seq<Term>, falses: seq<Term>) returns (S: iset<Term>)
    requires TestsSimple(x) && Consistent(trues, falses) && Taut(x, trues, falses) == Some(false)
    ensures Agrees(S, trues, falses) && !Val(S, x)
    decreases x
  {
    if x.Call? && x.op == IF {
      var a := x.args[0];
      if a == TRUE || a in trues {
        S := TautComplete(x.args[1], trues, falses);
      } else if a == FALSE || a in falses {
        S := TautComplete(x.args[2], trues, falses);
      } else if Taut(x.args[1], [a] + trues, falses) == Some(false) {
        S := TautComplete(x.args[1], [a] + trues, falses);
        assert ([a] + trues)[0] == a && ([a] + trues)[1..] == trues;
      } else {
        S := TautComplete(x.args[2], trues, [a] + falses);
        assert ([a] + falses)[0] == a && ([a] + falses)[1..] == falses;
      }
    } else {
      S := iset y | y in trues;
    }
  }

  ghost predicate Tautology(x: Term) {
    forall S :: Val(S, x)
  }

  /** With simple tests the checker decides. */
  lemma TautDecides(x: Term)
    requires TestsSimple(x) && Taut(x, [], []).Some?
    ensures Taut(x, [], []) == Some(true) <==> Tautology(x)
  {
    if Taut(x, [], []).value {
      forall S ensures Val(S, x) {
        TautSound(S, x, [], []);
      }
    } else {
      var S := TautComplete(x, [], []);
    }
  }

  /** True and false differ, and `if` chooses. */
  ghost predicate Meaningful<D(!new)>(I: Interp<D>) {
    var no := I.apply("f", []);
    && I.apply("t", []) != no
    && (forall ds {:trigger I.apply(IF, ds)} :: |ds| >= 2 && ds[0] != no ==> I.apply(IF, ds) == ds[1])
    && (forall ds {:trigger I.apply(IF, ds)} :: |ds| >= 3 && ds[0] == no ==> I.apply(IF, ds) == ds[2])
  }

  /** The terms an interpretation makes something other than false. */
  ghost function TrueIn<D(!new)>(I: Interp<D>, env: string -> D): iset<Term> {
    iset x | Eval(I, env, x) != I.apply("f", [])
  }

  /** Such an interpretation is a valuation. */
  lemma {:induction false} ValIsEval<D(!new)>(I: Interp<D>, env: string -> D, x: Term)
    requires Meaningful(I)
    ensures Val(TrueIn(I, env), x) <==> Eval(I, env, x) != I.apply("f", [])
    decreases x
  {
    if x == TRUE || x == FALSE {
      assert EvalArgs(I, env, x.args) == [];
    } else if x.Call? && x.op == IF {
      var ds := EvalArgs(I, env, x.args);
      assert Eval(I, env, x) == I.apply(IF, ds);
      if |x.args| >= 2 {
        ValIsEval(I, env, x.args[0]);
        ValIsEval(I, env, x.args[1]);
      }
      if |x.args| >= 3 { ValIsEval(I, env, x.args[2]); }
    }
  }
}
