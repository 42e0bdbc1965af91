/**
  Digit windows in base 2^28, the representation under jni/v8core/v8/benchmarks/crypto.js.

  A JavaScript array is sparse, so it is modelled as a finite map from indices to numbers.
  `V(a, lo, n)` is the number that the `n` digits starting at index `lo` stand for, least
  significant digit first.
*/
module Digits {

  const B: int := 0x1000_0000
  const DIGIT_BITS: nat := 28

  type Store = map<int, int>

  ghost function Pow(n: nat): (p: int)
    ensures p >= 1
  {
    if n == 0 then 1 else B * Pow(n - 1)
  }

  /** x * B^n, written so that the solver meets only multiplications by the constant B. */
  ghost function Sh(x: int, n: nat): int {
    if n == 0 then x else B * Sh(x, n - 1)
  }

  lemma {:induction false} ShPow(x: int, n: nat)
    ensures Sh(x, n) == x * Pow(n)
  {
    if n > 0 { ShPow(x, n - 1); }
  }

  lemma {:induction false} ShAdd(x: int, y: int, n: nat)
    ensures Sh(x + y, n) == Sh(x, n) + Sh(y, n)
  {
    if n > 0 { ShAdd(x, y, n - 1); }
  }

  lemma {:induction false} ShNeg(x: int, n: nat)
    ensures Sh(-x, n) == -Sh(x, n)
  {
    if n > 0 { ShNeg(x, n - 1); }
  }

  lemma {:induction false} ShSucc(x: int, n: nat)
    ensures Sh(B * x, n) == Sh(x, n + 1)
  {
    if n > 0 { ShSucc(x, n - 1); }
  }

  lemma {:induction false} ShAddExp(x: int, m: nat, n: nat)
    ensures Sh(Sh(x, m), n) == Sh(x, m + n)
  {
    if n > 0 { ShAddExp(x, m, n - 1); }
  }

  lemma {:induction false} ShMono(x: int, y: int, n: nat)
    requires x <= y
    ensures Sh(x, n) <= Sh(y, n)
  {
    if n > 0 { ShMono(x, y, n - 1); }
  }

  lemma {:induction false} ShMul(x: int, y: int, n: nat)
    ensures Sh(x * y, n) == x * Sh(y, n)
  {
    ShPow(x * y, n);
    ShPow(y, n);
    assert x * y * Pow(n) == x * (y * Pow(n));
  }

  lemma ShMulSh(x: int, m: nat, y: int, n: nat)
    ensures Sh(x, m) * Sh(y, n) == Sh(y * x, m + n)
  {
    ShMul(Sh(x, m), y, n);
    ShMul(y, x, m);
    ShAddExp(y * x, m, n);
    assert Sh(x, m) * y == y * Sh(x, m);
  }

  /** Sh(1, n) is the weight of place n. */
  lemma ShOne(n: nat)
    ensures Sh(1, n) == Pow(n) && Sh(0, n) == 0 && Sh(-1, n) == -Pow(n)
  {
    ShPow(1, n);
    ShPow(0, n);
    ShPow(-1, n);
  }

  ghost function At(a: Store, k: int): int {
    if k in a then a[k] else 0
  }

  ghost function V(a: Store, lo: int, n: nat): int {
    if n == 0 then 0 else V(a, lo, n - 1) + Sh(At(a, lo + n - 1), n - 1)
  }

  /** Every index of the window holds a digit. */
  ghost predicate Window(a: Store, lo: int, n: int) {
    forall k :: lo <= k < lo + n ==> k in a && 0 <= a[k] < B
  }

  ghost predicate Agree(a: Store, b: Store, lo: int, n: int) {
    forall k :: lo <= k < lo + n ==> At(a, k) == At(b, k)
  }

  lemma MulMono(x: int, y: int, p: int)
    requires x <= y && p >= 0
    ensures x * p <= y * p
  {
  }

  lemma {:induction false} PowAdd(m: nat, n: nat)
    ensures Pow(m + n) == Pow(m) * Pow(n)
  {
    if m > 0 {
      PowAdd(m - 1, n);
      assert Pow(m + n) == B * (Pow(m - 1) * Pow(n));
    }
  }

  lemma {:induction false} PowMono(m: nat, n: nat)
    requires m <= n
    ensures Pow(m) <= Pow(n)
  {
    if m < n { PowMono(m, n - 1); }
  }

  lemma {:induction false} Frame(a: Store, b: Store, lo: int, n: nat)
    requires Agree(a, b, lo, n)
    ensures V(a, lo, n) == V(b, lo, n)
  {
    if n > 0 {
      assert At(a, lo + n - 1) == At(b, lo + n - 1);
      Frame(a, b, lo, n - 1);
    }
  }

  /** A window moved along by `d` places, as the digit shifts move it. */
  lemma {:induction false} Moved(a: Store, b: Store, lo: int, d: int, n: nat)
    requires forall k :: lo <= k < lo + n ==> At(a, k) == At(b, k + d)
    ensures V(a, lo, n) == V(b, lo + d, n)
  {
    if n > 0 {
      assert At(a, lo + n - 1) == At(b, lo + n - 1 + d);
      Moved(a, b, lo, d, n - 1);
    }
  }

  lemma {:induction false} Bound(a: Store, lo: int, n: nat)
    requires Window(a, lo, n)
    ensures 0 <= V(a, lo, n) < Pow(n)
  {
    if n > 0 {
      Bound(a, lo, n - 1);
      var d := a[lo + n - 1];
      ShMono(0, d, n - 1);
      ShMono(d, B - 1, n - 1);
      ShAdd(B, -1, n - 1);
      ShSucc(1, n - 1);
      ShOne(n - 1);
      ShOne(n);
    }
  }

  lemma {:induction false} Zero(a: Store, lo: int, n: nat)
    requires forall k :: lo <= k < lo + n ==> At(a, k) == 0
    ensures V(a, lo, n) == 0
  {
    if n > 0 {
      assert At(a, lo + n - 1) == 0;
      ShOne(n - 1);
      Zero(a, lo, n - 1);
    }
  }

  lemma {:induction false} Split(a: Store, lo: int, m: nat, n: nat)
    ensures V(a, lo, m + n) == V(a, lo, m) + Sh(V(a, lo + m, n), m)
  {
    if n == 0 {
      ShOne(m);
    } else {
      Split(a, lo, m, n - 1);
      var d := At(a, lo + m + n - 1);
      ShAddExp(d, n - 1, m);
      ShAdd(V(a, lo + m, n - 1), Sh(d, n - 1), m);
    }
  }

  /** The head of a window. */
  lemma Head(a: Store, lo: int, n: nat)
    requires n > 0
    ensures V(a, lo, n) == At(a, lo) + B * V(a, lo + 1, n - 1)
  {
    Split(a, lo, 1, n - 1);
    assert Sh(V(a, lo + 1, n - 1), 1) == B * Sh(V(a, lo + 1, n - 1), 0);
    assert V(a, lo, 1) == V(a, lo, 0) + Sh(At(a, lo), 0);
  }

  /** A quotient and a remainder are determined by the number they make up. */
  lemma DivUnique(p: int, q: int, r: int, q': int, r': int)
    requires p > 0 && 0 <= r < p && 0 <= r' < p
    requires q * p + r == q' * p + r'
    ensures q == q' && r == r'
  {
    var d := q - q';
    assert d * p == r' - r;
    if d >= 1 { MulMono(1, d, p); }
    if d <= -1 { MulMono(d, -1, p); }
  }

  /** As `DivUnique`, for a power of the base. */
  lemma ShUnique(n: nat, q: int, r: int, q': int, r': int)
    requires 0 <= r < Pow(n) && 0 <= r' < Pow(n)
    requires Sh(q, n) + r == Sh(q', n) + r'
    ensures q == q' && r == r'
  {
    ShPow(q, n);
    ShPow(q', n);
    DivUnique(Pow(n), q, r, q', r');
  }

  /** Base-B representations are unique. */
  lemma {:induction false} Unique(a: Store, lo: int, b: Store, lo': int, n: nat)
    requires Window(a, lo, n) && Window(b, lo', n)
    requires V(a, lo, n) == V(b, lo', n)
    ensures forall k :: lo <= k < lo + n ==> a[k] == b[k + (lo' - lo)]
  {
    if n > 0 {
      Bound(a, lo, n - 1);
      Bound(b, lo', n - 1);
      ShUnique(n - 1, a[lo + n - 1], V(a, lo, n - 1), b[lo' + n - 1], V(b, lo', n - 1));
      Unique(a, lo, b, lo', n - 1);
    }
  }

  /** The greater top digit decides. */
  lemma TopDigitDecides(a: Store, b: Store, n: nat)
    requires n > 0 && Window(a, 0, n) && Window(b, 0, n)
    requires a[n - 1] < b[n - 1]
    ensures V(a, 0, n) < V(b, 0, n)
  {
    Bound(a, 0, n - 1);
    Bound(b, 0, n - 1);
    ShMono(a[n - 1] + 1, b[n - 1], n - 1);
    ShAdd(a[n - 1], 1, n - 1);
    ShOne(n - 1);
  }

  function Pow2(k: nat): (p: nat)
    ensures p >= 1
  {
    if k == 0 then 1 else 2 * Pow2(k - 1)
  }

  lemma {:induction false} Pow2Add(m: nat, n: nat)
    ensures Pow2(m + n) == Pow2(m) * Pow2(n)
  {
    if m > 0 {
      Pow2Add(m - 1, n);
      assert Pow2(m + n) == 2 * (Pow2(m - 1) * Pow2(n));
    }
  }

  /** x * 2^k, written so that the solver meets only doublings. */
  ghost function Dbl(x: int, k: nat): int {
    if k == 0 then x else 2 * Dbl(x, k - 1)
  }

  lemma {:induction false} DblPow(x: int, k: nat)
    ensures Dbl(x, k) == x * Pow2(k)
  {
    if k > 0 { DblPow(x, k - 1); }
  }

  lemma {:induction false} DblStep(d: int, v: int, k: nat)
    ensures Dbl(d + B * v, k) == Dbl(d, k) + B * Dbl(v, k)
  {
    if k > 0 { DblStep(d, v, k - 1); }
  }

  lemma {:induction false} DblSh(x: int, n: nat, k: nat)
    ensures Dbl(Sh(x, n), k) == Sh(Dbl(x, k), n)
  {
    if n > 0 {
      DblSh(x, n - 1, k);
      DblStep(0, Sh(x, n - 1), k);
      DblPow(0, k);
    }
  }

  lemma {:induction false} DblAdd(x: int, y: int, k: nat)
    ensures Dbl(x + y, k) == Dbl(x, k) + Dbl(y, k)
  {
    if k > 0 { DblAdd(x, y, k - 1); }
  }

  lemma {:induction false} DblMono(x: int, y: int, k: nat)
    requires x <= y
    ensures Dbl(x, k) <= Dbl(y, k)
  {
    if k > 0 { DblMono(x, y, k - 1); }
  }

  lemma DblPow2(m: nat, k: nat)
    ensures Dbl(Pow2(m), k) == Pow2(m + k)
  {
    DblPow(Pow2(m), k);
    Pow2Add(m, k);
  }

  /** A digit cut in two: the weights of the two parts. */
  lemma CutDigit(k: nat)
    requires k < DIGIT_BITS
    ensures Pow2(k) * Pow2(DIGIT_BITS - k) == B && Pow2(k) < B
  {
    Pow2Add(k, DIGIT_BITS - k);
    Pow2Digit();
    Pow2Mono(k, DIGIT_BITS - 1);
    assert Pow2(DIGIT_BITS) == 2 * Pow2(DIGIT_BITS - 1);
  }

  /** The k low bits of x are clear, so that `|` with a number below 2^k is addition. */
  ghost predicate LowClear(x: int, k: nat)
    decreases k
  {
    k == 0 || (x % 2 == 0 && LowClear(x / 2, k - 1))
  }

  lemma {:induction false} DblLowClear(x: int, k: nat)
    ensures LowClear(Dbl(x, k), k)
  {
    if k > 0 { DblLowClear(x, k - 1); }
  }

  lemma Pow2Digit()
    ensures Pow2(DIGIT_BITS) == B
  {
    assert Pow2(7) == 128 by { assert Pow2(3) == 8; }
    Pow2Add(7, 7);
    Pow2Add(14, 14);
  }

  lemma {:induction false} Pow2Mono(m: nat, n: nat)
    requires m <= n
    ensures Pow2(m) <= Pow2(n)
  {
    if m < n { Pow2Mono(m, n - 1); }
  }

  lemma {:induction false} PowPow2(n: nat)
    ensures Pow2(DIGIT_BITS * n) == Pow(n)
  {
    if n > 0 {
      PowPow2(n - 1);
      Pow2Add(DIGIT_BITS, DIGIT_BITS * (n - 1));
      Pow2Digit();
    }
  }

  /** Floor division by a positive divisor, from a quotient and a remainder at hand. */
  lemma DivIs(x: int, p: int, q: int, r: int)
    requires p > 0 && x == q * p + r && 0 <= r < p
    ensures x / p == q && x % p == r
  {
    assert x == x / p * p + x % p;
    DivUnique(p, x / p, x % p, q, r);
  }
}
