/**
  `bnpSquareTo` in jni/v8core/v8/benchmarks/crypto.js: half the digit products of a
  multiplication, each cross product added twice by doubling a digit.
*/
module Squaring {
  import opened Digits
  import opened BigIntegers

  /** The window a row works on: one digit, q digits, and the two digits above them. */
  lemma Parts(a: Store, lo: int, q: nat)
    ensures V(a, lo, q + 3)
      == At(a, lo) + B * (V(a, lo + 1, q) + Sh(At(a, lo + 1 + q), q) + Sh(At(a, lo + q + 2), q + 1))
  {
    Head(a, lo, q + 3);
  }

  lemma RowTotal(r0: int, v: int, w: int, c1: int, c2: int, r0': int, v': int, w': int, u': int, d: int, x: int, q: nat)
    requires r0' + B * c1 == r0 + d * d
    requires v' + Sh(c2, q) == v + 2 * d * x + c1
    requires w' + B * u' == w + c2
    ensures r0' + B * (v' + Sh(w', q) + Sh(u', q + 1)) == r0 + B * (v + Sh(w, q)) + d * d + 2 * d * x * B
  {
    ShSucc(u', q);
    ShAdd(w', B * u', q);
    ShAdd(w, c2, q);
  }

  /** The carry of a row enters the top digit, and at most a 1 the digit above it. */
  method AddTop(r: BigInteger, w: int, c: int)
    requires w in r.a && 0 <= r.a[w] <= 1 && 0 <= c <= 2 * B - 2
    modifies r`a
    ensures forall k :: k != w && k != w + 1 && k in old(r.a) ==> k in r.a && r.a[k] == old(r.a)[k]
    ensures w in r.a && 0 <= r.a[w] < B
    ensures At(old(r.a), w + 1) == 0 ==>
      0 <= At(r.a, w + 1) <= 1 && r.a[w] + B * At(r.a, w + 1) == old(r.a)[w] + c
    ensures w + 1 in old(r.a) ==> w + 1 in r.a
  {
    r.a := r.a[w := r.a[w] + c];
    if r.a[w] >= B {
      r.a := r.a[w := r.a[w] - B];
      r.a := r.a[w + 1 := 1];
    }
  }

  /** The two multiply-accumulates of row i; the last carry is the result. */
  method RowDigits(x: BigInteger, r: BigInteger, i: int) returns (c: int, ghost c1: int, ghost low: int)
    requires x.Valid() && r != x && 0 <= i < x.t - 1
    requires Window(r.a, 0, 2 * x.t)
    modifies r`a
    ensures Window(r.a, 0, 2 * x.t) && 0 <= c <= 2 * x.a[i]
    ensures forall k :: k in r.a && !(2 * i <= k < i + x.t) ==> k in old(r.a) && r.a[k] == old(r.a)[k]
    ensures r.a[2 * i] + B * c1 == old(r.a)[2 * i] + x.a[i] * x.a[i]
    ensures var q := x.t - i - 1;
      V(r.a, 2 * i + 1, q) + Sh(c, q)
        == V(old(r.a), 2 * i + 1, q) + 2 * x.a[i] * V(x.a, i + 1, q) + c1
  {
    ghost var R, q := r.a, x.t - i - 1;
    var d := x.a[i];
    c := x.Am3(i, d, r, 2 * i, 0, 1);
    Single(x.a, i);
    Single(R, 2 * i);
    Single(r.a, 2 * i);
    assert Sh(c, 1) == B * Sh(c, 0);
    c1, low := c, r.a[2 * i];
    Frame(R, r.a, 2 * i + 1, q);
    c := x.Am3(i + 1, 2 * d, r, 2 * i + 1, c, x.t - i - 1);
  }

  /** Row i: the square of digit i and twice its products with the digits above it. */
  method SquareRow(x: BigInteger, r: BigInteger, i: int)
    requires x.Valid() && r != x && 0 <= i < x.t - 1
    requires Window(r.a, 0, 2 * x.t) && r.a[i + x.t] <= 1
    requires forall k :: i + x.t < k < 2 * x.t ==> r.a[k] == 0
    modifies r`a
    ensures Window(r.a, 0, 2 * x.t) && r.a[i + 1 + x.t] <= 1
    ensures forall k :: i + 1 + x.t < k < 2 * x.t ==> r.a[k] == 0
    ensures var d := x.a[i];
      V(r.a, 0, i + x.t + 2) == V(old(r.a), 0, i + x.t + 1)
        + Sh(d * d + 2 * d * V(x.a, i + 1, x.t - i - 1) * B, 2 * i)
  {
    ghost var R, q := r.a, x.t - i - 1;
    var c; ghost var c1, low;
    c, c1, low := RowDigits(x, r, i);
    ghost var R2 := r.a;
    AddTop(r, i + x.t, c);
    SquareRowSum(R, R2, r.a, i, x.t, x.a[i], V(x.a, i + 1, q), c1, c);
  }

  lemma Single(a: Store, lo: int)
    ensures V(a, lo, 1) == At(a, lo)
  {
    assert V(a, lo, 1) == V(a, lo, 0) + Sh(At(a, lo), 0);
  }

  lemma RowWindow(R: Store, R3: Store, lo: int, q: nat, v: int, d: int, x: int, c1: int, c2: int)
    requires At(R, lo + q + 2) == 0 && V(R3, lo + 1, q) == v
    requires At(R3, lo) + B * c1 == At(R, lo) + d * d
    requires v + Sh(c2, q) == V(R, lo + 1, q) + 2 * d * x + c1
    requires At(R3, lo + q + 1) + B * At(R3, lo + q + 2) == At(R, lo + q + 1) + c2
    ensures V(R3, lo, q + 3) == V(R, lo, q + 3) + (d * d + 2 * d * x * B)
  {
    Parts(R, lo, q);
    Parts(R3, lo, q);
    ShOne(q + 1);
    RowTotal(At(R, lo), V(R, lo + 1, q), At(R, lo + q + 1), c1, c2,
      At(R3, lo), v, At(R3, lo + q + 1), At(R3, lo + q + 2), d, x, q);
  }

  lemma SquareRowSum(R: Store, R2: Store, R3: Store, i: int, n: int, d: int, x: int, c1: int, c2: int)
    requires 0 <= i < n - 1
    requires forall k :: 0 <= k < 2 * i ==> At(R3, k) == At(R, k)
    requires At(R, i + n + 1) == 0
    requires At(R3, 2 * i) + B * c1 == At(R, 2 * i) + d * d
    requires forall k :: 2 * i < k < i + n ==> At(R3, k) == At(R2, k)
    requires V(R2, 2 * i + 1, n - i - 1) + Sh(c2, n - i - 1) == V(R, 2 * i + 1, n - i - 1) + 2 * d * x + c1
    requires At(R3, i + n) + B * At(R3, i + n + 1) == At(R, i + n) + c2
    ensures V(R3, 0, i + n + 2) == V(R, 0, i + n + 1) + Sh(d * d + 2 * d * x * B, 2 * i)
  {
    var q, lo, more := n - i - 1, 2 * i, d * d + 2 * d * x * B;
    Frame(R3, R2, lo + 1, q);
    Frame(R3, R, 0, lo);
    RowWindow(R, R3, lo, q, V(R2, lo + 1, q), d, x, c1, c2);
    ShAdd(V(R, lo, q + 3), more, lo);
    Split(R, 0, lo, q + 3);
    Split(R3, 0, lo, q + 3);
    ShOne(i + n + 1);
    assert V(R, 0, lo + (q + 3)) == V(R, 0, i + n + 1) + Sh(0, i + n + 1);
  }

  /** What is still missing after row i, the square of the digits above it. */
  lemma Remaining(a: Store, i: nat, n: nat)
    requires i < n
    ensures var d, y := At(a, i), V(a, i + 1, n - i - 1);
      Sh(V(a, i, n - i) * V(a, i, n - i), 2 * i)
        == Sh(d * d + 2 * d * y * B, 2 * i) + Sh(y * y, 2 * i + 2)
  {
    var d, y, v := At(a, i), V(a, i + 1, n - i - 1), V(a, i, n - i);
    Head(a, i, n - i);
    SquareWithDigit(d, y);
    var low, yy := d * d + 2 * d * y * B, y * y;
    ShAdd(low, B * (B * yy), 2 * i);
    ShSucc(B * yy, 2 * i);
    ShSucc(yy, 2 * i + 1);
  }

  lemma SquareWithDigit(d: int, y: int)
    ensures (d + B * y) * (d + B * y) == d * d + 2 * d * y * B + B * (B * (y * y))
  {
    SquareOfSum(d, B * y);
    assert B * y * (B * y) == B * (B * (y * y));
    assert 2 * d * (B * y) == 2 * d * y * B;
  }

  lemma SquareOfSum(x: int, y: int)
    ensures (x + y) * (x + y) == x * x + 2 * x * y + y * y
  {
  }

  /** A number below B^(n+1) whose digits below place n are in range has its top digit in range. */
  lemma TopInRange(a: Store, n: nat)
    requires Window(a, 0, n) && 0 <= V(a, 0, n + 1) < Pow(n + 1)
    ensures 0 <= At(a, n) < B
  {
    Bound(a, 0, n);
    var d := At(a, n);
    ShOne(n);
    ShOne(n + 1);
    ShSucc(1, n);
    if d >= B { ShMono(B, d, n); }
    if d < 0 { ShMono(d, -1, n); }
  }

  lemma SquareBelow(v: int, n: nat)
    requires 0 <= v < Pow(n)
    ensures 0 <= v * v < Pow(2 * n)
  {
    PowAdd(n, n);
    MulBounds(v, v, Pow(n) - 1, Pow(n) - 1);
    SquareOfSum(Pow(n) - 1, 1);
  }

  method SquareRows(x: BigInteger, r: BigInteger)
    requires x.Valid() && r != x && x.t > 0
    modifies r`a
    ensures Window(r.a, 0, 2 * x.t) && V(r.a, 0, 2 * x.t) == V(x.a, 0, x.t) * V(x.a, 0, x.t)
  {
    var n := x.t;
    ghost var X := V(x.a, 0, n);
    r.ZeroBelow(2 * n);
    Zero(r.a, 0, n + 1);
    assert Sh(X * X, 0) == X * X;
    var i := 0;
    while i < n - 1
      invariant 0 <= i <= n - 1 && Window(r.a, 0, 2 * n) && r.a[i + n] <= 1
      invariant forall k :: i + n < k < 2 * n ==> r.a[k] == 0
      invariant V(r.a, 0, i + n + 1) + Sh(V(x.a, i, n - i) * V(x.a, i, n - i), 2 * i) == X * X
    {
      Remaining(x.a, i, n);
      SquareRow(x, r, i);
      i := i + 1;
    }
    LastRow(x, r);
  }

  /** The square of the top digit; its carry enters the top digit of the result. */
  method LastRow(x: BigInteger, r: BigInteger)
    requires x.Valid() && r != x && x.t > 0 && Window(r.a, 0, 2 * x.t)
    requires var n, d := x.t, x.a[x.t - 1];
      V(r.a, 0, 2 * n) + Sh(V(x.a, n - 1, 1) * V(x.a, n - 1, 1), 2 * n - 2) == V(x.a, 0, n) * V(x.a, 0, n)
    modifies r`a
    ensures Window(r.a, 0, 2 * x.t) && V(r.a, 0, 2 * x.t) == V(x.a, 0, x.t) * V(x.a, 0, x.t)
  {
    var n := x.t;
    ghost var R := r.a;
    var d := x.a[n - 1];
    var c := x.Am3(n - 1, d, r, 2 * n - 2, 0, 1);
    Single(x.a, n - 1);
    Single(R, 2 * n - 2);
    Single(r.a, 2 * n - 2);
    ghost var low := r.a[2 * n - 2];
    r.a := r.a[2 * n - 1 := r.a[2 * n - 1] + c];
    Frame(R, r.a, 0, 2 * n - 2);
    LastRowSum(R, r.a, n, d, c);
    Bound(x.a, 0, n);
    SquareBelow(V(x.a, 0, n), n);
    TopInRange(r.a, 2 * n - 1);
  }

  lemma LastRowSum(R: Store, R': Store, n: nat, d: int, c: int)
    requires n > 0 && V(R', 0, 2 * n - 2) == V(R, 0, 2 * n - 2)
    requires At(R', 2 * n - 2) + B * c == At(R, 2 * n - 2) + d * d
    requires At(R', 2 * n - 1) == At(R, 2 * n - 1) + c
    ensures V(R', 0, 2 * n) == V(R, 0, 2 * n) + Sh(d * d, 2 * n - 2)
  {
    var m := 2 * n - 2;
    ShAdd(At(R', m), B * c, m);
    ShAdd(At(R, m), d * d, m);
    ShSucc(c, m);
    ShAdd(At(R, m + 1), c, m + 1);
  }

  /** x * x into r, which is not x. */
  method SquareTo(x: BigInteger, r: BigInteger)
    requires x.Valid() && r != x
    modifies r
    ensures r.Valid() && r.Clamped() && r.Value() == x.Value() * x.Value()
  {
    SignOfValue(x);
    var u := x.Abs();
    SignOfValue(u);
    SignedProduct(x.Value(), x.Value(), u.Value(), u.Value());
    r.t := 2 * u.t;
    if u.t > 0 {
      SquareRows(u, r);
    }
    r.s := 0;
    ShOne(r.t);
    r.Clamp();
  }
}
