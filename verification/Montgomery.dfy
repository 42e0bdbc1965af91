/**
  Montgomery reduction in jni/v8core/v8/benchmarks/crypto.js: the inverse of a digit by doubling
  its precision, and the reduction that clears one low digit a round.
*/
module Montgomery {
  import opened Digits
  import opened BigIntegers

  /** JavaScript's %: the sign of the dividend. */
  function JsRem(x: int, m: int): int
    requires m > 0
  {
    if x < 0 then -(-x % m) else x % m
  }

  lemma SquareOut(k: int, m: int)
    ensures k * m * (k * m) == k * k * (m * m)
  {
    MulAssoc(k, m, k * m);
    MulAssoc(k, k, m * m);
    assert m * (k * m) == k * (m * m) by { MulAssoc(m, k, m); MulAssoc(k, m, m); }
  }

  lemma NearOne(q: int)
    ensures (1 + q) * (2 - (1 + q)) == 1 - q * q
  {
  }

  lemma Collected(a: int, b: int, c: int, n: int)
    ensures (a - b - c) * n == a * n - b * n - c * n
  {
  }

  /** If xy = 1 + km, then z = y(2 - xy), both factors reduced, is an inverse modulo a divisor of m^2. */
  lemma NewtonStep(x: int, y: int, k: int, m: int, n: int, c: int, t: int, h: int, z: int, f: int)
    returns (k': int)
    requires x * y == 1 + k * m && m * m == n * c
    requires t == x * y - h * n && z == y * (2 - t) - f * n
    ensures x * z == 1 + k' * n
  {
    k' := x * y * h - k * k * c - f * x;
    var p := x * y;
    assert x * z == p * (2 - t) - f * x * n by {
      MulDistr(x, y * (2 - t), -(f * n));
      MulAssoc(x, y, 2 - t);
      assert x * -(f * n) == -(f * x * n) by { MulAssoc(x, f, n); }
    }
    assert p * (2 - t) == p * (2 - p) + p * h * n by {
      MulDistr(p, 2 - p, h * n);
      MulAssoc(p, h, n);
    }
    assert p * (2 - p) == 1 - k * k * c * n by {
      NearOne(k * m);
      SquareOut(k, m);
      MulAssoc(k * k, c, n);
    }
    Collected(p * h, k * k * c, f * x, n);
  }

  /** One step with the masks of the source: all operands reduced modulo n. */
  lemma MaskedStep(x: int, y: int, k: int, m: int, n: int, c: int, x': int, t: int, z: int) returns (k': int)
    requires n > 0 && x * y == 1 + k * m && m * m == n * c
    requires x' == x % n && (t == x' * y || t == x' * y % n)
    requires z == y * (2 - t) % n || z == JsRem(y * (2 - t), n)
    ensures x * z == 1 + k' * n
  {
    var h := ReducedProduct(x, y, n, x', t);
    var f := MaskQuotient(y * (2 - t), n, z);
    k' := NewtonStep(x, y, k, m, n, c, t, h, z, f);
  }

  lemma MaskQuotient(w: int, n: int, z: int) returns (f: int)
    requires n > 0 && (z == w % n || z == JsRem(w, n))
    ensures w == f * n + z
  {
    f := w / n;
    if z != w % n {
      f := -(-w / n);
      assert -w == -w / n * n + -w % n;
    }
  }

  lemma ReducedProduct(x: int, y: int, n: int, x': int, t: int) returns (h: int)
    requires n > 0 && x' == x % n && (t == x' * y || t == x' * y % n)
    ensures t == x * y - h * n
  {
    var d := x / n;
    var g := if t == x' * y then 0 else x' * y / n;
    assert x' * y == g * n + t;
    assert x == d * n + x';
    assert x * y == d * n * y + x' * y;
    assert d * n * y == d * y * n;
    h := d * y + g;
    assert h * n == d * y * n + g * n;
  }

  /** -1/x mod B for a number with digit 0 equal to x, or 0 when there is none. */
  method InvDigit(m: BigInteger) returns (r: int)
    requires m.Valid()
    ensures m.t < 1 || m.a[0] % 2 == 0 ==> r == 0
    ensures m.t >= 1 && m.a[0] % 2 == 1 ==> 0 <= r < B && (m.a[0] * r + 1) % B == 0
  {
    if m.t < 1 { return 0; }
    var x := m.a[0];
    if x % 2 == 0 { return 0; }
    var y := x % 4;
    OddSquare(x);
    ghost var k := x * y / 4;
    k := MaskedStep(x, y, k, 4, 16, 1, x % 16, x % 16 * y, y * (2 - x % 16 * y) % 16);
    y := y * (2 - x % 16 * y) % 16;
    k := MaskedStep(x, y, k, 16, 256, 1, x % 256, x % 256 * y, y * (2 - x % 256 * y) % 256);
    y := y * (2 - x % 256 * y) % 256;
    k := MaskedStep(x, y, k, 256, 0x1_0000, 1, x % 0x1_0000, x % 0x1_0000 * y % 0x1_0000,
      y * (2 - x % 0x1_0000 * y % 0x1_0000) % 0x1_0000);
    y := y * (2 - x % 0x1_0000 * y % 0x1_0000) % 0x1_0000;
    k := LastStep(x, y, k);
    y := JsRem(y * (2 - x * y % B), B);
    r := if y > 0 then B - y else -y;
    NegatedInverse(x, y, k, r);
  }

  lemma OddSquare(x: int)
    requires x % 2 == 1
    ensures x * (x % 4) == 1 + (x * (x % 4) / 4) * 4
  {
    var q := x / 4;
    if x % 4 == 1 {
      assert x * 1 == 1 + q * 4;
    } else {
      assert x * 3 == 1 + (3 * q + 2) * 4;
    }
  }

  lemma LastStep(x: int, y: int, k: int) returns (k': int)
    requires 0 <= x < B && x * y == 1 + k * 0x1_0000
    ensures x * JsRem(y * (2 - x * y % B), B) == 1 + k' * B
  {
    k' := MaskedStep(x, y, k, 0x1_0000, B, 16, x, x * y % B, JsRem(y * (2 - x * y % B), B));
  }

  lemma NegatedInverse(x: int, y: int, k: int, r: int)
    requires x * y == 1 + k * B && -B < y < B && y != 0 && r == if y > 0 then B - y else -y
    ensures 0 <= r < B && (x * r + 1) % B == 0
  {
    var j := if y > 0 then x - k else -k;
    assert x * r + 1 == j * B by {
      if y > 0 { MulDistr(x, B, -y); } else { MulDistr(x, 0, -y); }
      assert x * -y == -(x * y);
    }
    DivIs(x * r + 1, B, j, 0);
  }

  /** u0 = x_i * mp mod B, computed from 15-bit and 13-bit halves. */
  function SplitU0(xi: int, mp: int): int
    requires 0 <= xi < B && 0 <= mp < B
  {
    var mpl, mph, j := mp % 0x8000, mp / 0x8000, xi % 0x8000;
    (j * mpl + (j * mph + xi / 0x8000 * mpl) % 0x2000 * 0x8000) % B
  }

  lemma SplitU0Correct(xi: int, mp: int)
    requires 0 <= xi < B && 0 <= mp < B
    ensures SplitU0(xi, mp) == xi * mp % B
    ensures var mpl, mph, j := mp % 0x8000, mp / 0x8000, xi % 0x8000;
      && 0 <= j * mph + xi / 0x8000 * mpl < 0x8000_0000
      && 0 <= j * mpl + (j * mph + xi / 0x8000 * mpl) % 0x2000 * 0x8000 < 0x8000_0000
  {
    var mpl, mph, j, h := mp % 0x8000, mp / 0x8000, xi % 0x8000, xi / 0x8000;
    MulBounds(j, mph, 0x7fff, 0x1fff);
    MulBounds(h, mpl, 0x1fff, 0x7fff);
    MulBounds(j, mpl, 0x7fff, 0x7fff);
    var t := j * mph + h * mpl;
    var u := j * mpl + t % 0x2000 * 0x8000;
    assert xi * mp == u + (t / 0x2000 + 4 * (h * mph)) * B by {
      assert xi == h * 0x8000 + j && mp == mph * 0x8000 + mpl;
      ProductOfHalves(h, j, mph, mpl);
    }
    var e := t / 0x2000 + 4 * (h * mph);
    DivIs(xi * mp, B, e + u / B, u % B);
  }

  lemma ProductOfHalves(h: int, j: int, mh: int, ml: int)
    ensures (h * 0x8000 + j) * (mh * 0x8000 + ml)
      == h * mh * 0x4000_0000 + (j * mh + h * ml) * 0x8000 + j * ml
  {
    MulDistr(h * 0x8000 + j, mh * 0x8000, ml);
    assert (h * 0x8000 + j) * (mh * 0x8000) == h * mh * 0x4000_0000 + j * mh * 0x8000;
    assert (h * 0x8000 + j) * ml == h * ml * 0x8000 + j * ml;
  }

  /** while(x_array[j] >= BI_DV) { x_array[j] -= BI_DV; x_array[++j]++; } */
  method PropagateCarry(x: BigInteger, j0: int, n: nat)
    requires 0 <= j0 < n
    requires forall k :: 0 <= k < n ==> k in x.a && 0 <= x.a[k] && (k != j0 ==> x.a[k] < B)
    requires x.a[j0] < 2 * B && V(x.a, 0, n) < Pow(n)
    modifies x`a
    ensures Window(x.a, 0, n) && V(x.a, 0, n) == V(old(x.a), 0, n)
    ensures forall k :: 0 <= k < j0 ==> x.a[k] == old(x.a)[k]
  {
    var j := j0;
    while x.a[j] >= B
      invariant j0 <= j < n
      invariant forall k :: 0 <= k < n ==> k in x.a && 0 <= x.a[k] && (k != j ==> x.a[k] < B)
      invariant x.a[j] < 2 * B && V(x.a, 0, n) == V(old(x.a), 0, n)
      invariant forall k :: 0 <= k < j0 ==> x.a[k] == old(x.a)[k]
      decreases n - j
    {
      ghost var X := x.a;
      if j == n - 1 { TopOverflow(X, n); }
      x.a := x.a[j := x.a[j] - B];
      j := j + 1;
      x.a := x.a[j := x.a[j] + 1];
      CarryMoves(X, x.a, j - 1, n);
    }
  }

  lemma TopOverflow(a: Store, n: nat)
    requires n > 0 && Window(a, 0, n - 1) && At(a, n - 1) >= B
    ensures V(a, 0, n) >= Pow(n)
  {
    Bound(a, 0, n - 1);
    ShMono(B, At(a, n - 1), n - 1);
    ShSucc(1, n - 1);
    ShOne(n);
  }

  lemma {:induction false} CarryMoves(a: Store, b: Store, j: int, n: nat)
    requires 0 <= j < n - 1 && At(b, j) == At(a, j) - B && At(b, j + 1) == At(a, j + 1) + 1
    requires forall k :: 0 <= k < n && k != j && k != j + 1 ==> At(a, k) == At(b, k)
    ensures V(a, 0, n) == V(b, 0, n)
  {
    if n == j + 2 {
      Frame(a, b, 0, j);
      ShAdd(At(a, j), -B, j);
      ShSucc(-1, j);
      ShAdd(At(a, j + 1), 1, j + 1);
      ShOne(j + 1);
    } else {
      assert At(a, n - 1) == At(b, n - 1);
      CarryMoves(a, b, j, n - 1);
    }
  }

  /** One round: digit i of x becomes zero by adding u0 * m * B^i. */
  method Round(x: BigInteger, m: BigInteger, i: int, mp: int)
    requires x != m && m.Valid() && m.t > 0 && 0 <= i < m.t && 0 <= mp < B
    requires (m.a[0] * mp + 1) % B == 0
    requires Window(x.a, 0, 2 * m.t + 1)
    requires V(x.a, 0, 2 * m.t + 1) + Sh(B * V(m.a, 0, m.t), i) <= Pow(2 * m.t + 1)
    modifies x`a
    ensures Window(x.a, 0, 2 * m.t + 1) && x.a[i] == 0
    ensures forall k :: 0 <= k < i ==> x.a[k] == old(x.a)[k]
    ensures var u := SplitU0(old(x.a)[i], mp);
      0 <= u < B && V(x.a, 0, 2 * m.t + 1) == V(old(x.a), 0, 2 * m.t + 1) + Sh(u * V(m.a, 0, m.t), i)
  {
    ghost var X, n := x.a, m.t;
    var u0 := SplitU0(x.a[i], mp);
    AddScaled(x, m, i, u0);
    assert At(X, i) == X[i] && At(m.a, 0) == m.a[0];
    DigitCleared(X, x.a, m.a, i, n, u0, mp);
    RoundBound(V(X, 0, 2 * n + 1), V(m.a, 0, n), u0, i, 2 * n + 1, m);
    PropagateCarry(x, i + m.t, 2 * m.t + 1);
  }

  /** x_array[i+n] += m.am(0, u0, x, i, 0, n) */
  method AddScaled(x: BigInteger, m: BigInteger, i: int, u: int)
    requires x != m && m.Valid() && 0 <= i < m.t && 0 <= u < B
    requires Window(x.a, 0, 2 * m.t + 1)
    modifies x`a
    ensures forall k :: 0 <= k < 2 * m.t + 1 ==> k in x.a && 0 <= x.a[k] && (k != i + m.t ==> x.a[k] < B)
    ensures x.a[i + m.t] < 2 * B
    ensures forall k :: 0 <= k < i ==> x.a[k] == old(x.a)[k]
    ensures exists c {:trigger Sh(c, m.t)} :: V(x.a, i, m.t) + Sh(c, m.t) == V(old(x.a), i, m.t) + u * V(m.a, 0, m.t)
    ensures V(x.a, 0, 2 * m.t + 1) == V(old(x.a), 0, 2 * m.t + 1) + Sh(u * V(m.a, 0, m.t), i)
  {
    ghost var X := x.a;
    var c := m.Am3(0, u, x, i, 0, m.t);
    ghost var X1 := x.a;
    x.a := x.a[i + m.t := x.a[i + m.t] + c];
    Frame(x.a, X1, i, m.t);
    RoundSum(X, X1, x.a, m.a, i, m.t, u, c);
  }

  lemma RoundBound(v: int, mv: int, u: int, i: nat, n: nat, m: BigInteger)
    requires m.Valid() && m.t > 0 && mv == V(m.a, 0, m.t) && m.a[0] != 0
    requires 0 <= u < B && v + Sh(B * mv, i) <= Pow(n)
    ensures v + Sh(u * mv, i) < Pow(n)
  {
    Head(m.a, 0, m.t);
    Bound(m.a, 1, m.t - 1);
    MulMono(u + 1, B, mv);
    assert (u + 1) * mv == u * mv + mv;
    ShMono(u * mv + 1, B * mv, i);
    ShAdd(u * mv, 1, i);
    ShOne(i);
  }

  lemma RoundSum(X: Store, X1: Store, X2: Store, m: Store, i: int, n: nat, u: int, c: int)
    requires 0 <= i < n
    requires V(X1, i, n) + Sh(c, n) == V(X, i, n) + u * V(m, 0, n)
    requires forall k :: 0 <= k < 2 * n + 1 && !(i <= k < i + n) ==> At(X1, k) == At(X, k)
    requires X2 == X1[i + n := At(X1, i + n) + c]
    ensures V(X2, 0, 2 * n + 1) == V(X, 0, 2 * n + 1) + Sh(u * V(m, 0, n), i)
  {
    var r := n - i;
    Frame(X2, X, 0, i);
    Frame(X2, X1, i, n);
    Frame(X2, X, i + n + 1, r);
    ThreeParts(X, i, n, r);
    ThreeParts(X2, i, n, r);
    ShAdd(At(X, i + n), c, n);
    ShAdd(V(X, i, n) + Sh(At(X, i + n), n), u * V(m, 0, n), i);
    assert V(X2, i, n) + Sh(At(X2, i + n), n) == V(X, i, n) + Sh(At(X, i + n), n) + u * V(m, 0, n);
  }

  lemma ThreeParts(a: Store, i: nat, n: nat, r: nat)
    ensures V(a, 0, i + n + 1 + r)
      == V(a, 0, i) + Sh(V(a, i, n) + Sh(At(a, i + n), n), i) + Sh(V(a, i + n + 1, r), i + n + 1)
  {
    Split(a, 0, i + n + 1, r);
    Split(a, 0, i, n + 1);
  }

  /** The digit the round works on becomes zero. */
  lemma DigitCleared(X: Store, X2: Store, m: Store, i: int, n: nat, u: int, mp: int)
    requires 0 <= i < n && 0 <= At(X, i) < B && 0 <= At(X2, i) < B && 0 <= mp < B
    requires u == SplitU0(At(X, i), mp) && (At(m, 0) * mp + 1) % B == 0
    requires exists c {:trigger Sh(c, n)} :: V(X2, i, n) + Sh(c, n) == V(X, i, n) + u * V(m, 0, n)
    ensures At(X2, i) == 0
  {
    var c :| V(X2, i, n) + Sh(c, n) == V(X, i, n) + u * V(m, 0, n);
    SplitU0Correct(At(X, i), mp);
    Head(X, i, n);
    Head(X2, i, n);
    Head(m, 0, n);
    var e := LowDigit(At(X, i), At(m, 0), mp, u);
    assert Sh(c, n) == B * Sh(c, n - 1);
    MultipleOfBase(At(X2, i), V(X2, i + 1, n - 1) + Sh(c, n - 1), At(X, i), V(X, i + 1, n - 1),
      u, At(m, 0), V(m, 1, n - 1), e);
  }

  lemma MultipleOfBase(d: int, v: int, x: int, w: int, u: int, m0: int, h: int, e: int)
    requires 0 <= d < B && d + B * v == x + B * w + u * (m0 + B * h) && x + u * m0 == e * B
    ensures d == 0
  {
    MulDistr(u, m0, B * h);
    assert u * (B * h) == B * (u * h);
    assert d == B * (w + u * h + e - v);
  }

  lemma LowDigit(xi: int, m0: int, mp: int, u: int) returns (e: int)
    requires u == xi * mp % B && (m0 * mp + 1) % B == 0
    ensures xi + u * m0 == e * B
  {
    var f, g := (m0 * mp + 1) / B, xi * mp / B;
    assert xi * mp == g * B + u;
    e := xi * f - g * m0;
    MulDistr(xi, m0 * mp, 1);
    MulAssoc(xi, f, B);
    MulSwap(g, B, m0);
    assert xi * (m0 * mp) == xi * mp * m0;
    assert xi * mp * m0 == g * B * m0 + u * m0;
  }

  /** Any two numbers below an odd m that agree modulo m after scaling by a power of B are equal. */
  lemma {:induction false} OddDividesScaled(m: int, d: int, n: nat) returns (e: int)
    requires m % 2 == 1 && m > 0
    requires exists q :: d * Pow2(n) == q * m
    ensures d == e * m
    decreases n
  {
    var q :| d * Pow2(n) == q * m;
    if n == 0 {
      e := q;
    } else {
      var h := Pow2(n - 1);
      assert d * Pow2(n) == 2 * (d * h);
      assert q % 2 == 0 by {
        if q % 2 == 1 {
          var a, b := q / 2, m / 2;
          assert q * m == 2 * (2 * a * b + a + b) + 1 by {
            assert q == 2 * a + 1 && m == 2 * b + 1;
            OddTimesOdd(a, b);
          }
        }
      }
      var q' := q / 2;
      assert q * m == 2 * (q' * m);
      assert d * h == q' * m;
      e := OddDividesScaled(m, d, n - 1);
    }
  }

  lemma OddTimesOdd(a: int, b: int)
    ensures (2 * a + 1) * (2 * b + 1) == 2 * (2 * a * b + a + b) + 1
  {
  }

  /** r is x / R modulo m, where R = B^n. */
  ghost predicate IsMontgomery(r: int, x: int, m: int, n: nat) {
    && 0 <= r < m && exists q :: r * Pow(n) == x + q * m
  }

  lemma Factors(r: int, r': int, p: int, q: int, q': int, m: int, x: int)
    requires r * p == x + q * m && r' * p == x + q' * m
    ensures (r - r') * p == (q - q') * m
  {
  }

  /** The specification determines the result. */
  lemma MontgomeryUnique(r: int, r': int, x: int, m: int, n: nat)
    requires m % 2 == 1 && IsMontgomery(r, x, m, n) && IsMontgomery(r', x, m, n)
    ensures r == r'
  {
    var q :| r * Pow(n) == x + q * m;
    var q' :| r' * Pow(n) == x + q' * m;
    PowPow2(n);
    Factors(r, r', Pow(n), q, q', m, x);
    var e := OddDividesScaled(m, r - r', DIGIT_BITS * n);
    if e >= 1 { MulMono(1, e, m); }
    if e <= -1 { MulMono(e, -1, m); }
  }

  class Reducer {
    const m: BigInteger
    const mp: int

    /** The Montgomery constructor; the source keeps mp as two halves, see SplitU0. */
    constructor (modulus: BigInteger)
      requires modulus.Valid() && modulus.Clamped() && modulus.s == 0
      requires modulus.t > 0 && modulus.a[0] % 2 == 1
      ensures m == modulus && Ready()
    {
      m := modulus;
      var inv := InvDigit(modulus);
      mp := inv;
    }

    ghost predicate Ready()
      reads m
    {
      && m.Valid() && m.Clamped() && m.s == 0 && m.t > 0 && m.a[0] % 2 == 1
      && 0 <= mp < B && (m.a[0] * mp + 1) % B == 0
    }

    /** x = x / R mod m, in place. */
    method Reduce(x: BigInteger)
      requires Ready() && x != m && x.Valid() && x.Clamped()
      requires 0 <= x.Value() < m.Value() * Pow(m.t)
      modifies x
      ensures x.Valid() && x.Clamped() && IsMontgomery(x.Value(), old(x.Value()), m.Value(), m.t)
    {
      ghost var X, M, n := x.Value(), m.Value(), m.t;
      SignOfValue(m);
      SignOfValue(x);
      Magnitude(m);
      Magnitude(x);
      FitsTwice(X, M, n);
      if x.t > 2 * n { PowMono(2 * n, x.t - 1); }
      Pad(x, 2 * m.t);
      ghost var u := ClearLow(x, M, X);
      Finish(x, X, M, u);
    }

    /** while(x.t <= mt2) x_array[x.t++] = 0; */
    method Pad(x: BigInteger, mt2: nat)
      requires x.Valid() && x.t <= mt2
      modifies x
      ensures x.Valid() && x.t == mt2 + 1 && x.s == old(x.s)
      ensures V(x.a, 0, x.t) == V(old(x.a), 0, old(x.t))
    {
      while x.t <= mt2
        invariant x.Valid() && x.t <= mt2 + 1 && x.s == old(x.s)
        invariant V(x.a, 0, x.t) == V(old(x.a), 0, old(x.t))
      {
        ShOne(x.t);
        x.PutAbove(x.t, 0);
        x.t := x.t + 1;
      }
    }

    /** The rounds: m.t low digits become zero, and x stays the same modulo m. */
    method ClearLow(x: BigInteger, ghost M: int, ghost X: int) returns (ghost u: int)
      requires Ready() && x != m && M == V(m.a, 0, m.t)
      requires x.Valid() && x.t == 2 * m.t + 1 && V(x.a, 0, x.t) == X < M * Pow(m.t) && M < Pow(m.t)
      modifies x`a
      ensures x.Valid() && 0 <= u < Pow(m.t)
      ensures V(x.a, 0, x.t) == X + u * M
      ensures forall k :: 0 <= k < m.t ==> x.a[k] == 0
    {
      u := 0;
      var i := 0;
      while i < m.t
        invariant 0 <= i <= m.t && x.Valid() && 0 <= u < Pow(i)
        invariant V(x.a, 0, x.t) == X + u * M
        invariant forall k :: 0 <= k < i ==> x.a[k] == 0
      {
        u := ClearOne(x, i, M, X, u);
        i := i + 1;
      }
    }

    method ClearOne(x: BigInteger, i: int, ghost M: int, ghost X: int, ghost u0: int) returns (ghost u: int)
      requires Ready() && x != m && M == V(m.a, 0, m.t) < Pow(m.t) && 0 <= i < m.t
      requires x.Valid() && x.t == 2 * m.t + 1 && X < M * Pow(m.t)
      requires V(x.a, 0, x.t) == X + u0 * M && 0 <= u0 < Pow(i)
      modifies x`a
      ensures x.Valid() && x.a[i] == 0 && forall k :: 0 <= k < i ==> x.a[k] == old(x.a)[k]
      ensures V(x.a, 0, x.t) == X + u * M && 0 <= u < Pow(i + 1)
    {
      ghost var d := SplitU0(x.a[i], mp);
      Bound(m.a, 0, m.t);
      RoundRoom(X, u0, M, i, m.t);
      Round(x, m, i, mp);
      CollectU(u0, d, M, i);
      u := u0 + Sh(d, i);
    }

    /** x.clamp(); x.drShiftTo(m.t, x); if(x >= m) x.subTo(m, x). */
    method Finish(x: BigInteger, ghost X: int, ghost M: int, ghost u: int)
      requires Ready() && x != m && x.Valid() && x.s == 0 && M == m.Value()
      requires V(x.a, 0, x.t) == X + u * M && x.t >= m.t
      requires 0 <= X < M * Pow(m.t) && 0 <= u < Pow(m.t)
      requires forall k :: 0 <= k < m.t ==> x.a[k] == 0
      modifies x
      ensures x.Valid() && x.Clamped() && IsMontgomery(x.Value(), X, M, m.t)
    {
      SignOfValue(x);
      ghost var h := V(x.a, m.t, x.t - m.t);
      Zero(x.a, 0, m.t);
      Split(x.a, 0, m.t, x.t - m.t);
      ShPow(h, m.t);
      BelowTwice(X, u, M, Pow(m.t), h);
      DivIs(X + u * M, Pow(m.t), h, 0);
      x.Clamp();
      x.DrShiftTo(m.t, x);
      SignOfValue(m);
      SignOfValue(x);
      var c := x.CompareTo(m);
      if c >= 0 {
        x.SubTo(m, x);
        WithLess(h, X, u, M, Pow(m.t));
        assert x.Value() * Pow(m.t) == X + (u - Pow(m.t)) * M;
      } else {
        assert x.Value() * Pow(m.t) == X + u * M;
      }
    }
  }

  lemma FitsTwice(x: int, m: int, n: nat)
    requires 0 <= x < m * Pow(n) && 0 <= m < Pow(n)
    ensures x < Pow(2 * n)
  {
    PowAdd(n, n);
    MulMono(m, Pow(n), Pow(n));
  }

  /** There is room for one more round. */
  lemma RoundRoom(x: int, u: int, m: int, i: nat, n: nat)
    requires 0 <= m < Pow(n) && i < n && 0 <= u < Pow(i) && x < m * Pow(n)
    ensures x + u * m + Sh(B * m, i) <= Pow(2 * n + 1)
  {
    ShSucc(m, i);
    ShPow(m, i + 1);
    PowMono(i + 1, n);
    MulMono(Pow(i + 1), Pow(n), m);
    MulMono(u, Pow(n), m);
    PowMono(i, n);
    PowAdd(n, n);
    MulMono(m, Pow(n), Pow(n));
  }

  lemma CollectU(u: int, d: int, m: int, i: nat)
    requires 0 <= u < Pow(i) && 0 <= d < B
    ensures u * m + Sh(d * m, i) == (u + Sh(d, i)) * m
    ensures 0 <= u + Sh(d, i) < Pow(i + 1)
  {
    ShMul(m, d, i);
    assert d * m == m * d;
    assert (u + Sh(d, i)) * m == u * m + m * Sh(d, i);
    ShMono(0, d, i);
    ShMono(d + 1, B, i);
    ShAdd(d, 1, i);
    ShSucc(1, i);
    ShOne(i);
    ShOne(i + 1);
  }

  lemma BelowTwice(x: int, u: int, m: int, p: int, h: int)
    requires 0 <= x < m * p && 0 <= u < p && m > 0 && x + u * m == h * p
    ensures 0 <= h < 2 * m
  {
    MulMono(u + 1, p, m);
    MulMono(0, u, m);
    if h >= 2 * m { MulMono(2 * m, h, p); }
    if h < 0 { MulMono(h, -1, p); }
  }

  lemma WithLess(h: int, x: int, u: int, m: int, p: int)
    requires x + u * m == h * p
    ensures (h - m) * p == x + (u - p) * m
  {
  }
}
