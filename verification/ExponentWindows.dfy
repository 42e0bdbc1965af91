/**
  The arithmetic of `bnModPow` in jni/v8core/v8/benchmarks/crypto.js: what a reducer is, and how
  the windows of the exponent, which cross digit boundaries, add up.
*/
module ExponentWindows {
  import opened Digits
  import opened BigIntegers
  import opened Modular

  /**
    A reducer as its users see it: numbers are kept multiplied by `scale` modulo m, and a
    product is multiplied by `unscale` to stay so.  Classic and Barrett keep the numbers as they
    are; Montgomery scales by B^t.
   */
  datatype Reducer = Reducer(m: nat, scale: nat, unscale: nat) {
    ghost predicate Ok() {
      m > 0 && Cong(scale * unscale, 1, m)
    }

    function Convert(x: int): int
      requires m > 0
    {
      x * scale % m
    }

    function Mul(u: int, v: int): int
      requires m > 0
    {
      u * v * unscale % m
    }

    function Revert(u: int): int
      requires m > 0
    {
      u * unscale % m
    }

    /** u stands for x. */
    ghost predicate Rep(u: int, x: int) {
      Cong(u, x * scale, m)
    }

    lemma ConvertRep(x: int)
      requires Ok()
      ensures Rep(Convert(x), x)
    {
      CongMod(x * scale, m);
    }

    lemma MulRep(u: int, x: int, v: int, y: int)
      requires Ok() && Rep(u, x) && Rep(v, y)
      ensures Rep(Mul(u, v), x * y)
    {
      CongMod(u * v * unscale, m);
      CongMul(u, x * scale, v, y * scale, m);
      CongIntro(unscale, unscale, m, 0);
      CongMul(u * v, x * scale * (y * scale), unscale, unscale, m);
      var p := x * y * scale;
      assert x * scale * (y * scale) * unscale == p * (scale * unscale) by {
        assert x * scale * (y * scale) == p * scale;
        MulAssoc(p, scale, unscale);
      }
      CongIntro(p, p, m, 0);
      CongMul(p, p, scale * unscale, 1, m);
      CongTrans(u * v * unscale, p * (scale * unscale), p, m);
      CongTrans(Mul(u, v), u * v * unscale, p, m);
    }

    lemma RevertRep(u: int, x: int)
      requires Ok() && Rep(u, x)
      ensures Revert(u) == x % m
    {
      CongIntro(unscale, unscale, m, 0);
      CongMul(u, x * scale, unscale, unscale, m);
      MulAssoc(x, scale, unscale);
      CongIntro(x, x, m, 0);
      CongMul(x, x, scale * unscale, 1, m);
      CongTrans(u * unscale, x * (scale * unscale), x, m);
      CongSame(u * unscale, x, m);
    }
  }

  /** The bits of x above place n. */
  ghost function Above(x: nat, n: nat): nat {
    DivNat(x, Pow2(n));
    x / Pow2(n)
  }

  lemma DivNat(x: nat, p: int)
    requires p > 0
    ensures 0 <= x / p && 0 <= x % p
  {
  }

  lemma NestedDiv(x: nat, p: nat, q: nat)
    requires p > 0 && q > 0
    ensures x / p >= 0 && x / p / q == x / (q * p)
  {
    var y, r := x / p, x % p;
    var z, s := y / q, y % q;
    assert x == y * p + r && 0 <= r < p;
    assert y == z * q + s && 0 <= s < q;
    NestedFloor(z, q, s, p, r);
    MulBounds(1, 1, q, p);
    DivIs(x, q * p, z, s * p + r);
  }

  lemma AboveAbove(x: nat, m: nat, n: nat)
    ensures Above(Above(x, m), n) == Above(x, m + n)
  {
    NestedDiv(x, Pow2(m), Pow2(n));
    Pow2Add(n, m);
  }

  lemma DivInDigit(e: nat, low: int, w: nat, d: int, h: int, p: nat, q: nat)
    requires w > 0 && p > 0 && p * q == B && 0 <= low < w && e == low + (d + B * h) * w
    ensures e / (p * w) == h * q + d / p
  {
    var k, r := d / p, d % p;
    assert d == k * p + r && 0 <= r < p;
    var u := h * q + k;
    MulAssoc(h, q, p);
    assert d + B * h == u * p + r;
    NestedFloor(u, p, r, w, low);
    MulBounds(1, 1, p, w);
    DivIs(e, p * w, u, r * w + low);
  }

  /** The bits above a place inside digit j. */
  lemma AboveInDigit(a: Store, t: nat, j: nat, b: nat)
    requires j < t && b <= DIGIT_BITS && Window(a, 0, t)
    ensures 0 <= V(a, 0, t) && 0 <= V(a, j + 1, t - j - 1)
    ensures Above(V(a, 0, t), DIGIT_BITS * j + b)
      == V(a, j + 1, t - j - 1) * Pow2(DIGIT_BITS - b) + a[j] / Pow2(b)
  {
    AboveDigit(a, t, j, b, DIGIT_BITS);
  }

  lemma AboveDigit(a: Store, t: nat, j: nat, b: nat, n: nat)
    requires j < t && b <= n && n == DIGIT_BITS && Window(a, 0, t)
    ensures 0 <= V(a, 0, t) && 0 <= V(a, j + 1, t - j - 1)
    ensures Above(V(a, 0, t), n * j + b) == V(a, j + 1, t - j - 1) * Pow2(n - b) + a[j] / Pow2(b)
  {
    var e, low, w, h := V(a, 0, t), V(a, 0, j), Pow(j), V(a, j + 1, t - j - 1);
    Bound(a, 0, t);
    Bound(a, 0, j);
    Bound(a, j + 1, t - j - 1);
    AtDigit(a, t, j);
    DigitPowers(j, b, n);
    DivInDigit(e, low, w, a[j], h, Pow2(b), Pow2(n - b));
  }

  /** The number split at digit j. */
  lemma AtDigit(a: Store, t: nat, j: nat)
    requires j < t
    ensures V(a, 0, t) == V(a, 0, j) + (At(a, j) + B * V(a, j + 1, t - j - 1)) * Pow(j)
  {
    Split(a, 0, j, t - j);
    Head(a, j, t - j);
    ShPow(V(a, j, t - j), j);
  }

  lemma DigitPowers(j: nat, b: nat, n: nat)
    requires n == DIGIT_BITS && b <= n
    ensures Pow2(b) * Pow2(n - b) == B && Pow2(n * j + b) == Pow2(b) * Pow(j)
  {
    Pow2Add(b, n - b);
    Pow2Digit();
    PowPow2(j);
    Pow2Add(b, n * j);
  }

  /** The k bits of e from place p downwards, with zeros below place 0. */
  ghost function BitsFrom(e: nat, p: nat, k: nat): nat
    requires k > 0
  {
    if p >= k - 1 then Above(e, p - k + 1) % Pow2(k) else e % Pow2(p + 1) * Pow2(k - 1 - p)
  }

  lemma ModAdd(x: int, y: int, m: nat)
    requires 0 <= y < m
    ensures (x * m + y) % m == y
  {
    DivIs(x * m + y, m, x, y);
  }

  lemma ModOfSum(x: int, y: int, m: nat)
    requires m > 0
    ensures (x * m + y) % m == y % m
  {
    var k := y / m;
    assert y == k * m + y % m;
    DivIs(x * m + y, m, x + k, y % m);
  }

  /** w = (e_array[j] >> (i-k1)) & km, or the bits joined across two digits. */
  method ReadWindow(e: BigInteger, j: int, i: int, k: nat) returns (w: nat)
    requires e.Valid() && 0 <= j < e.t && 0 <= i < DIGIT_BITS && 0 < k <= 6
    ensures 0 <= V(e.a, 0, e.t) && w == BitsFrom(V(e.a, 0, e.t), DIGIT_BITS * j + i, k)
  {
    Bound(e.a, 0, e.t);
    if i >= k - 1 {
      w := e.a[j] / Pow2(i - (k - 1)) % Pow2(k);
      InOneDigit(e.a, e.t, j, i, k);
    } else {
      w := e.a[j] % Pow2(i + 1) * Pow2(k - 1 - i);
      if j > 0 {
        w := w + e.a[j - 1] / Pow2(DIGIT_BITS + i - (k - 1));
        AcrossDigits(e.a, e.t, j, i, k);
      } else {
        AtTheEnd(e.a, e.t, i);
      }
    }
  }

  lemma InOneDigit(a: Store, t: nat, j: nat, i: nat, k: nat)
    requires j < t && Window(a, 0, t) && k - 1 <= i < DIGIT_BITS && k > 0
    ensures V(a, 0, t) >= 0
    ensures BitsFrom(V(a, 0, t), DIGIT_BITS * j + i, k) == a[j] / Pow2(i - (k - 1)) % Pow2(k)
  {
    var b, h := i - (k - 1), V(a, j + 1, t - j - 1);
    AboveInDigit(a, t, j, b);
    Pow2Add(DIGIT_BITS - b - k, k);
    MulAssoc(h, Pow2(DIGIT_BITS - b - k), Pow2(k));
    ModOfSum(h * Pow2(DIGIT_BITS - b - k), a[j] / Pow2(b), Pow2(k));
  }

  lemma LowBits(a: Store, j: nat, t: nat, i: nat)
    requires j < t && Window(a, 0, t) && i < DIGIT_BITS
    ensures V(a, j, t - j) % Pow2(i + 1) == a[j] % Pow2(i + 1)
  {
    var h := V(a, j + 1, t - j - 1);
    Head(a, j, t - j);
    Pow2Add(DIGIT_BITS - i - 1, i + 1);
    Pow2Digit();
    MulAssoc(h, Pow2(DIGIT_BITS - i - 1), Pow2(i + 1));
    ModOfSum(h * Pow2(DIGIT_BITS - i - 1), a[j], Pow2(i + 1));
  }

  lemma AtTheEnd(a: Store, t: nat, i: nat)
    requires t > 0 && Window(a, 0, t) && i < DIGIT_BITS
    ensures V(a, 0, t) % Pow2(i + 1) == a[0] % Pow2(i + 1)
  {
    LowBits(a, 0, t, i);
  }

  lemma AcrossDigits(a: Store, t: nat, j: nat, i: nat, k: nat)
    requires 0 < j < t && Window(a, 0, t) && i < k - 1 && 0 < k <= 6
    ensures V(a, 0, t) >= 0
    ensures BitsFrom(V(a, 0, t), DIGIT_BITS * j + i, k)
      == a[j] % Pow2(i + 1) * Pow2(k - 1 - i) + a[j - 1] / Pow2(DIGIT_BITS + i - (k - 1))
  {
    var b, r := DIGIT_BITS + i - (k - 1), k - 1 - i;
    AboveInDigit(a, t, j - 1, b);
    LowBits(a, j, t, i);
    var v, low := V(a, j, t - j), a[j - 1] / Pow2(b);
    Pow2Add(b, r);
    Pow2Digit();
    DivBelow(a[j - 1], Pow2(b), Pow2(r));
    Pow2Add(i + 1, r);
    JoinMod(v, Pow2(i + 1), Pow2(r), low);
  }

  lemma JoinMod(v: int, p: nat, q: nat, low: int)
    requires p > 0 && q > 0 && 0 <= low < q
    ensures (v * q + low) % (p * q) == v % p * q + low
  {
    var x, y := v / p, v % p;
    assert v == x * p + y && 0 <= y < p;
    MulSplit(x, p, y, q);
    LowPart(y, p, q, low);
    ModAdd(x, y * q + low, p * q);
  }

  lemma LowPart(x: int, p: nat, q: nat, low: int)
    requires 0 <= x < p && 0 <= low < q
    ensures 0 <= x * q + low < p * q
  {
    MulMono(0, x, q);
    MulMono(x, p - 1, q);
  }

  /** The window moved to its lowest set bit: while((w&1) == 0) { w >>= 1; --n; } */
  method StripZeros(w0: nat, k: nat) returns (w: nat, n: nat)
    requires 0 < w0 < Pow2(k)
    ensures w % 2 == 1 && 0 < n <= k && w0 == w * Pow2(k - n) && w < Pow2(n)
  {
    w, n := w0, k;
    while w % 2 == 0
      invariant 0 <= n <= k && w > 0 && w0 == w * Pow2(k - n) && w < Pow2(n)
      decreases w
    {
      assert Pow2(k - n + 1) == 2 * Pow2(k - n);
      w, n := w / 2, n - 1;
      assert Pow2(n + 1) == 2 * Pow2(n);
    }
  }

  lemma {:induction false} OddFactor(w: nat, s: nat, y: nat, d: nat)
    requires w % 2 == 1 && w * Pow2(s) == y * Pow2(d)
    ensures d <= s
  {
    if d > s {
      var p := Pow2(d - s - 1);
      Twice(y, p);
      Pow2Add(d - s, s);
      MulAssoc(y, Pow2(d - s), Pow2(s));
      CancelFactor(w, y * (2 * p), Pow2(s));
    }
  }

  lemma Twice(x: int, p: int)
    ensures x * (2 * p) == 2 * (x * p)
  {
  }

  lemma DivMod(x: int, m: int)
    requires m > 0
    ensures x == x / m * m + x % m && 0 <= x % m < m
  {
  }

  lemma CancelFactor(x: int, y: int, p: int)
    requires p > 0 && x * p == y * p
    ensures x == y
  {
    if x < y { MulMono(x + 1, y, p); }
    if y < x { MulMono(y + 1, x, p); }
  }

  /** An odd quotient by 2^n leaves something below 2^(n+1). */
  lemma OddQuotient(x: nat, n: nat)
    requires x / Pow2(n) % 2 == 1
    ensures x % Pow2(n + 1) > 0
  {
    var p, y := Pow2(n), x / Pow2(n + 1);
    assert Pow2(n + 1) == 2 * p;
    if x % Pow2(n + 1) == 0 {
      MulAssoc(y, 2, p);
      DivIs(x, p, y * 2, 0);
    }
  }

  /** A set bit at the top of the window makes the window non-zero and in range. */
  lemma WindowNonzero(e: nat, p: nat, k: nat)
    requires k > 0 && Above(e, p) % 2 == 1
    ensures 0 < BitsFrom(e, p, k) < Pow2(k)
  {
    if p >= k - 1 {
      AboveAbove(e, p - k + 1, k - 1);
      OddQuotient(Above(e, p - k + 1), k - 1);
      DivMod(Above(e, p - k + 1), Pow2(k));
    } else {
      OddQuotient(e, p);
      DivMod(e, Pow2(p + 1));
      Pow2Add(p + 1, k - 1 - p);
      ScaledBelow(e % Pow2(p + 1), Pow2(p + 1), Pow2(k - 1 - p));
    }
  }

  lemma ScaledBelow(x: int, m: int, p: int)
    requires 0 < x < m && p > 0
    ensures 0 < x * p < m * p
  {
    MulMono(1, x, p);
    MulMono(x + 1, m, p);
  }

  /** The n window bits kept extend the prefix of e read so far. */
  lemma PrefixAfterWindow(e: nat, p: nat, k: nat, w: nat, n: nat)
    requires k > 0 && 0 < n <= k && w % 2 == 1 && BitsFrom(e, p, k) == w * Pow2(k - n)
    ensures n <= p + 1
    ensures Above(e, p + 1 - n) == Above(e, p + 1) * Pow2(n) + w
  {
    if p >= k - 1 {
      AboveAbove(e, p - k + 1, k);
      AboveAbove(e, p - k + 1, k - n);
      DropLow(Above(e, p - k + 1), k, w, n);
    } else {
      PrefixAtEnd(e, p, k, w, n);
    }
  }

  lemma DropLow(x: nat, k: nat, w: nat, n: nat)
    requires n <= k && x % Pow2(k) == w * Pow2(k - n)
    ensures x / Pow2(k - n) == x / Pow2(k) * Pow2(n) + w
  {
    var t, q := x / Pow2(k), Pow2(k - n);
    Pow2Add(n, k - n);
    DivMod(x, Pow2(k));
    MulSplit(t, Pow2(n), w, q);
    DivIs(x, q, t * Pow2(n) + w, 0);
  }

  lemma PrefixAtEnd(e: nat, p: nat, k: nat, w: nat, n: nat)
    requires p < k - 1 && 0 < n <= k && w % 2 == 1 && BitsFrom(e, p, k) == w * Pow2(k - n)
    ensures n <= p + 1
    ensures Above(e, p + 1 - n) == Above(e, p + 1) * Pow2(n) + w
  {
    var s, d, y := k - n, k - 1 - p, e % Pow2(p + 1);
    OddFactor(w, s, y, d);
    Pow2Add(s - d, d);
    MulAssoc(w, Pow2(s - d), Pow2(d));
    CancelFactor(w * Pow2(s - d), y, Pow2(d));
    assert s - d == p + 1 - n;
    DropLow(e, p + 1, w, n);
  }

  /** One more bit read. */
  lemma PrefixStep(e: nat, p: nat)
    ensures Above(e, p) == 2 * Above(e, p + 1) + Above(e, p) % 2
  {
    AboveAbove(e, p, 1);
    assert Pow2(1) == 2 * Pow2(0);
  }

  /** (e_array[j] & (1 << i)) != 0 */
  lemma TestBit(a: Store, t: nat, j: nat, i: nat)
    requires j < t && Window(a, 0, t) && i < DIGIT_BITS
    ensures V(a, 0, t) >= 0
    ensures Above(V(a, 0, t), DIGIT_BITS * j + i) % 2 == a[j] / Pow2(i) % 2
  {
    AboveInDigit(a, t, j, i);
    EvenPart(Above(V(a, 0, t), DIGIT_BITS * j + i), V(a, j + 1, t - j - 1), DIGIT_BITS - i, a[j] / Pow2(i));
  }

  lemma EvenPart(y: int, h: int, n: nat, x: int)
    requires n > 0 && y == h * Pow2(n) + x
    ensures y % 2 == x % 2
  {
    Twice(h, Pow2(n - 1));
  }

  lemma FourTimes(u: nat, n: nat)
    requires n > 1
    ensures 4 * u * Pow2(n - 2) == u * Pow2(n)
  {
    assert Pow2(n) == 2 * Pow2(n - 1) && Pow2(n - 1) == 2 * Pow2(n - 2);
  }

  method BitLength(e: BigInteger) returns (n: nat)
    requires e.Valid() && e.Clamped() && e.s == 0
    ensures e.t == 0 ==> n == 0
    ensures e.t > 0 ==> DIGIT_BITS * (e.t - 1) < n <= DIGIT_BITS * e.t
    ensures V(e.a, 0, e.t) >= 0 && (e.t > 0 ==> Above(V(e.a, 0, e.t), n - 1) == 1)
  {
    Bound(e.a, 0, e.t);
    if e.t <= 0 { return 0; }
    var b := NBits(e.a[e.t - 1]);
    AboveInDigit(e.a, e.t, e.t - 1, b - 1);
    assert Pow2(b) == 2 * Pow2(b - 1);
    DivIs(e.a[e.t - 1], Pow2(b - 1), 1, e.a[e.t - 1] - Pow2(b - 1));
    n := DIGIT_BITS * (e.t - 1) + b;
  }

  /** The window size that the source picks for an exponent of n bits. */
  function WindowSize(n: nat): (k: nat)
    ensures 0 < k <= 6
  {
    if n < 18 then 1 else if n < 48 then 3 else if n < 144 then 4 else if n < 768 then 5 else 6
  }

  method NextWindow(e: BigInteger, j: int, i: int, k: nat) returns (w: nat, n: nat)
    requires e.Valid() && 0 <= j < e.t && 0 <= i < DIGIT_BITS && 0 < k <= 6
    requires e.a[j] / Pow2(i) % 2 == 1
    ensures 0 < n <= k && n <= DIGIT_BITS * j + i + 1 && w % 2 == 1 && w < Pow2(k)
    ensures V(e.a, 0, e.t) >= 0
    ensures var p := DIGIT_BITS * j + i;
      Above(V(e.a, 0, e.t), p + 1 - n) == Above(V(e.a, 0, e.t), p + 1) * Pow2(n) + w
  {
    w := ReadWindow(e, j, i, k);
    TestBit(e.a, e.t, j, i);
    WindowNonzero(V(e.a, 0, e.t), DIGIT_BITS * j + i, k);
    w, n := StripZeros(w, k);
    PrefixAfterWindow(V(e.a, 0, e.t), DIGIT_BITS * j + i, k, w, n);
    Pow2Mono(n, k);
  }

  /** Answering 1 for the exponent 0 is right exactly when m is not 1. */
  lemma ZeroExponent(b: int, m: nat)
    requires m > 0
    ensures Exp(b, 0) % m == 1 <==> m != 1
  {
    if m > 1 { DivIs(1, m, 0, 1); }
  }
}
