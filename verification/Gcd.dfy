/**
  `bnGCD` and `bnGetLowestSetBit` in jni/v8core/v8/benchmarks/crypto.js: the binary greatest common
  divisor, in place on copies of the two numbers.
*/
module GreatestDivisors {
  import opened Digits
  import opened BigIntegers
  import opened Divisors
  import opened HeldNumbers

  /** `getLowestSetBit` as a number: -1 when there is none. */
  function LowestSetBit(n: nat): (i: int)
    ensures i >= -1 && (i == -1 <==> n == 0)
    decreases n
  {
    if n == 0 then -1 else if n % 2 == 1 then 0 else 1 + LowestSetBit(n / 2)
  }

  function Abs(n: int): nat {
    if n < 0 then -n else n
  }

  /** The bit is k or above exactly when k bits are clear, and shifting them out moves it down. */
  lemma {:induction false} LowBits(n: nat, k: nat)
    requires n > 0
    ensures LowestSetBit(n) >= k <==> n % Pow2(k) == 0
    ensures n % Pow2(k) == 0 ==> n / Pow2(k) > 0 && LowestSetBit(n) == k + LowestSetBit(n / Pow2(k))
  {
    if k > 0 {
      var p, h := Pow2(k - 1), n / 2;
      assert Pow2(k) == 2 * p;
      assert h == h / p * p + h % p;
      assert h / p * (2 * p) == 2 * (h / p * p);
      if n % 2 == 0 {
        LowBits(h, k - 1);
        DivIs(n, 2 * p, h / p, 2 * (h % p));
      } else {
        DivIs(n, 2 * p, h / p, 2 * (h % p) + 1);
      }
    }
  }

  /** An odd number shifted up by j has its lowest bit at j. */
  lemma OddShifted(j: nat, q: nat)
    requires q % 2 == 1
    ensures q * Pow2(j) > 0 && LowestSetBit(q * Pow2(j)) == j
  {
    MulMono(1, q, Pow2(j));
    DivIs(q * Pow2(j), Pow2(j), q, 0);
    LowBits(q * Pow2(j), j);
  }

  /** if((x & (2^k - 1)) == 0) { x >>= k; r += k; } */
  method LBitStep(r0: nat, y0: nat, ghost x: nat, k: nat) returns (r: nat, y: nat)
    requires x > 0 && y0 > 0 && LowestSetBit(x) == r0 + LowestSetBit(y0) && LowestSetBit(y0) < 2 * k
    ensures y > 0 && LowestSetBit(x) == r + LowestSetBit(y) && LowestSetBit(y) < k
  {
    LowBits(y0, k);
    r, y := r0, y0;
    if y0 % Pow2(k) == 0 {
      y := y0 / Pow2(k);
      r := r + k;
    }
  }

  /** `lbit` */
  method LBit(x: nat) returns (r: int)
    requires x < B
    ensures r == LowestSetBit(x)
  {
    if x == 0 { return -1; }
    LowBits(x, 32);
    Pow2Digit();
    Pow2Mono(28, 32);
    var i, y := LBitStep(0, x, x, 16);
    i, y := LBitStep(i, y, x, 8);
    i, y := LBitStep(i, y, x, 4);
    i, y := LBitStep(i, y, x, 2);
    if y % 2 == 0 { i := i + 1; }
    r := i;
  }

  /** A digit is an odd number shifted up by less than the width of a digit. */
  lemma DigitBit(d: int) returns (l: nat, q: nat)
    requires 0 < d < B
    ensures l == LowestSetBit(d) < DIGIT_BITS && q % 2 == 1 && d == q * Pow2(l)
  {
    l := LowestSetBit(d);
    LowBits(d, l);
    LowBits(d, DIGIT_BITS);
    Pow2Digit();
    q := d / Pow2(l);
    assert LowestSetBit(q) == 0;
  }

  /** Adding multiples of the base does not change that. */
  lemma NumberBit(d: int, h: int) returns (l: nat, z: int)
    requires 0 < d < B
    ensures l == LowestSetBit(d) && z % 2 == 1 && z * Pow2(l) == d + B * h
  {
    var q;
    l, q := DigitBit(d);
    var e := Pow2(DIGIT_BITS - l - 1);
    assert Pow2(DIGIT_BITS - l) == 2 * e;
    CutDigit(l);
    assert Pow2(l) * (2 * e) == B;
    z := q + 2 * e * h;
    OddSum(q, e, h);
    Scaled(q, 2 * e, h, Pow2(l), d);
  }

  /** The digit of lowest weight that is not zero decides. */
  lemma LowDigit(d: int, h: int, i: nat)
    requires 0 < d < B
    ensures LowestSetBit(Abs(Sh(d + B * h, i))) == i * DIGIT_BITS + LowestSetBit(d)
  {
    var l, z := NumberBit(d, h);
    ShPow(d + B * h, i);
    PowPow2(i);
    Pow2Add(l, DIGIT_BITS * i);
    ShiftedBit(z, l, DIGIT_BITS * i);
  }

  lemma ShiftedBit(z: int, l: nat, w: nat)
    requires z % 2 == 1
    ensures LowestSetBit(Abs(z * Pow2(l) * Pow2(w))) == l + w
  {
    Pow2Add(l, w);
    Assoc(z, Pow2(l), Pow2(w));
    var n := z * Pow2(l + w);
    assert z * Pow2(l) * Pow2(w) == n;
    OddBit(z, l + w, n);
  }

  lemma OddBit(z: int, j: nat, n: int)
    requires z % 2 == 1 && n == z * Pow2(j)
    ensures LowestSetBit(Abs(n)) == j
  {
    Negated(z, Pow2(j));
    OddAbs(z);
    OddShifted(j, Abs(z));
  }

  lemma OddAbs(z: int)
    requires z % 2 == 1
    ensures Abs(z) % 2 == 1
  {
  }

  lemma OddSum(q: int, e: int, h: int)
    requires q % 2 == 1
    ensures (q + 2 * e * h) % 2 == 1
  {
    assert 2 * e * h == 2 * (e * h);
  }

  lemma Scaled(q: int, e: int, h: int, p: int, d: int)
    requires p * e == B && d == q * p
    ensures (q + e * h) * p == d + B * h
  {
    assert (q + e * h) * p == q * p + e * h * p;
    assert e * h * p == p * e * h;
  }

  lemma Assoc(x: int, y: int, z: int)
    ensures x * y * z == x * (y * z)
  {
  }

  lemma Negated(z: int, p: nat)
    ensures Abs(z) * p == Abs(z * p)
  {
    MulMono(0, Abs(z), p);
    assert -z * p == -(z * p);
  }

  /** With i digits zero, what the number is. */
  lemma AboveZeros(a: Store, t: nat, s: int, i: nat) returns (h: int)
    requires i < t && forall k :: 0 <= k < i ==> At(a, k) == 0
    ensures V(a, 0, t) + Sh(s, t) == Sh(At(a, i) + B * h, i)
  {
    var n := t - i;
    Zero(a, 0, i);
    Split(a, 0, i, n);
    Head(a, i, n);
    h := V(a, i + 1, n - 1) + Sh(s, n - 1);
    ShAdd(V(a, i, n), Sh(s, n), i);
    ShAddExp(s, n, i);
    assert Sh(s, n) == B * Sh(s, n - 1);
  }

  /** `getLowestSetBit` */
  method GetLowestSetBit(z: BigInteger, ghost n: int) returns (r: int)
    requires Is(z, n)
    ensures r == LowestSetBit(Abs(n))
  {
    assert Peek(0);
    var i := 0;
    while i < z.t
      invariant 0 <= i <= z.t && forall k :: 0 <= k < i ==> z.a[k] == 0
    {
      if z.a[i] != 0 {
        ghost var h := AboveZeros(z.a, z.t, z.s, i);
        LowDigit(z.a[i], h, i);
        var l := LBit(z.a[i]);
        return i * DIGIT_BITS + l;
      }
      i := i + 1;
    }
    Zero(z.a, 0, z.t);
    ShOne(z.t);
    if z.s < 0 {
      PowPow2(z.t);
      OddShifted(DIGIT_BITS * z.t, 1);
      return z.t * DIGIT_BITS;
    }
    return -1;
  }

  /** All factors of two shifted out of x, next to an odd y. */
  lemma {:induction false} StripKeeps(k: int, x: nat, y: int, i: nat)
    requires x > 0 && i == LowestSetBit(x) && (x % 2 == 1 || y % 2 == 1)
    ensures x / Pow2(i) > 0 && x / Pow2(i) % 2 == 1
    ensures SameDivisors(k * x, k * y, k * (x / Pow2(i)), k * y)
    decreases x
  {
    if i > 0 {
      StripKeeps(k, x / 2, y, i - 1);
      HalveKeeps(k, x / 2, y);
      assert x / 2 / Pow2(i - 1) == x / Pow2(i) by { HalfQuotient(x, i); }
      ChainDivisors(k * x, k * y, k * (x / 2), k * y, k * (x / Pow2(i)), k * y);
    }
  }

  lemma HalfQuotient(x: nat, i: nat)
    requires i > 0 && x % 2 == 0
    ensures x / 2 / Pow2(i - 1) == x / Pow2(i)
  {
    var p, h := Pow2(i - 1), x / 2;
    assert h == h / p * p + h % p;
    assert h / p * (2 * p) == 2 * (h / p * p);
    DivIs(x, 2 * p, h / p, 2 * (h % p));
  }

  /** Dividing by the smaller power of two is exact, and leaves one number odd. */
  lemma {:induction false} CommonTwos(x: nat, y: nat, g: nat)
    requires x > 0 && y > 0
    requires g == if LowestSetBit(x) < LowestSetBit(y) then LowestSetBit(x) else LowestSetBit(y)
    ensures x == Pow2(g) * (x / Pow2(g)) && y == Pow2(g) * (y / Pow2(g))
    ensures x / Pow2(g) >= 0 && y / Pow2(g) > 0
    ensures x / Pow2(g) % 2 == 1 || y / Pow2(g) % 2 == 1
  {
    if g > 0 {
      CommonTwos(x / 2, y / 2, g - 1);
      HalfQuotient(x, g);
      HalfQuotient(y, g);
      DoubleExact(x, Pow2(g - 1), x / Pow2(g));
      DoubleExact(y, Pow2(g - 1), y / Pow2(g));
    }
  }

  lemma DoubleExact(x: int, p: int, q: int)
    requires x % 2 == 0 && x / 2 == p * q
    ensures x == 2 * p * q
  {
    assert 2 * (p * q) == 2 * p * q;
  }

  lemma HalfDifference(k: int, x: int, y: int, u: int, v: int)
    requires x % 2 == 1 && y % 2 == 1 && SameDivisors(k * x, k * y, u, v)
    ensures SameDivisors(k * ((x - y) / 2), k * y, u, v)
  {
    var d, h := x - y, (x - y) / 2;
    assert d == 2 * h;
    SubtractKeeps(k, x, y);
    HalveKeeps(k, h, y);
    assert k * (2 * h) == k * (x - y);
    ThreeLinks(k * h, k * y, k * (x - y), k * x, u, v);
  }

  lemma Shrinks(x: nat, p: nat)
    requires p > 0
    ensures x / p <= x
  {
    var q := x / p;
    assert x == q * p + x % p;
    MulMono(1, p, q);
  }

  lemma ThreeLinks(h: int, y: int, diff: int, x: int, u: int, v: int)
    requires SameDivisors(diff, y, h, y) && SameDivisors(x, y, diff, y) && SameDivisors(x, y, u, v)
    ensures SameDivisors(h, y, u, v)
  {
    forall d ensures Common(d, h, y) <==> Common(d, u, v) {
      assert Common(d, diff, y) <==> Common(d, h, y);
      assert Common(d, x, y) <==> Common(d, diff, y);
      assert Common(d, x, y) <==> Common(d, u, v);
    }
  }

  lemma SelfGcd(x: nat, x0: nat, y0: nat)
    requires (x == x0 && y0 == 0) || (x == y0 && x0 == 0)
    ensures IsGcd(x, x0, y0)
  {
    DividesIntro(x, x, 1);
    DividesIntro(x, 0, 0);
  }

  lemma GcdSymmetric(r: int, x: int, y: int)
    requires IsGcd(r, x, y)
    ensures IsGcd(r, y, x)
  {
    forall d | Common(d, y, x) ensures Divides(d, r) {
      assert Common(d, x, y);
    }
  }

  lemma DividesAbs(d: int, x: int)
    ensures Divides(d, x) <==> Divides(d, Abs(x))
  {
    if Divides(d, x) { DividesCombination(d, x, x, -1, 0); }
    if Divides(d, Abs(x)) { DividesCombination(d, Abs(x), Abs(x), -1, 0); }
  }

  lemma GcdOfAbs(g: int, x: int, y: int)
    ensures IsGcd(g, Abs(x), Abs(y)) ==> IsGcd(g, x, y)
  {
    forall d ensures Common(d, x, y) <==> Common(d, Abs(x), Abs(y)) {
      DividesAbs(d, x);
      DividesAbs(d, y);
    }
  }

  /** this.s < 0 ? this.negate() : this.clone() */
  method AbsoluteCopy(z: BigInteger, ghost n: int) returns (r: BigInteger)
    requires Is(z, n)
    ensures fresh(r) && Is(r, Abs(n))
  {
    assert Peek(0);
    SignOfValue(z);
    if z.s < 0 {
      r := new BigInteger();
      z.NegateTo(r);
    } else {
      r := Clone(z, n);
    }
  }

  /** z.rShiftTo(i, z) */
  method ShiftDownBy(z: BigInteger, i: nat, ghost n: int)
    requires Is(z, n)
    modifies z
    ensures Is(z, n / Pow2(i))
  {
    assert Peek(0);
    z.RShiftTo(i, z);
  }

  /** z.lShiftTo(i, z) */
  method ShiftUpBy(z: BigInteger, i: nat, ghost n: int)
    requires Is(z, n)
    modifies z
    ensures Is(z, n * Pow2(i))
  {
    assert Peek(0);
    z.LShiftTo(i, z);
  }

  /** if((i = x.getLowestSetBit()) > 0) x.rShiftTo(i, x); next to a number l, k times both. */
  method StripTwos(z: BigInteger, ghost n: nat, ghost l: nat, ghost k: int) returns (ghost n': nat)
    requires Is(z, n) && n > 0 && (n % 2 == 1 || l % 2 == 1)
    modifies z
    ensures Is(z, n') && 0 < n' <= n && n' % 2 == 1 && SameDivisors(k * n, k * l, k * n', k * l)
  {
    n' := n;
    var i := GetLowestSetBit(z, n);
    if i > 0 {
      StripKeeps(k, n, l, i);
      Shrinks(n, Pow2(i));
      ShiftDownBy(z, i, n);
      n' := n / Pow2(i);
    }
  }

  /** x.subTo(y, x); x.rShiftTo(1, x); */
  method SubtractHalve(x: BigInteger, y: BigInteger, ghost n: int, ghost l: int)
    requires Is(x, n) && Is(y, l) && x != y
    modifies x
    ensures Is(x, (n - l) / 2)
  {
    Subtract(x, y, n, l);
    Halve(x, n - l);
  }

  /** The two numbers, k times, have the common divisors of X and Y. */
  ghost predicate Working(n: int, l: int, k: int, X: int, Y: int) {
    n >= 0 && l > 0 && (n % 2 == 1 || l % 2 == 1) && SameDivisors(k * n, k * l, X, Y)
  }

  /** Both numbers stripped. */
  lemma BothStripped(n: int, l: int, n1: int, l1: int, k: int, X: int, Y: int)
    requires SameDivisors(k * n, k * l, k * n1, k * l) && SameDivisors(k * l, k * n1, k * l1, k * n1)
    requires SameDivisors(k * n, k * l, X, Y)
    ensures SameDivisors(k * n1, k * l1, X, Y)
  {
    var x, y, x1, y1 := k * n, k * l, k * n1, k * l1;
    forall d ensures Common(d, x1, y1) <==> Common(d, X, Y) {
      assert Common(d, x, y) <==> Common(d, x1, y);
      assert Common(d, y, x1) <==> Common(d, y1, x1);
      assert Common(d, x, y) <==> Common(d, X, Y);
    }
  }

  /** One round of the loop. */
  method Round(x: BigInteger, y: BigInteger, ghost n: int, ghost l: int, ghost k: int, ghost X: int, ghost Y: int)
    returns (ghost n': int, ghost l': int)
    requires Is(x, n) && Is(y, l) && x != y && n > 0 && Working(n, l, k, X, Y)
    modifies x, y
    ensures Is(x, n') && Is(y, l') && Working(n', l', k, X, Y) && n' + l' < n + l
  {
    ghost var n1 := StripTwos(x, n, l, k);
    ghost var l1 := StripTwos(y, l, n1, k);
    BothStripped(n, l, n1, l1, k, X, Y);
    var order := Compare(x, y, n1, l1);
    if order >= 0 {
      HalfDifference(k, n1, l1, X, Y);
      SubtractHalve(x, y, n1, l1);
      n', l' := (n1 - l1) / 2, l1;
    } else {
      SwapDivisors(k * n1, k * l1, X, Y);
      HalfDifference(k, l1, n1, Y, X);
      SubtractHalve(y, x, l1, n1);
      n', l' := n1, (l1 - n1) / 2;
      SwapDivisors(k * l', k * n', Y, X);
    }
  }

  /** while(x.signum() > 0) ...: what is left in y is the greatest common divisor, over k. */
  method Rounds(x: BigInteger, y: BigInteger, ghost n0: int, ghost l0: int, ghost k: int, ghost X: int, ghost Y: int)
    returns (ghost l: int)
    requires Is(x, n0) && Is(y, l0) && x != y && k > 0 && Working(n0, l0, k, X, Y)
    modifies x, y
    ensures Is(y, l) && IsGcd(k * l, X, Y)
  {
    ghost var n;
    n, l := n0, l0;
    var sign := Signum(x, n);
    while sign > 0
      invariant Is(x, n) && Is(y, l) && Working(n, l, k, X, Y) && sign == Sign(n)
      decreases n + l
    {
      n, l := Round(x, y, n, l, k, X, Y);
      sign := Signum(x, n);
    }
    MulMono(0, l, k);
    assert k * n == 0;
    SwapSides(0, k * l, X, Y);
    GcdOfZero(k * l, X, Y);
  }

  lemma SwapSides(x: int, y: int, u: int, v: int)
    requires SameDivisors(x, y, u, v)
    ensures SameDivisors(u, v, x, y)
  {
    forall d ensures Common(d, u, v) <==> Common(d, x, y) {
      assert Common(d, x, y) <==> Common(d, u, v);
    }
  }

  /** The part of `bnGCD` for two numbers that are not zero. */
  method Reduced(x: BigInteger, y: BigInteger, i: int, j: int, ghost X: nat, ghost Y: nat) returns (ghost r: int)
    requires Is(x, X) && Is(y, Y) && x != y && X > 0 && Y > 0 && i == LowestSetBit(X) && j == LowestSetBit(Y)
    modifies x, y
    ensures Is(y, r) && IsGcd(r, X, Y)
  {
    var g := j;
    if i < g { g := i; }
    CommonTwos(X, Y, g);
    ghost var n, l, k := X / Pow2(g), Y / Pow2(g), Pow2(g);
    if g > 0 {
      ShiftDownBy(x, g, X);
      ShiftDownBy(y, g, Y);
    }
    l := Rounds(x, y, n, l, k, X, Y);
    if g > 0 { ShiftUpBy(y, g, l); }
    r := k * l;
  }

  method GcdOf(z: BigInteger, a: BigInteger, ghost X: int, ghost Y: int) returns (r: BigInteger, ghost g: int)
    requires Is(z, X) && Is(a, Y)
    ensures fresh(r) && Is(r, g) && IsGcd(g, X, Y)
  {
    var x := AbsoluteCopy(z, X);
    var y := AbsoluteCopy(a, Y);
    ghost var n, l := Abs(X), Abs(Y);
    var order := Compare(x, y, n, l);
    if order < 0 {
      x, y := y, x;
      n, l := l, n;
    }
    var i := GetLowestSetBit(x, n);
    var j := GetLowestSetBit(y, l);
    if j < 0 {
      SelfGcd(n, Abs(X), Abs(Y));
      GcdOfAbs(n, X, Y);
      return x, n;
    }
    g := Reduced(x, y, i, j, n, l);
    r := y;
    if order < 0 { GcdSymmetric(g, n, l); }
    GcdOfAbs(g, X, Y);
  }

  /** `bnGCD`: the greatest common divisor, whatever the signs. */
  method Gcd(z: BigInteger, a: BigInteger) returns (r: BigInteger)
    requires z.Valid() && z.Clamped() && a.Valid() && a.Clamped()
    ensures fresh(r) && r.Valid() && r.Clamped() && IsGcd(r.Value(), z.Value(), a.Value())
  {
    ghost var X, Y := z.Value(), a.Value();
    ghost var g;
    r, g := GcdOf(z, a, X, Y);
    assert Peek(0);
  }
}
