/**
  The reducers of crypto.js on digit objects: conversion into and out of each representation,
  and the proof that each is what exponentiation takes a reducer to be.
*/
module Reducers {
  import opened Digits
  import opened BigIntegers
  import opened Modular
  import Division
  import Montgomery
  import Barrett
  import ExponentWindows

  /** `bnMod`: the remainder that is never negative, for m > 0. */
  method Mod(x: BigInteger, m: BigInteger) returns (r: BigInteger)
    requires x.Valid() && x.Clamped() && m.Valid() && m.Clamped() && m.Value() > 0
    ensures fresh(r) && r.Valid() && r.Clamped() && r.Value() == x.Value() % m.Value()
  {
    ghost var X, M := x.Value(), m.Value();
    SignOfValue(x);
    var u := x.Abs();
    SignOfValue(u);
    r := new BigInteger();
    Division.DivRemTo(u, m, null, r);
    SignOfValue(r);
    SignedResidue(X, M);
    var zero := new BigInteger();
    var c := r.CompareTo(zero);
    if x.s < 0 && c > 0 {
      m.SubTo(r, r);
    }
  }

  lemma SignedResidue(x: int, m: int)
    requires m > 0
    ensures var r := Division.Rem(Division.AbsOf(x), m);
      0 <= r < m && x % m == if x < 0 && r > 0 then m - r else r
  {
    var u := Division.AbsOf(x);
    ExponentWindows.DivMod(u, m);
    var q, r := u / m, u % m;
    if x < 0 {
      if r > 0 {
        assert x == (-q - 1) * m + (m - r);
        DivIs(x, m, -q - 1, m - r);
      } else {
        assert x == -q * m + 0;
        DivIs(x, m, -q, 0);
      }
    }
  }

  /** `cReduce`: x = x mod m in place, for x >= 0. */
  method ClassicReduce(x: BigInteger, m: BigInteger)
    requires x.Valid() && x.Clamped() && x.s == 0 && m.Valid() && m.Clamped() && m.Value() > 0 && x != m
    modifies x
    ensures x.Valid() && x.Clamped() && x.Value() == old(x.Value()) % m.Value()
  {
    SignOfValue(x);
    Division.DivRemTo(x, m, null, x);
  }

  /** `montConvert`: x * R mod m. */
  method MontgomeryConvert(z: Montgomery.Reducer, x: BigInteger) returns (r: BigInteger)
    requires z.Ready() && x.Valid() && x.Clamped()
    ensures fresh(r) && r.Valid() && r.Clamped()
    ensures z.m.Value() > 0 && r.Value() == x.Value() * Pow(z.m.t) % z.m.Value()
  {
    ghost var X, M, P := x.Value(), z.m.Value(), Pow(z.m.t);
    SignOfValue(z.m);
    Magnitude(z.m);
    SignOfValue(x);
    var u := x.Abs();
    SignOfValue(u);
    r := new BigInteger();
    u.DlShiftTo(z.m.t, r);
    if u.t == 0 { r.Clamp(); }
    ScaledSign(X, P);
    SignOfValue(r);
    Division.DivRemTo(r, z.m, null, r);
    SignOfValue(r);
    SignedResidue(X * P, M);
    var zero := new BigInteger();
    var c := r.CompareTo(zero);
    if x.s < 0 && c > 0 {
      z.m.SubTo(r, r);
    }
  }

  lemma ScaledSign(x: int, p: int)
    requires p > 0
    ensures Division.AbsOf(x) * p == Division.AbsOf(x * p) && (x < 0 <==> x * p < 0)
  {
    if x < 0 { MulMono(x, -1, p); } else { MulMono(0, x, p); }
  }

  /** What a Montgomery reduction of a product leaves is the reducer's product. */
  lemma MontgomeryIsReducer(r: int, u: int, v: int, m: nat, n: nat)
    requires m % 2 == 1 && Montgomery.IsMontgomery(r, u * v, m, n)
    ensures r == ExponentWindows.Reducer(m, Pow2(DIGIT_BITS * n), HalfPow(m, DIGIT_BITS * n)).Mul(u, v)
  {
    var q :| r * Pow(n) == u * v + q * m;
    var h := HalfPow(m, DIGIT_BITS * n);
    PowPow2(n);
    HalfPowInverts(m, DIGIT_BITS * n);
    CongIntro(r * Pow(n), u * v, m, q);
    CongIntro(h, h, m, 0);
    CongMul(r * Pow(n), u * v, h, h, m);
    MulAssoc(r, Pow(n), h);
    CongIntro(r, r, m, 0);
    CongMul(r, r, Pow(n) * h, 1, m);
    CongSym(r * (Pow(n) * h), r, m);
    CongTrans(r, r * (Pow(n) * h), u * v * h, m);
    CongSame(r, u * v * h, m);
    DivIs(r, m, 0, r);
  }

  /** x = x / R mod m for a product x of the Montgomery reducer's numbers, or one of them alone. */
  method MontgomeryProduct(z: Montgomery.Reducer, r: BigInteger, ghost u: int, ghost v: int)
    requires z.Ready() && r != z.m && r.Valid() && r.Clamped() && r.Value() == u * v &&
      0 <= u * v < z.m.Value() * Pow(z.m.t)
    modifies r
    ensures r.Valid() && r.Clamped() && 0 <= r.Value() < z.m.Value()
    ensures r.Value()
      == ExponentWindows.Reducer(z.m.Value(), Pow2(DIGIT_BITS * z.m.t),
        HalfPow(z.m.Value(), DIGIT_BITS * z.m.t)).Mul(u, v)
  {
    SignOfValue(z.m);
    Magnitude(z.m);
    OddValue(z.m);
    z.Reduce(r);
    MontgomeryIsReducer(r.Value(), u, v, z.m.Value(), z.m.t);
  }

  /** The product of two residues fits. */
  lemma ProductFits(u: int, v: int, m: int, p: int)
    requires 0 <= u < m && 0 <= v < m <= p
    ensures 0 <= u * v < m * p && u * v <= (m - 1) * (m - 1)
  {
    MulBounds(u, v, m - 1, m - 1);
    MulMono(m - 1, p, m - 1);
    assert (m - 1) * p < m * p;
    assert (m - 1) * (m - 1) <= p * (m - 1);
  }

  lemma OddValue(m: BigInteger)
    requires m.Valid() && m.s == 0 && m.t > 0
    ensures m.Value() % 2 == m.a[0] % 2
  {
    SignOfValue(m);
    Head(m.a, 0, m.t);
    EvenRest(m.a[0], V(m.a, 1, m.t - 1));
  }

  lemma EvenRest(d: int, h: int)
    ensures (d + B * h) % 2 == d % 2
  {
  }

  /** x = x mod m for a product x of residues. */
  method BarrettProduct(z: Barrett.Reducer, r: BigInteger, ghost u: int, ghost v: int)
    requires z.Ready() && r != z.m && r != z.mu && r != z.r2 && r != z.q3 && z.m.t + 3 <= B && r.Valid() && r.Clamped()
    requires 0 <= u < z.m.Value() && 0 <= v < z.m.Value() && r.Value() == u * v
    modifies r, z.r2, z.q3
    ensures r.Valid() && r.Clamped() && z.m.Value() > 0 && r.Value() == u * v % z.m.Value()
  {
    SignOfValue(z.m);
    Magnitude(z.m);
    ProductFits(u, v, z.m.Value(), Pow(z.m.t));
    ProductDigits(r, z.m.Value(), z.m.t);
    z.Reduce(r);
  }

  lemma ProductDigits(r: BigInteger, m: int, n: nat)
    requires r.Valid() && r.Clamped() && 0 <= r.Value() <= (m - 1) * (m - 1) && 0 < m < Pow(n)
    ensures r.s == 0 && r.t <= 2 * n
  {
    SignOfValue(r);
    Magnitude(r);
    PowAdd(n, n);
    BelowSquare(r.Value(), m, Pow(n));
    if r.t > 2 * n { PowMono(2 * n, r.t - 1); }
  }

  lemma BelowSquare(x: int, m: int, p: int)
    requires 0 <= x <= (m - 1) * (m - 1) && 0 < m < p
    ensures x < p * p
  {
    MulMono(m - 1, p, m - 1);
    MulMono(m - 1, p - 1, p);
    assert (p - 1) * p < p * p;
  }
}
