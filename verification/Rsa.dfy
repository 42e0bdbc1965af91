/**
  The RSA operations of jni/v8core/v8/benchmarks/crypto.js on number objects: `RSADoPublic`, by
  squaring and multiplying, and `RSADoPrivate`, which works modulo each of the two primes when the
  key has them. Each undoes the other.
*/
module RsaKeys {
  import opened Digits
  import opened BigIntegers
  import opened Modular
  import opened HeldNumbers
  import opened ExponentWindows
  import opened Exponentiation
  import opened Fermat
  import Montgomery
  import Reducers

  const MAX_EXPONENT := 0xffff_ffff

  /** The exponent's bits above place i, one place further down. */
  lemma NextBit(e: nat, i: nat)
    ensures Above(e, i) == 2 * Above(e, i + 1) + (if e / Pow2(i) % 2 == 1 then 1 else 0)
  {
    PrefixStep(e, i);
  }

  lemma TopBit(e: nat, n: nat)
    requires n > 0 && Pow2(n - 1) <= e < Pow2(n)
    ensures Above(e, n - 1) == 1
  {
    assert Pow2(n) == 2 * Pow2(n - 1);
    DivIs(e, Pow2(n - 1), 1, e - Pow2(n - 1));
  }

  /** A square, and a product if the bit at place i is set; else the buffers change places. */
  method RaiseStep(z: Engine, r0: BigInteger, s0: BigInteger, g: BigInteger, e: nat, i: nat, ghost m: int,
      ghost rep: Residues, ghost X: int) returns (r: BigInteger, r2: BigInteger)
    requires z.Does(m, rep) && Holds(rep, g, X) && Holds(rep, r0, Exp(X, Above(e, i + 1)))
    requires r0 != s0 && {r0, s0} !! z.Fixed() && {r0, s0} !! z.Scratch() && g !in {r0, s0} && g !in z.Scratch()
    modifies {r0, s0} + z.Scratch()
    ensures z.Does(m, rep) && (r, r2) in {(r0, s0), (s0, r0)} && Holds(rep, r, Exp(X, Above(e, i)))
  {
    r, r2 := r0, s0;
    ghost var u := Above(e, i + 1);
    SqrTo(z, r, r2, m, rep, Exp(X, u));
    ExpAdd(X, u, u);
    NextBit(e, i);
    if e / Pow2(i) % 2 == 1 {
      MulTo(z, r2, g, r, m, rep, Exp(X, 2 * u), X);
      OneMore(X, 2 * u);
    } else {
      r, r2 := r2, r;
    }
  }

  lemma OneMore(x: int, n: nat)
    ensures Exp(x, n) * x == Exp(x, n + 1)
  {
  }

  /** while(--i >= 0) ..., with the bits from place n on read already */
  method ReadBits(z: Engine, r0: BigInteger, s0: BigInteger, g: BigInteger, e: nat, n: nat, ghost m: int,
      ghost rep: Residues, ghost X: int) returns (r: BigInteger)
    requires z.Does(m, rep) && Holds(rep, g, X) && Holds(rep, r0, Exp(X, Above(e, n)))
    requires r0 != s0 && {r0, s0} !! z.Fixed() && {r0, s0} !! z.Scratch() && g !in {r0, s0} && g !in z.Scratch()
    modifies {r0, s0} + z.Scratch()
    ensures z.Does(m, rep) && Holds(rep, r, Exp(X, e))
  {
    var r2;
    r, r2 := r0, s0;
    var i := n;
    while i > 0
      invariant z.Does(m, rep) && (r, r2) in {(r0, s0), (s0, r0)}
      invariant Holds(rep, g, X) && Holds(rep, r, Exp(X, Above(e, i)))
    {
      i := i - 1;
      r, r2 := RaiseStep(z, r, r2, g, e, i, m, rep, X);
    }
    assert Pow2(0) == 1;
  }

  /** g.copyTo(r), for the highest bit, and then the others. */
  method ReadAll(z: Engine, r0: BigInteger, s0: BigInteger, g: BigInteger, e: int, ghost m: int, ghost rep: Residues,
      ghost X: int) returns (r: BigInteger)
    requires z.Does(m, rep) && Holds(rep, g, X) && 1 <= e <= MAX_EXPONENT
    requires r0 != s0 && {r0, s0} !! z.Fixed() && {r0, s0} !! z.Scratch() && g !in {r0, s0} && g !in z.Scratch()
    modifies {r0, s0} + z.Scratch()
    ensures z.Does(m, rep) && Holds(rep, r, Exp(X, e))
  {
    var bits := NBits(e);
    CopyPower(g, r0, m, rep, X);
    TopBit(e, bits);
    OneMore(X, 0);
    r := ReadBits(z, r0, s0, g, e, bits - 1, m, rep, X);
  }

  /** The power, for an exponent in range. */
  method Power(z: Engine, x: BigInteger, e: int, ghost m: int, ghost rep: Residues) returns (r: BigInteger)
    requires z.Does(m, rep) && x.Valid() && x.Clamped() && x !in z.Scratch() && 1 <= e <= MAX_EXPONENT
    modifies z.Scratch()
    ensures z.Does(m, rep) && Holds(rep, r, Exp(old(x.Value()), e))
  {
    ghost var X := x.Value();
    r := new BigInteger();
    var r2 := new BigInteger();
    var g := Convert(z, x, m, rep);
    r := ReadAll(z, r, r2, g, e, m, rep, X);
  }

  /** `bnpExp`: squares and products down the bits of e; 1 for an exponent out of range */
  method Raise(z: Engine, x: BigInteger, e: int, ghost m: int, ghost rep: Residues) returns (res: BigInteger)
    requires z.Does(m, rep) && x.Valid() && x.Clamped() && x !in z.Scratch()
    modifies z.Scratch()
    ensures res.Valid() && res.Clamped() && m > 0
    ensures res.Value() == if 1 <= e <= MAX_EXPONENT then Exp(old(x.Value()), e) % m else 1
  {
    if e > MAX_EXPONENT || e < 1 {
      assert Look(0);
      res := new BigInteger();
      var _ := res.FromInt(1);
    } else {
      ghost var X := x.Value();
      var r := Power(z, x, e, m, rep);
      res := Revert(z, r, m, rep, Exp(X, e));
    }
  }

  /** The reducer that `bnModPowInt` takes. */
  method Select(e: int, m: BigInteger) returns (z: Engine, ghost rep: Residues)
    requires m.Valid() && m.Clamped() && m.s == 0 && m.t > 0
    ensures z.Does(m.Value(), rep) && z.M() == m && fresh(z.Fixed() - {m}) && fresh(z.Scratch()) && m.Value() > 0
  {
    SignOfValue(m);
    Magnitude(m);
    if e < 256 || m.a[0] % 2 == 0 {
      z := Classic(m);
    } else {
      var montgomery := new Montgomery.Reducer(m);
      z := WithMontgomery(montgomery);
    }
    ghost var A := z.Abs();
    rep := imap c: int | true :: A.Convert(c);
  }

  /** What a positive number looks like. */
  lemma Positive(z: BigInteger, n: int)
    requires Is(z, n) && n > 0
    ensures z.Valid() && z.Clamped() && z.Value() == n && z.s == 0 && z.t > 0
    ensures n % 2 == z.a[0] % 2
  {
    assert Peek(0);
    SignOfValue(z);
    Magnitude(z);
    Parity(z);
  }

  /** `bnModPowInt` */
  method ModPowInt(x: BigInteger, e: int, m: BigInteger, ghost X: int, ghost M: int) returns (res: BigInteger)
    requires Is(x, X) && Is(m, M) && M > 0 && 1 <= e <= MAX_EXPONENT
    ensures Is(res, Exp(X, e) % M)
  {
    Positive(m, M);
    assert Peek(0);
    var z;
    ghost var rep;
    z, rep := Select(e, m);
    res := Raise(z, x, e, M, rep);
  }

  /** `bnModPow`, for an odd modulus */
  method ModPowOdd(x: BigInteger, e: BigInteger, m: BigInteger, ghost X: int, ghost E: int, ghost M: int)
      returns (res: BigInteger)
    requires Is(x, X) && Is(e, E) && Is(m, M) && M > 0 && M % 2 == 1 && E > 0
    ensures Is(res, Exp(X, E) % M)
  {
    Positive(m, M);
    Positive(e, E);
    assert Peek(0);
    res := ModPow(x, e, m);
  }

  /** `bnMod` */
  method Mod(x: BigInteger, m: BigInteger, ghost X: int, ghost M: int) returns (r: BigInteger)
    requires Is(x, X) && Is(m, M) && M > 0
    ensures fresh(r) && Is(r, X % M)
  {
    assert Peek(0);
    r := Reducers.Mod(x, m);
  }

  /** `bnAdd` */
  method Sum(x: BigInteger, y: BigInteger, ghost X: int, ghost Y: int) returns (r: BigInteger)
    requires Is(x, X) && Is(y, Y)
    ensures fresh(r) && Is(r, X + Y)
  {
    assert Peek(0);
    r := new BigInteger();
    x.AddTo(y, r);
  }

  /** `bnSubtract` */
  method Difference(x: BigInteger, y: BigInteger, ghost X: int, ghost Y: int) returns (r: BigInteger)
    requires Is(x, X) && Is(y, Y)
    ensures fresh(r) && Is(r, X - Y)
  {
    assert Peek(0);
    r := new BigInteger();
    x.SubTo(y, r);
  }

  /** `bnMultiply` */
  method Product(x: BigInteger, y: BigInteger, ghost X: int, ghost Y: int) returns (r: BigInteger)
    requires Is(x, X) && Is(y, Y)
    ensures fresh(r) && Is(r, X * Y)
  {
    assert Peek(0);
    r := new BigInteger();
    x.MultiplyTo(y, r);
  }

  /** Two different odd primes. */
  ghost predicate TwoPrimes(P: int, Q: int) {
    IsPrime(P) && IsPrime(Q) && P != Q && P % 2 == 1 && Q % 2 == 1
  }

  /** Raising to e and to d undo each other modulo p. */
  ghost predicate Inverses(e: int, d: int, p: int) {
    e > 0 && d > 0 && Cong(e * d, 1, p - 1)
  }

  /** y is x to the power d modulo p, where y is an e-th root of x then. */
  lemma RootModulo(x: nat, y: nat, e: nat, d: nat, p: int)
    requires IsPrime(p) && Inverses(e, d, p) && Cong(y, Exp(x, d), p)
    ensures Cong(Exp(y, e), x, p)
  {
    MulPositive(d, e);
    PowersUndo(p, x, d, e);
    ExpCong(y, Exp(x, d), e, p);
    CongTrans(Exp(y, e), Exp(Exp(x, d), e), x, p);
  }

  lemma MulPositive(a: nat, b: nat)
    requires a > 0 && b > 0
    ensures a * b == b * a > 0
  {
    MulMono(1, a, b);
  }

  /** Modulo p, there is no other root. */
  lemma OneModulo(s: nat, t: nat, e: nat, d: nat, p: int)
    requires IsPrime(p) && Inverses(e, d, p) && Cong(Exp(s, e), Exp(t, e), p)
    ensures Cong(s, t, p)
  {
    MulPositive(e, d);
    PowersUndo(p, s, e, d);
    PowersUndo(p, t, e, d);
    ExpCong(Exp(s, e), Exp(t, e), d, p);
    CongSym(Exp(Exp(s, e), d), s, p);
    CongTrans(s, Exp(Exp(s, e), d), Exp(Exp(t, e), d), p);
    CongTrans(s, Exp(Exp(t, e), d), t, p);
  }

  lemma CongFactor(x: int, y: int, p: int, q: int)
    requires Cong(x, y, p * q)
    ensures Cong(x, y, p) && Cong(x, y, q)
  {
    var k :| x == y + k * (p * q);
    assert k * (p * q) == k * q * p && k * (p * q) == k * p * q by { Assoc(k, q, p); Assoc(p, q, k); }
    CongIntro(x, y, p, k * q);
    CongIntro(x, y, q, k * p);
  }

  /** Below the modulus, a number has one e-th root at most. */
  lemma OneRoot(s: nat, t: nat, e: nat, dp: nat, dq: nat, P: int, Q: int)
    requires TwoPrimes(P, Q) && Inverses(e, dp, P) && Inverses(e, dq, Q)
    requires s < P * Q && t < P * Q && Cong(Exp(s, e), Exp(t, e), P * Q)
    ensures s == t
  {
    CongFactor(Exp(s, e), Exp(t, e), P, Q);
    OneModulo(s, t, e, dp, P);
    OneModulo(s, t, e, dq, Q);
    BothPrimes(s, t, P, Q);
    CongSame(s, t, P * Q);
    SmallResidue(s, P * Q);
    SmallResidue(t, P * Q);
  }

  /** The number put together from a residue modulo each prime. */
  lemma Joined(xp: int, a: int, xq: int, C: int, P: int, Q: int)
    requires P > 0 && 0 <= xq < Q && Cong(a, xp, P) && Cong(Q * C, 1, P)
    ensures var y := (a - xq) * C % P * Q + xq; 0 <= y < P * Q && Cong(y, xp, P) && Cong(y, xq, Q)
  {
    var w := (a - xq) * C % P;
    var y := w * Q + xq;
    MulMono(0, w, Q);
    MulMono(w + 1, P, Q);
    Distr(w, 1, Q);
    CongIntro(y, xq, Q, w);
    CongMod((a - xq) * C, P);
    CongIntro(Q, Q, P, 0);
    CongMul(w, (a - xq) * C, Q, Q, P);
    CongIntro(a - xq, a - xq, P, 0);
    CongMul(a - xq, a - xq, Q * C, 1, P);
    assert (a - xq) * (Q * C) == (a - xq) * C * Q by { Assoc(a - xq, C, Q); Assoc(Q, C, a - xq); }
    CongTrans(w * Q, (a - xq) * C * Q, a - xq, P);
    var k :| w * Q == a - xq + k * P;
    CongIntro(y, a, P, k);
    CongTrans(y, a, xp, P);
  }

  /** A residue of a power of a residue. */
  lemma PowerResidue(x: int, d: nat, p: int)
    requires p > 0
    ensures var y := Exp(x % p, d) % p; 0 <= y < p && Cong(y, Exp(x, d), p)
  {
    CongMod(x, p);
    ExpCong(x % p, x, d, p);
    CongMod(Exp(x % p, d), p);
    CongTrans(Exp(x % p, d) % p, Exp(x % p, d), Exp(x, d), p);
  }

  /** `RSAKey`, with both parts of a key: n is P * Q, and the private part has the primes or only d. */
  class RsaKey {
    var n: BigInteger
    var e: int
    var d: BigInteger
    var p: BigInteger?
    var q: BigInteger?
    var dmp1: BigInteger?
    var dmq1: BigInteger?
    var coeff: BigInteger?
    ghost var P: int
    ghost var Q: int
    ghost var DP: int
    ghost var DQ: int

    /** The exponent is the same modulo both primes, if they are not kept. */
    ghost predicate Whole()
      reads this, d
    {
      DP == DQ && Is(d, DP)
    }

    /** What is kept of the primes. */
    ghost predicate Split(p: BigInteger, q: BigInteger)
      reads this, p, q, dmp1, dmq1, coeff
    {
      && Is(p, P) && Is(q, Q) && dmp1 != null && dmq1 != null && coeff != null && Is(dmp1, DP) && Is(dmq1, DQ)
      && exists C :: Is(coeff, C) && Cong(Q * C, 1, P)
    }

    ghost predicate Valid()
      reads this, n, d, p, q, dmp1, dmq1, coeff
    {
      && Is(n, P * Q) && TwoPrimes(P, Q) && 1 <= e <= MAX_EXPONENT && Inverses(e, DP, P) && Inverses(e, DQ, Q)
      && (if p == null || q == null then Whole() else Split(p, q))
    }

    /** `RSASetPrivateEx`, or `RSASetPrivate` without the last five */
    constructor (n: BigInteger, e: int, d: BigInteger, p: BigInteger?, q: BigInteger?, dmp1: BigInteger?,
        dmq1: BigInteger?, coeff: BigInteger?, ghost P: int, ghost Q: int, ghost DP: int, ghost DQ: int)
      ensures this.n == n && this.e == e && this.d == d && this.p == p && this.q == q && this.dmp1 == dmp1 &&
        this.dmq1 == dmq1 && this.coeff == coeff
      ensures this.P == P && this.Q == Q && this.DP == DP && this.DQ == DQ
    {
      this.n, this.e, this.d, this.p, this.q := n, e, d, p, q;
      this.dmp1, this.dmq1, this.coeff := dmp1, dmq1, coeff;
      this.P, this.Q, this.DP, this.DQ := P, Q, DP, DQ;
    }

    lemma ModulusPositive()
      requires Valid()
      ensures P > 1 && Q > 1 && P * Q > 0 && P * Q % 2 == 1
    {
      MulPositive(P, Q);
      OddProduct(P, Q);
    }

    /** `RSADoPublic` */
    method DoPublic(x: BigInteger, ghost X: int) returns (r: BigInteger)
      requires Valid() && Is(x, X)
      ensures P * Q > 0 && Is(r, Exp(X, e) % (P * Q))
    {
      ModulusPositive();
      r := ModPowInt(x, e, n, X, P * Q);
    }

    /** `RSADoPrivate`: the e-th root of x, whether the key has its primes or not */
    method DoPrivate(x: BigInteger, ghost X: int) returns (r: BigInteger, ghost y: int)
      requires Valid() && Is(x, X) && X >= 0
      ensures Is(r, y) && 0 <= y < P * Q && Cong(Exp(y, e), X, P * Q)
    {
      ModulusPositive();
      if p == null || q == null {
        r := ModPowOdd(x, d, n, X, DP, P * Q);
        y := Exp(X, DP) % (P * Q);
        CongMod(Exp(X, DP), P * Q);
        CongFactor(y, Exp(X, DP), P, Q);
      } else {
        r, y := Combine(x, X);
      }
      RootModulo(X, y, e, DP, P);
      RootModulo(X, y, e, DQ, Q);
      BothPrimes(Exp(y, e), X, P, Q);
    }

    /** x.mod(this.p).modPow(this.dmp1, this.p), and the same for q */
    method Part(x: BigInteger, dm: BigInteger, m: BigInteger, ghost X: int, ghost D: int, ghost M: int)
        returns (r: BigInteger, ghost y: int)
      requires Is(x, X) && Is(dm, D) && Is(m, M) && M > 0 && M % 2 == 1 && D > 0
      ensures Is(r, y) && 0 <= y < M && Cong(y, Exp(X, D), M)
    {
      r := Mod(x, m, X, M);
      r := ModPowOdd(r, dm, m, X % M, D, M);
      y := Exp(X % M, D) % M;
      PowerResidue(X, D, M);
    }

    /** while(xp.compareTo(xq) < 0) xp = xp.add(this.p); */
    method RaiseAbove(x: BigInteger, xq: BigInteger, m: BigInteger, ghost A: int, ghost A2: int, ghost M: int)
        returns (xp: BigInteger, ghost a: int)
      requires Is(x, A) && Is(xq, A2) && Is(m, M) && A >= 0 && M > 0
      ensures Is(xp, a) && a >= A2 && Cong(a, A, M)
    {
      xp, a := x, A;
      CongIntro(a, A, M, 0);
      var order := Compare(xp, xq, a, A2);
      while order < 0
        invariant Is(xp, a) && a >= 0 && Cong(a, A, M) && Sign(order) == Sign(a - A2)
        decreases A2 - a
      {
        xp := Sum(xp, m, a, M);
        CongIntro(a + M, a, M, 1);
        CongTrans(a + M, a, A, M);
        a := a + M;
        order := Compare(xp, xq, a, A2);
      }
    }

    /** The power modulo each prime, and the number with both residues. */
    method Combine(x: BigInteger, ghost X: int) returns (r: BigInteger, ghost y: int)
      requires Valid() && Is(x, X) && p != null && q != null
      ensures Is(r, y) && 0 <= y < P * Q && Cong(y, Exp(X, DP), P) && Cong(y, Exp(X, DQ), Q)
    {
      var xp, xq;
      ghost var a, A, A2;
      xp, A := Part(x, dmp1, p, X, DP, P);
      xq, A2 := Part(x, dmq1, q, X, DQ, Q);
      xp, a := RaiseAbove(xp, xq, p, A, A2, P);
      r, y := Recombine(xp, xq, a, A, A2);
      CongTrans(y, A, Exp(X, DP), P);
      CongTrans(y, A2, Exp(X, DQ), Q);
    }

    /** xp.subtract(xq).multiply(this.coeff).mod(this.p).multiply(this.q).add(xq) */
    method Recombine(xp: BigInteger, xq: BigInteger, ghost a: int, ghost A: int, ghost A2: int)
        returns (r: BigInteger, ghost y: int)
      requires Valid() && Is(xp, a) && Is(xq, A2) && 0 <= A2 < Q && Cong(a, A, P) && p != null && q != null
      ensures Is(r, y) && 0 <= y < P * Q && Cong(y, A, P) && Cong(y, A2, Q)
    {
      ghost var C :| Is(coeff, C) && Cong(Q * C, 1, P);
      Joined(A, a, A2, C, P, Q);
      r := Difference(xp, xq, a, A2);
      r := Product(r, coeff, a - A2, C);
      r := Mod(r, p, (a - A2) * C, P);
      r := Product(r, q, (a - A2) * C % P, Q);
      r := Sum(r, xq, (a - A2) * C % P * Q, A2);
      y := (a - A2) * C % P * Q + A2;
    }
  }

  lemma OddProduct(x: int, y: int)
    requires x % 2 == 1 && y % 2 == 1
    ensures x * y % 2 == 1
  {
    var i, j := x / 2, y / 2;
    assert x * y == 2 * (i * y + j) + 1 by {
      Distr(2 * i, 1, y);
      Assoc(2, i, y);
    }
  }

  /** Decrypting what was encrypted gives every number below the modulus back. */
  method RoundTrip(key: RsaKey, x: BigInteger, ghost X: int) returns (r: BigInteger)
    requires key.Valid() && Is(x, X) && 0 <= X < key.P * key.Q
    ensures Is(r, X)
  {
    key.ModulusPositive();
    ghost var n, y := key.P * key.Q, 0;
    var c := key.DoPublic(x, X);
    r, y := key.DoPrivate(c, Exp(X, key.e) % n);
    CongMod(Exp(X, key.e), n);
    CongTrans(Exp(y, key.e), Exp(X, key.e) % n, Exp(X, key.e), n);
    OneRoot(y, X, key.e, key.DP, key.DQ, key.P, key.Q);
  }

  /** So does encrypting what was decrypted. */
  method RoundTripBack(key: RsaKey, x: BigInteger, ghost X: int) returns (r: BigInteger)
    requires key.Valid() && Is(x, X) && 0 <= X < key.P * key.Q
    ensures Is(r, X)
  {
    key.ModulusPositive();
    ghost var n := key.P * key.Q;
    var c;
    ghost var y;
    c, y := key.DoPrivate(x, X);
    r := key.DoPublic(c, y);
    CongSame(Exp(y, key.e), X, n);
    SmallResidue(X, n);
  }
}
