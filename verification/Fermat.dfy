/** Primes, and what powers are modulo a prime: the arithmetic behind the RSA operations of crypto.js. */
module Fermat {
  import opened Digits
  import opened Modular
  import opened Divisors

  ghost predicate IsPrime(p: int) {
    p > 1 && forall d :: d > 0 && Divides(d, p) ==> d == 1 || d == p
  }

  /** Some combination of two numbers divides both. */
  lemma {:induction false} Bezout(a: nat, b: nat) returns (u: int, v: int)
    requires a > 0
    ensures var g := u * a + v * b; g > 0 && Divides(g, a) && Divides(g, b)
    decreases b
  {
    if b == 0 {
      u, v := 1, 0;
      DividesIntro(a, a, 1);
      DividesIntro(a, 0, 0);
    } else {
      var q, r := a / b, a % b;
      var s, t := Bezout(b, r);
      u, v := t, s - t * q;
      assert u * a + v * b == s * b + t * r by {
        assert a == q * b + r;
        assert t * a == t * (q * b) + t * r;
        assert (s - t * q) * b == s * b - t * q * b;
        assert t * (q * b) == t * q * b;
      }
      DividesCombination(s * b + t * r, b, r, q, 1);
    }
  }

  /** A prime that divides a product divides a factor. */
  lemma Euclid(p: int, a: nat, b: int)
    requires IsPrime(p) && Divides(p, a * b)
    ensures Divides(p, a) || Divides(p, b)
  {
    var u, v := Bezout(p, a);
    var g := u * p + v * a;
    if g == p {
    } else {
      assert g == 1;
      DividesIntro(p, p, 1);
      DividesCombination(p, p, a * b, u * b, v);
      assert u * b * p + v * (a * b) == b by {
        assert u * b * p == u * p * b;
        assert v * (a * b) == v * a * b;
        assert u * p * b + v * a * b == (u * p + v * a) * b;
      }
    }
  }

  /** How many subsets of k elements a set of n has. */
  ghost function Choose(n: nat, k: nat): nat {
    if k == 0 then 1 else if n == 0 then 0 else Choose(n - 1, k - 1) + Choose(n - 1, k)
  }

  lemma {:induction false} TooMany(n: nat, k: nat)
    requires k > n
    ensures Choose(n, k) == 0
  {
    if n > 0 {
      TooMany(n - 1, k - 1);
      TooMany(n - 1, k);
    }
  }

  lemma {:induction false} All(n: nat)
    ensures Choose(n, n) == 1
  {
    if n > 0 {
      All(n - 1);
      TooMany(n - 1, n);
    }
  }

  lemma Sums(k: int, n: int, a: int, b: int, c: int, d: int)
    requires a == c + d && k * b == (n - 1) * d && (k - 1) * a == (n - 1) * c
    ensures k * (a + b) == n * a
  {
    Distr(c, d, n - 1);
    Distr(k - 1, 1, a);
    Distr(n - 1, 1, a);
    Distr(a, b, k);
  }

  lemma {:induction false} Absorb(n: nat, k: nat)
    requires n > 0 && k > 0
    ensures k * Choose(n, k) == n * Choose(n - 1, k - 1)
  {
    var a, b := Choose(n - 1, k - 1), Choose(n - 1, k);
    if n == 1 {
      assert b == 0 && (k > 1 ==> a == 0);
    } else {
      Absorb(n - 1, k);
      if k > 1 { Absorb(n - 1, k - 1); }
      Sums(k, n, a, b, if k > 1 then Choose(n - 2, k - 2) else 0, Choose(n - 2, k - 1));
    }
  }

  lemma MiddleDivides(p: int, k: nat)
    requires IsPrime(p) && 0 < k < p
    ensures Divides(p, Choose(p, k))
  {
    Absorb(p, k);
    DividesIntro(p, k * Choose(p, k), Choose(p - 1, k - 1));
    Euclid(p, k, Choose(p, k));
    TooSmall(p, k);
  }

  lemma TooSmall(p: int, k: int)
    requires 0 < k < p
    ensures !Divides(p, k)
  {
    forall j ensures k != p * j {
      if j <= 0 { MulMono(j, 0, p); } else { MulMono(1, j, p); }
    }
  }

  /** The first terms of the binomial formula for (x + 1)^n. */
  ghost function Terms(n: nat, x: int, j: nat): int {
    Choose(n, j) * Exp(x, j) + if j == 0 then 0 else Terms(n, x, j - 1)
  }

  lemma TermSplit(c: int, d: int, x: int, e: int, t: int)
    ensures (c + d) * (x * e) + x * t == d * (x * e) + x * (c * e + t)
  {
    Distr(c, d, x * e);
    Distr(c * e, t, x);
    assert c * (x * e) == x * (c * e) by { Assoc(x, e, c); Assoc(c, x, e); }
  }

  lemma {:induction false} TermsStep(n: nat, x: int, j: nat)
    requires n > 0 && j > 0
    ensures Terms(n, x, j) == Terms(n - 1, x, j) + x * Terms(n - 1, x, j - 1)
  {
    var t := if j == 1 then 0 else Terms(n - 1, x, j - 2);
    if j > 1 { TermsStep(n, x, j - 1); }
    TermSplit(Choose(n - 1, j - 1), Choose(n - 1, j), x, Exp(x, j - 1), t);
  }

  lemma {:induction false} Binomial(n: nat, x: int)
    ensures Exp(x + 1, n) == Terms(n, x, n)
  {
    if n > 0 {
      Binomial(n - 1, x);
      TermsStep(n, x, n);
      TooMany(n - 1, n);
      assert Terms(n - 1, x, n) == Terms(n - 1, x, n - 1);
      assert (x + 1) * Terms(n - 1, x, n - 1) == x * Terms(n - 1, x, n - 1) + Terms(n - 1, x, n - 1);
    }
  }

  /** All terms but the first and the last are multiples of p. */
  lemma {:induction false} TermsVanish(p: int, x: int, j: nat)
    requires IsPrime(p) && j < p
    ensures Cong(Terms(p, x, j), 1, p)
  {
    if j == 0 {
      CongIntro(1, 1, p, 0);
    } else {
      TermsVanish(p, x, j - 1);
      MiddleDivides(p, j);
      var q :| Choose(p, j) == p * q;
      var k :| Terms(p, x, j - 1) == 1 + k * p;
      assert p * q * Exp(x, j) == q * Exp(x, j) * p;
      assert Terms(p, x, j) == 1 + (k + q * Exp(x, j)) * p by { Distr(k, q * Exp(x, j), p); }
      CongIntro(Terms(p, x, j), 1, p, k + q * Exp(x, j));
    }
  }

  /** Fermat's little theorem: x^p is x modulo a prime p. */
  lemma {:induction false} LittleTheorem(p: int, x: nat)
    requires IsPrime(p)
    ensures Cong(Exp(x, p), x, p)
  {
    if x == 0 {
      assert Exp(0, p) == 0 * Exp(0, p - 1);
      CongIntro(0, 0, p, 0);
    } else {
      LittleTheorem(p, x - 1);
      Binomial(p, x - 1);
      TermsVanish(p, x - 1, p - 1);
      All(p);
      var k :| Terms(p, x - 1, p - 1) == 1 + k * p;
      var l :| Exp(x - 1, p) == x - 1 + l * p;
      Distr(k, l, p);
      CongIntro(Exp(x, p), x, p, k + l);
    }
  }

  /** So is every power whose exponent is 1 modulo p - 1. */
  lemma {:induction false} Recurs(p: int, x: nat, k: nat)
    requires IsPrime(p)
    ensures Exponent(p, k) > 0 && Cong(Exp(x, Exponent(p, k)), x, p)
  {
    if k == 0 {
      assert Exp(x, 1) == x * Exp(x, 0);
      CongIntro(x, x, p, 0);
    } else {
      Recurs(p, x, k - 1);
      LittleTheorem(p, x);
      var e := Exponent(p, k - 1);
      assert Exponent(p, k) == e + (p - 1) by { Distr(k - 1, 1, p - 1); }
      ExpAdd(x, e - 1, p);
      CongIntro(Exp(x, e - 1), Exp(x, e - 1), p, 0);
      CongMul(Exp(x, e - 1), Exp(x, e - 1), Exp(x, p), x, p);
      assert Exp(x, e - 1) * x == Exp(x, e);
      CongTrans(Exp(x, e - 1 + p), Exp(x, e), x, p);
    }
  }

  ghost function Exponent(p: int, k: nat): int { 1 + k * (p - 1) }

  lemma {:induction false} ExpMul(x: int, m: nat, n: nat)
    ensures m * n >= 0 && Exp(Exp(x, m), n) == Exp(x, m * n)
  {
    if n > 0 {
      ExpMul(x, m, n - 1);
      assert m * n == m + m * (n - 1);
      ExpAdd(x, m, m * (n - 1));
    }
  }

  lemma {:induction false} ExpCong(x: int, y: int, n: nat, m: int)
    requires Cong(x, y, m)
    ensures Cong(Exp(x, n), Exp(y, n), m)
  {
    if n == 0 {
      CongIntro(1, 1, m, 0);
    } else {
      ExpCong(x, y, n - 1, m);
      CongMul(x, y, Exp(x, n - 1), Exp(y, n - 1), m);
    }
  }

  /** Raising to e and then to d gives x back modulo a prime, if e * d is 1 modulo p - 1. */
  lemma PowersUndo(p: int, x: nat, e: nat, d: nat)
    requires IsPrime(p) && Cong(e * d, 1, p - 1) && e * d > 0
    ensures Cong(Exp(Exp(x, e), d), x, p)
  {
    var k :| e * d == 1 + k * (p - 1);
    if k < 0 { MulMono(k, -1, p - 1); }
    Recurs(p, x, k);
    ExpMul(x, e, d);
  }

  /** What holds modulo two primes holds modulo their product. */
  lemma BothPrimes(x: int, y: int, p: int, q: int)
    requires IsPrime(p) && IsPrime(q) && p != q && Cong(x, y, p) && Cong(x, y, q)
    ensures Cong(x, y, p * q)
  {
    var k :| x == y + k * p;
    var l :| x == y + l * q;
    assert p * k == q * l;
    DividesIntro(q, p * k, l);
    Euclid(q, p, k);
    assert !Divides(q, p);
    var j :| k == q * j;
    assert k * p == j * (p * q) by { Assoc(q, j, p); assert q * j * p == j * (p * q); }
    CongIntro(x, y, p * q, j);
  }
}
