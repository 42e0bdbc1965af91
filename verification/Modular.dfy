/** Residues and powers, for the number-theoretic half of crypto.js. */
module Modular {
  import opened Digits

  ghost function Exp(b: int, e: nat): int {
    if e == 0 then 1 else b * Exp(b, e - 1)
  }

  lemma {:induction false} ExpAdd(b: int, m: nat, n: nat)
    ensures Exp(b, m + n) == Exp(b, m) * Exp(b, n)
  {
    if m > 0 {
      ExpAdd(b, m - 1, n);
      assert b * (Exp(b, m - 1) * Exp(b, n)) == b * Exp(b, m - 1) * Exp(b, n);
    }
  }

  /** x and y differ by a multiple of m. */
  ghost predicate Cong(x: int, y: int, m: int) {
    exists k {:trigger k * m} :: x == y + k * m
  }

  lemma CongIntro(x: int, y: int, m: int, k: int)
    requires x == y + k * m
    ensures Cong(x, y, m)
  {
  }

  lemma CongMod(x: int, m: int)
    requires m > 0
    ensures Cong(x % m, x, m) && Cong(x, x % m, m)
  {
    assert x == x / m * m + x % m;
    CongIntro(x, x % m, m, x / m);
    assert -(x / m) * m == -(x / m * m);
    CongIntro(x % m, x, m, -(x / m));
  }

  lemma CongSym(x: int, y: int, m: int)
    requires Cong(x, y, m)
    ensures Cong(y, x, m)
  {
    var k :| x == y + k * m;
    assert -k * m == -(k * m);
    CongIntro(y, x, m, -k);
  }

  lemma CongTrans(x: int, y: int, z: int, m: int)
    requires Cong(x, y, m) && Cong(y, z, m)
    ensures Cong(x, z, m)
  {
    var k :| x == y + k * m;
    var l :| y == z + l * m;
    assert (k + l) * m == k * m + l * m;
    CongIntro(x, z, m, k + l);
  }

  lemma Distr(a: int, b: int, c: int)
    ensures (a + b) * c == a * c + b * c
    ensures c * (a + b) == c * a + c * b
  {
  }

  lemma Assoc(a: int, b: int, c: int)
    ensures a * b * c == a * c * b
    ensures c * (a * b) == c * a * b
  {
  }

  lemma ProductOfCongruent(x: int, y: int, k: int, u: int, v: int, l: int, m: int)
    requires x == y + k * m && u == v + l * m
    ensures x * u == y * v + (y * l + k * u) * m
  {
    Distr(y, k * m, u);
    Distr(v, l * m, y);
    Distr(y * l, k * u, m);
    Assoc(k, m, u);
    Assoc(l, m, y);
  }

  lemma CongMul(x: int, y: int, u: int, v: int, m: int)
    requires Cong(x, y, m) && Cong(u, v, m)
    ensures Cong(x * u, y * v, m)
  {
    var k :| x == y + k * m;
    var l :| u == v + l * m;
    ProductOfCongruent(x, y, k, u, v, l, m);
    CongIntro(x * u, y * v, m, y * l + k * u);
  }

  /** Congruent numbers have the same residue. */
  lemma CongSame(x: int, y: int, m: int)
    requires m > 0 && Cong(x, y, m)
    ensures x % m == y % m
  {
    var k :| x == y + k * m;
    assert y == y / m * m + y % m;
    assert (y / m + k) * m == y / m * m + k * m;
    DivIs(x, m, y / m + k, y % m);
  }

  /** The inverse of 2^k modulo an odd m. */
  function HalfPow(m: nat, k: nat): nat
    requires m > 0
  {
    if k == 0 then 1 % m else HalfPow(m, k - 1) * ((m + 1) / 2) % m
  }

  lemma {:induction false} HalfPowInverts(m: nat, k: nat)
    requires m % 2 == 1
    ensures Cong(Pow2(k) * HalfPow(m, k), 1, m)
  {
    if k == 0 {
      CongMod(1, m);
    } else {
      var h, p, q := (m + 1) / 2, Pow2(k - 1), HalfPow(m, k - 1);
      HalfPowInverts(m, k - 1);
      assert 2 * h == 1 + 1 * m;
      CongIntro(2 * h, 1, m, 1);
      CongMul(p * q, 1, 2 * h, 1, m);
      assert 2 * p * (q * h) == p * q * (2 * h);
      CongMod(q * h, m);
      CongIntro(2 * p, 2 * p, m, 0);
      CongMul(2 * p, 2 * p, q * h % m, q * h, m);
      CongTrans(2 * p * (q * h % m), 2 * p * (q * h), 1, m);
    }
  }
}
