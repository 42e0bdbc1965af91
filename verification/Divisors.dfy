/** Common divisors, for the two gcd algorithms of crypto.js. */
module Divisors {
  import opened Digits

  ghost predicate Divides(d: int, x: int) {
    exists k {:trigger d * k} :: x == d * k
  }

  ghost predicate Common(d: int, x: int, y: int) {
    Divides(d, x) && Divides(d, y)
  }

  ghost predicate SameDivisors(x: int, y: int, u: int, v: int) {
    forall d :: Common(d, x, y) <==> Common(d, u, v)
  }

  lemma DividesIntro(d: int, x: int, k: int)
    requires x == d * k
    ensures Divides(d, x)
  {
  }

  /** Divisors of x and y divide i * x + j * y. */
  lemma DividesCombination(d: int, x: int, y: int, i: int, j: int)
    requires Divides(d, x) && Divides(d, y)
    ensures Divides(d, i * x + j * y)
  {
    var p :| x == d * p;
    var q :| y == d * q;
    assert i * (d * p) == d * (i * p) && j * (d * q) == d * (j * q);
    DividesIntro(d, i * x + j * y, i * p + j * q);
  }

  /** Halving one of two numbers, the other odd, keeps their common divisors, even when both
      carry a factor k. */
  lemma HalveKeeps(k: int, x: int, y: int)
    requires y % 2 == 1
    ensures SameDivisors(k * (2 * x), k * y, k * x, k * y)
  {
    var z := y / 2;
    forall d ensures Common(d, k * (2 * x), k * y) <==> Common(d, k * x, k * y) {
      if Common(d, k * (2 * x), k * y) {
        DividesCombination(d, k * (2 * x), k * y, -z, x);
        assert -z * (k * (2 * x)) + x * (k * y) == k * x by {
          assert y == 2 * z + 1;
          assert x * (k * y) == k * x * y;
          assert k * x * y == 2 * (k * x * z) + k * x;
          assert z * (k * (2 * x)) == 2 * (k * x * z);
        }
      }
      if Common(d, k * x, k * y) {
        DividesCombination(d, k * x, k * y, 2, 0);
        assert 2 * (k * x) + 0 * (k * y) == k * (2 * x);
      }
    }
  }

  /** So does subtracting one from the other. */
  lemma SubtractKeeps(k: int, x: int, y: int)
    ensures SameDivisors(k * x, k * y, k * (x - y), k * y)
  {
    assert k * (x - y) == k * x - k * y;
    forall d ensures Common(d, k * x, k * y) <==> Common(d, k * (x - y), k * y) {
      if Common(d, k * x, k * y) { DividesCombination(d, k * x, k * y, 1, -1); }
      if Common(d, k * (x - y), k * y) { DividesCombination(d, k * (x - y), k * y, 1, 1); }
    }
  }

  ghost predicate IsGcd(g: int, x: int, y: int) {
    g >= 0 && Common(g, x, y) && forall d :: Common(d, x, y) ==> Divides(d, g)
  }

  lemma GcdOfZero(y: int, x: int, z: int)
    requires y >= 0 && SameDivisors(x, z, 0, y)
    ensures IsGcd(y, x, z)
  {
    DividesIntro(y, 0, 0);
    DividesIntro(y, y, 1);
    assert Common(y, 0, y);
  }

  lemma SwapDivisors(x: int, y: int, u: int, v: int)
    requires SameDivisors(x, y, u, v)
    ensures SameDivisors(y, x, v, u)
  {
    forall d ensures Common(d, y, x) <==> Common(d, v, u) {
      assert Common(d, x, y) <==> Common(d, u, v);
    }
  }

  lemma ChainDivisors(x: int, y: int, u: int, v: int, p: int, q: int)
    requires SameDivisors(x, y, u, v) && SameDivisors(u, v, p, q)
    ensures SameDivisors(x, y, p, q)
  {
    forall d ensures Common(d, x, y) <==> Common(d, p, q) {
      assert Common(d, x, y) <==> Common(d, u, v);
    }
  }

  lemma BothEven(x: int, m: int)
    requires x % 2 == 0 && m % 2 == 0
    ensures !IsGcd(1, x, m)
  {
    DividesIntro(2, x, x / 2);
    DividesIntro(2, m, m / 2);
    assert Common(2, x, m);
    assert !Divides(2, 1);
  }

  /** With one number zero the other is the gcd. */
  lemma LastDivisors(v: int, m: int, x: int)
    requires v > 0 && SameDivisors(0, v, m, x)
    ensures v == 1 <==> IsGcd(1, x, m)
  {
    DividesIntro(v, 0, 0);
    DividesIntro(v, v, 1);
    assert Common(v, 0, v);
    if v == 1 {
      forall d | Common(d, x, m) ensures Divides(d, 1) {
        assert Common(d, m, x);
        assert Common(d, 0, v);
      }
    } else if IsGcd(1, x, m) {
      assert Common(v, x, m);
      var k :| 1 == v * k;
      if k >= 1 { MulMono(1, k, v); }
      if k <= 0 { MulMono(k, 0, v); }
    }
  }
}
