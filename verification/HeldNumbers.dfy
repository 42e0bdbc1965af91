/**
  Single steps of `bnGCD` and `bnModInverse` in jni/v8core/v8/benchmarks/crypto.js on numbers held in
  memory, with the value of each number as a ghost argument.
*/
module HeldNumbers {
  import opened Digits
  import opened BigIntegers

  /** z is the number n, without redundant digits; hidden where only that counts. */
  ghost predicate Is(z: BigInteger, n: int)
    reads z
  {
    forall w {:trigger Peek(w)} :: Peek(w) ==> z.Valid() && z.Clamped() && z.Value() == n
  }

  lemma Parity(z: BigInteger)
    requires z.Valid()
    ensures z.Value() % 2 == if z.t > 0 then z.a[0] % 2 else z.s % 2
  {
    ShOne(z.t);
    if z.t > 0 {
      Head(z.a, 0, z.t);
      ShSucc(z.s, z.t - 1);
      EvenRest(z.a[0], V(z.a, 1, z.t - 1), Sh(z.s, z.t - 1));
    } else {
      assert Sh(z.s, 0) == z.s;
    }
  }

  lemma EvenRest(d: int, h: int, s: int)
    ensures (d + B * h + B * s) % 2 == d % 2
  {
  }

  /** `isEven` */
  method IsEven(z: BigInteger, ghost n: int) returns (even: bool)
    requires Is(z, n)
    ensures even <==> n % 2 == 0
  {
    assert Peek(0);
    Parity(z);
    even := (if z.t > 0 then z.a[0] % 2 else z.s) == 0;
  }

  /** `clone` */
  method Clone(z: BigInteger, ghost n: int) returns (r: BigInteger)
    requires Is(z, n)
    ensures fresh(r) && Is(r, n)
  {
    assert Peek(0);
    r := new BigInteger();
    z.CopyTo(r);
  }

  /** `nbv`, for 0 and 1 */
  method Constant(n: int) returns (r: BigInteger)
    requires 0 <= n <= 1
    ensures fresh(r) && Is(r, n)
  {
    r := new BigInteger();
    var _ := r.FromInt(n);
  }

  lemma OneBit()
    ensures Pow2(1) == 2
  {
    assert Pow2(1) == 2 * Pow2(0);
  }

  /** z.rShiftTo(1, z) */
  method Halve(z: BigInteger, ghost n: int)
    requires Is(z, n)
    modifies z
    ensures Is(z, n / 2)
  {
    assert Peek(0);
    OneBit();
    z.RShiftTo(1, z);
  }

  /** z.addTo(y, z) */
  method Add(z: BigInteger, y: BigInteger, ghost n: int, ghost k: int)
    requires Is(z, n) && Is(y, k)
    modifies z
    ensures Is(z, n + k)
  {
    assert Peek(0);
    z.AddTo(y, z);
  }

  /** z.subTo(y, z) */
  method Subtract(z: BigInteger, y: BigInteger, ghost n: int, ghost k: int)
    requires Is(z, n) && Is(y, k)
    modifies z
    ensures Is(z, n - k)
  {
    assert Peek(0);
    z.SubTo(y, z);
  }

  /** z.compareTo(y), for numbers not both negative */
  method Compare(z: BigInteger, y: BigInteger, ghost n: int, ghost k: int) returns (r: int)
    requires Is(z, n) && Is(y, k) && (n >= 0 || k >= 0)
    ensures Sign(r) == Sign(n - k)
  {
    assert Peek(0);
    SignOfValue(z);
    SignOfValue(y);
    r := z.CompareTo(y);
  }

  /** `signum` */
  method Signum(z: BigInteger, ghost n: int) returns (r: int)
    requires Is(z, n)
    ensures r == Sign(n)
  {
    assert Peek(0);
    Magnitude(z);
    if z.s < 0 {
      r := -1;
    } else if z.t <= 0 || (z.t == 1 && z.a[0] <= 0) {
      r := 0;
    } else {
      MulBounds(1, 1, 1, 1);
      r := 1;
    }
  }
}
