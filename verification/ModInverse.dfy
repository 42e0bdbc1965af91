/**
  `bnModInverse` in jni/v8core/v8/benchmarks/crypto.js: the binary extended Euclidean algorithm, in
  place on the numbers it starts from.
*/
module ModInverse {
  import opened Digits
  import opened BigIntegers
  import opened Divisors
  import opened HeldNumbers
  import opened Modular

  /** Both coefficients are even after the correction, and still combine to u. */
  lemma Parities(x: int, m: int, a: int, b: int, u: int)
    requires x % 2 == 1 || m % 2 == 1
    requires u % 2 == 0 && m * a + x * b == u
    ensures m % 2 == 1 ==> (a % 2 == 1 || b % 2 == 1 <==> b % 2 == 1)
    ensures var a', b' := if a % 2 == 1 || b % 2 == 1 then a + x else a, if a % 2 == 1 || b % 2 == 1 then b - m else b;
      a' % 2 == 0 && b' % 2 == 0 && m * (a' / 2) + x * (b' / 2) == u / 2
  {
    EvenTerms(x, m, a, b, u);
    if a % 2 == 1 || b % 2 == 1 {
      ShiftTerms(x, m, a, b);
      EvenTerms(x, m, a + x, b - m, u);
      HalfSum(m, a + x, x, b - m, u);
    } else {
      HalfSum(m, a, x, b, u);
    }
  }

  /** Of an even m * a + x * b, what the parities of the factors can be. */
  lemma EvenTerms(x: int, m: int, a: int, b: int, u: int)
    requires u % 2 == 0 && m * a + x * b == u
    ensures m % 2 == 1 && a % 2 == 1 <==> x % 2 == 1 && b % 2 == 1
  {
    ProductParity(m, a);
    ProductParity(x, b);
    var s, t := m * a, x * b;
    assert s + t == u;
  }

  lemma ShiftTerms(x: int, m: int, a: int, b: int)
    ensures m * (a + x) + x * (b - m) == m * a + x * b
  {
  }

  lemma HalfSum(m: int, a: int, x: int, b: int, u: int)
    requires a % 2 == 0 && b % 2 == 0 && m * a + x * b == u
    ensures m * (a / 2) + x * (b / 2) == u / 2
  {
    var p, q := a / 2, b / 2;
    assert m * (2 * p) == 2 * (m * p) && x * (2 * q) == 2 * (x * q);
  }

  lemma DoubleOut(p: int, y: int)
    ensures 2 * p * y == 2 * (p * y)
  {
  }

  lemma ProductParity(x: int, y: int)
    ensures (x * y) % 2 == 1 <==> x % 2 == 1 && y % 2 == 1
  {
    var p, q := x / 2, x % 2;
    Distr(2 * p, q, y);
    DoubleOut(p, y);
    if q == 0 { assert q * y == 0; } else { assert q * y == y; }
  }

  /** What stripping does when m is odd and only b is tracked. */
  function StripOdd(u: int, b: int, m: int): (r: (int, int))
    ensures u > 0 ==> 0 < r.0 <= u
    decreases if u < 0 then 0 else u
  {
    if u > 0 && u % 2 == 0 then StripOdd(u / 2, (if b % 2 == 1 then b - m else b) / 2, m) else (u, b)
  }

  /** The rounds for odd m, on the numbers the source tracks then: the gcd and its coefficient. */
  function OddRounds(u: int, v: int, b: int, d: int, m: int): (int, int)
    requires u >= 0 && v > 0
    decreases u + v
  {
    if u == 0 then (v, d) else
      var (u1, b1) := StripOdd(u, b, m);
      var (v1, d1) := StripOdd(v, d, m);
      if u1 >= v1 then OddRounds(u1 - v1, v1, b1 - d1, d1, m) else OddRounds(u1, v1 - u1, b1, d1 - b1, m)
  }

  /** StripOdd and OddRounds, hidden like Combines. */
  ghost predicate StripsTo(u: int, b: int, m: int, u1: int, b1: int) {
    forall w {:trigger Peek(w)} :: Peek(w) ==> StripOdd(u, b, m) == (u1, b1)
  }

  ghost predicate GoesTo(u: int, v: int, b: int, d: int, m: int, r: (int, int)) {
    u >= 0 && v > 0 && forall w {:trigger Peek(w)} :: Peek(w) ==> OddRounds(u, v, b, d, m) == r
  }

  /** One round for odd m. */
  lemma RoundGoes(u: int, v: int, b: int, d: int, m: int, u1: int, b1: int, v1: int, d1: int, r: (int, int))
    requires GoesTo(u, v, b, d, m, r) && u > 0 && StripsTo(u, b, m, u1, b1) && StripsTo(v, d, m, v1, d1) && v1 > 0 &&
      u1 > 0
    ensures u1 >= v1 ==> GoesTo(u1 - v1, v1, b1 - d1, d1, m, r)
    ensures u1 < v1 ==> GoesTo(u1, v1 - u1, b1, d1 - b1, m, r)
  {
    assert Peek(0);
    OddRound(u, v, b, d, m, u1, b1, v1, d1);
  }

  /** The correction steps at the end. */
  function Settle(d: int, m: int): int {
    if d >= m then d - m else if d >= 0 then d else if d + m >= 0 then d + m else d + m + m
  }

  /** What the coefficients of an even number become, so that they are even too. */
  function MadeEven(p: int, odd: bool, d: int): int { if odd then p + d else p }

  /** The numbers of the algorithm, as integers; for odd m the source keeps no a and c. */
  datatype Numbers = Numbers(u: int, v: int, a: int, b: int, c: int, d: int)

  /** m * a + x * b is u; hidden where only that counts. */
  ghost predicate Combines(m: int, a: int, x: int, b: int, u: int) {
    forall w {:trigger Peek(w)} :: Peek(w) ==> m * a + x * b == u
  }

  /** The coefficients of u / 2. */
  lemma Halved(x: int, m: int, a: int, b: int, u: int)
    requires (x % 2 == 1 || m % 2 == 1) && u % 2 == 0 && Combines(m, a, x, b, u)
    ensures var odd := a % 2 == 1 || b % 2 == 1;
      && Combines(m, MadeEven(a, odd, x) / 2, x, MadeEven(b, odd, -m) / 2, u / 2)
      && (m % 2 == 1 ==> (odd <==> b % 2 == 1)) && MadeEven(b, odd, -m) % 2 == 0
  {
    assert Peek(0);
    Parities(x, m, a, b, u);
  }

  ghost predicate PowerOfTwo(x: int) {
    exists k: nat :: x == Pow2(k)
  }

  lemma OddPower(x: int)
    requires PowerOfTwo(x)
    ensures x % 2 == 1 ==> x == 1
  {
    var k: nat :| x == Pow2(k);
    if k > 0 { assert Pow2(k) == 2 * Pow2(k - 1); }
  }

  lemma HalfPower(x: int)
    requires PowerOfTwo(x) && x % 2 == 0
    ensures PowerOfTwo(x / 2)
  {
    var k: nat :| x == Pow2(k);
    assert k > 0 && Pow2(k) == 2 * Pow2(k - 1);
  }

  /** What halving a number u0 with coefficient b0 some times, to n with coefficient q, can make of them; hidden
      like Combines. */
  ghost predicate Halvings(u0: int, b0: int, M: int, n: int, q: int) {
    forall w {:trigger Peek(w)} :: Peek(w) ==>
      && (PowerOfTwo(u0) ==> PowerOfTwo(n))
      && ((n == u0 && q == b0) || (n < u0 && (-M < b0 ==> -M < q) && 2 * q <= if b0 > 0 then b0 else 0))
  }

  lemma NoHalving(u: int, b: int, M: int)
    ensures Halvings(u, b, M, u, b)
  {
  }

  lemma OneHalving(u0: int, b0: int, M: int, n: int, q: int, odd: bool)
    requires Halvings(u0, b0, M, n, q) && n > 0 && n % 2 == 0 && M > 0 && MadeEven(q, odd, -M) % 2 == 0
    ensures Halvings(u0, b0, M, n / 2, MadeEven(q, odd, -M) / 2)
  {
    assert Peek(0);
    if PowerOfTwo(u0) { HalfPower(n); }
  }

  /** The coefficients of u when it is halved. */
  method HalveCoefficients(x: BigInteger, m: BigInteger, ac: bool, a: BigInteger, b: BigInteger, ghost X: int,
      ghost M: int, ghost p: int, ghost q: int, ghost odd: bool)
    requires Is(x, X) && Is(m, M) && Is(b, q) && a != b && {a, b} !! {x, m}
    requires odd <==> p % 2 == 1 || q % 2 == 1
    requires if ac then Is(a, p) else odd <==> q % 2 == 1
    modifies a, b
    ensures Is(b, MadeEven(q, odd, -M) / 2) && (ac ==> Is(a, MadeEven(p, odd, X) / 2))
  {
    if ac {
      var even := IsEven(a, p);
      if even { even := IsEven(b, q); }
      if !even {
        Add(a, x, p, X);
        Subtract(b, m, q, M);
      }
      Halve(a, MadeEven(p, odd, X));
    } else {
      var even := IsEven(b, q);
      if !even { Subtract(b, m, q, M); }
    }
    Halve(b, MadeEven(q, odd, -M));
  }

  /** while(u.isEven()) { u.rShiftTo(1, u); ... } with the coefficients kept integral. */
  method Strip(x: BigInteger, m: BigInteger, ac: bool, u: BigInteger, a: BigInteger, b: BigInteger, ghost X: int,
      ghost M: int,
    ghost u0: int, ghost a0: int, ghost b0: int, ghost v: int) returns (ghost n: int, ghost p: int, ghost q: int)
    requires Is(x, X) && Is(m, M) && Is(u, u0) && Is(b, b0) && (ac ==> Is(a, a0)) && u != a && u != b && a != b &&
      {u, a, b} !! {x, m}
    requires M > 0 && (X % 2 == 1 || M % 2 == 1) && (ac <==> M % 2 == 0)
    requires u0 > 0 && Combines(M, a0, X, b0, u0) && (u0 % 2 == 1 || v % 2 == 1)
    modifies u, a, b
    ensures Is(u, n) && Is(b, q) && (ac ==> Is(a, p)) && 0 < n <= u0 && n % 2 == 1 && Combines(M, p, X, q, n)
    ensures SameDivisors(n, v, u0, v) && (M % 2 == 1 ==> StripsTo(u0, b0, M, n, q)) &&
      (u0 % 2 == 1 ==> n == u0 && q == b0)
    ensures Halvings(u0, b0, M, n, q)
  {
    n, p, q := u0, a0, b0;
    NoHalving(n, q, M);
    var even := IsEven(u, n);
    while even
      invariant Is(u, n) && Is(b, q) && (ac ==> Is(a, p)) && (even <==> n % 2 == 0)
      invariant 0 < n <= u0 && Combines(M, p, X, q, n) && (n % 2 == 1 || v % 2 == 1)
      invariant SameDivisors(n, v, u0, v)
      invariant M % 2 == 1 ==> StripOdd(n, q, M) == StripOdd(u0, b0, M)
      invariant (u0 % 2 == 1 ==> n == u0 && q == b0) && Halvings(u0, b0, M, n, q)
      decreases n
    {
      HalveKeeps(1, n / 2, v);
      Halved(X, M, p, q, n);
      ghost var odd := p % 2 == 1 || q % 2 == 1;
      OneHalving(u0, b0, M, n, q, odd);
      Halve(u, n);
      HalveCoefficients(x, m, ac, a, b, X, M, p, q, odd);
      ChainDivisors(n / 2, v, n, v, u0, v);
      n, p, q := n / 2, MadeEven(p, odd, X) / 2, MadeEven(q, odd, -M) / 2;
      even := IsEven(u, n);
    }
  }

  /** The numbers in memory, all different. */
  ghost predicate Held(x: BigInteger, m: BigInteger, ac: bool, u: BigInteger, v: BigInteger, a: BigInteger,
      b: BigInteger, c: BigInteger, d: BigInteger, X: int, M: int, s: Numbers)
    reads x, m, u, v, a, b, c, d
  {
    && u != a && u != b && a != b && v != c && v != d && c != d && {u, a, b} !! {v, c, d} &&
      {u, a, b, v, c, d} !! {x, m}
    && Is(x, X) && Is(m, M) && Is(u, s.u) && Is(v, s.v) && Is(b, s.b) && Is(d, s.d) && (ac ==> Is(a, s.a) && Is(c, s.c))
  }

  /** What the numbers are to each other. */
  ghost predicate Ready(X: int, M: int, s: Numbers) {
    && M > 0 && (X % 2 == 1 || M % 2 == 1) && s.u >= 0 && s.v > 0 && (s.u % 2 == 1 || s.v % 2 == 1)
    && Combines(M, s.a, X, s.b, s.u) && Combines(M, s.c, X, s.d, s.v)
  }

  /** Both numbers made odd. */
  method StripBoth(x: BigInteger, m: BigInteger, ac: bool, u: BigInteger, v: BigInteger, a: BigInteger, b: BigInteger,
      c: BigInteger, d: BigInteger, ghost X: int, ghost M: int, ghost s0: Numbers) returns (ghost s: Numbers)
    requires Held(x, m, ac, u, v, a, b, c, d, X, M, s0) && Ready(X, M, s0) && s0.u > 0 && (ac <==> M % 2 == 0)
    modifies u, v, a, b, c, d
    ensures Held(x, m, ac, u, v, a, b, c, d, X, M, s) && Ready(X, M, s)
    ensures 0 < s.u <= s0.u && s.u % 2 == 1 && 0 < s.v <= s0.v && s.v % 2 == 1
    ensures SameDivisors(s.u, s0.v, s0.u, s0.v) && SameDivisors(s.u, s.v, s.u, s0.v)
    ensures M % 2 == 1 ==> StripsTo(s0.u, s0.b, M, s.u, s.b) && StripsTo(s0.v, s0.d, M, s.v, s.d)
    ensures s0.v % 2 == 1 ==> s.v == s0.v && s.d == s0.d
    ensures Halvings(s0.u, s0.b, M, s.u, s.b) && Halvings(s0.v, s0.d, M, s.v, s.d)
  {
    ghost var n, p, q, n', p', q';
    n, p, q := Strip(x, m, ac, u, a, b, X, M, s0.u, s0.a, s0.b, s0.v);
    n', p', q' := Strip(x, m, ac, v, c, d, X, M, s0.v, s0.c, s0.d, n);
    SwapDivisors(n', n, s0.v, n);
    s := Numbers(n, n', p, q, p', q');
  }

  /** u - v in place of u, and the same for the coefficients. */
  method SubtractFrom(ac: bool, u: BigInteger, v: BigInteger, a: BigInteger, c: BigInteger, b: BigInteger,
      d: BigInteger, ghost s: Numbers)
    requires u != a && u != b && a != b && {u, a, b} !! {v, c, d}
    requires Is(u, s.u) && Is(v, s.v) && Is(b, s.b) && Is(d, s.d) && (ac ==> Is(a, s.a) && Is(c, s.c))
    modifies u, a, b
    ensures Is(u, s.u - s.v) && Is(b, s.b - s.d) && (ac ==> Is(a, s.a - s.c))
  {
    Subtract(u, v, s.u, s.v);
    if ac { Subtract(a, c, s.a, s.c); }
    Subtract(b, d, s.b, s.d);
  }

  /** The smaller of the two numbers subtracted from the larger. */
  function Smaller(s: Numbers): Numbers {
    if s.u >= s.v then s.(u := s.u - s.v, a := s.a - s.c, b := s.b - s.d)
      else s.(v := s.v - s.u, c := s.c - s.a, d := s.d - s.b)
  }

  method SubtractSmaller(x: BigInteger, m: BigInteger, ac: bool, u: BigInteger, v: BigInteger, a: BigInteger,
      b: BigInteger, c: BigInteger, d: BigInteger, ghost X: int, ghost M: int, ghost s: Numbers)
    requires Held(x, m, ac, u, v, a, b, c, d, X, M, s) && s.u > 0
    modifies u, v, a, b, c, d
    ensures Held(x, m, ac, u, v, a, b, c, d, X, M, Smaller(s))
  {
    var order := Compare(u, v, s.u, s.v);
    if order >= 0 {
      SubtractFrom(ac, u, v, a, c, b, d, s);
    } else {
      SubtractFrom(ac, v, u, c, a, d, b, Numbers(s.v, s.u, s.c, s.d, s.a, s.b));
    }
  }

  /** The state after the subtraction is one the rounds can go on from. */
  lemma SmallerReady(X: int, M: int, s0: Numbers, s: Numbers)
    requires Ready(X, M, s) && 0 < s.u <= s0.u && s.u % 2 == 1 && 0 < s.v <= s0.v && s.v % 2 == 1
    requires SameDivisors(s.u, s0.v, s0.u, s0.v) && SameDivisors(s.u, s.v, s.u, s0.v)
    ensures var z := Smaller(s); Ready(X, M, z) && z.u + z.v < s0.u + s0.v && SameDivisors(z.u, z.v, s0.u, s0.v)
  {
    Subtracted(s.u, s.v, s0.u, s0.v);
    if s.u >= s.v {
      Difference(M, s.a, s.c, X, s.b, s.d, s.u, s.v);
    } else {
      Difference(M, s.c, s.a, X, s.d, s.b, s.v, s.u);
    }
  }

  /** What a round makes of the numbers. */
  lemma RoundOk(X: int, M: int, s0: Numbers, s1: Numbers, s: Numbers, r: (int, int))
    requires Ready(X, M, s1) && 0 < s1.u <= s0.u && s1.u % 2 == 1 && 0 < s1.v <= s0.v && s1.v % 2 == 1 &&
      s == Smaller(s1)
    requires SameDivisors(s1.u, s0.v, s0.u, s0.v) && SameDivisors(s1.u, s1.v, s1.u, s0.v)
    requires M % 2 == 1 ==> GoesTo(s0.u, s0.v, s0.b, s0.d, M, r)
    requires M % 2 == 1 ==> StripsTo(s0.u, s0.b, M, s1.u, s1.b) && StripsTo(s0.v, s0.d, M, s1.v, s1.d)
    requires s0.v % 2 == 1 ==> s1.v == s0.v && s1.d == s0.d
    ensures Ready(X, M, s) && s.u + s.v < s0.u + s0.v && SameDivisors(s.u, s.v, s0.u, s0.v)
    ensures M % 2 == 1 ==> GoesTo(s.u, s.v, s.b, s.d, M, r)
    ensures s0.v == 1 ==> s.v == 1 && s.d == s0.d
  {
    SmallerReady(X, M, s0, s1);
    if M % 2 == 1 { RoundGoes(s0.u, s0.v, s0.b, s0.d, M, s1.u, s1.b, s1.v, s1.d, r); }
  }

  /** Where the coefficients are when M is a power of two: u is one too, and soon 1. */
  ghost predicate Narrow(M: int, s: Numbers) {
    if s.u == 0 then -M < s.d < 2 * M
    else PowerOfTwo(s.u) && -M < s.b <= 0 && -M < s.d && if s.v % 2 == 1 then s.d <= M else s.d < 2 * M
  }

  /** A round keeps them there. */
  lemma NarrowRound(M: int, s0: Numbers, s1: Numbers)
    requires M > 0 && s0.u > 0 && Narrow(M, s0) && 0 < s1.u && s1.u % 2 == 1 && 0 < s1.v && s1.v % 2 == 1
    requires Halvings(s0.u, s0.b, M, s1.u, s1.b) && Halvings(s0.v, s0.d, M, s1.v, s1.d)
    ensures Narrow(M, Smaller(s1))
  {
    assert Peek(0);
    OddPower(s1.u);
  }

  /** One round. */
  method Round(x: BigInteger, m: BigInteger, ac: bool, u: BigInteger, v: BigInteger, a: BigInteger, b: BigInteger,
      c: BigInteger, d: BigInteger, ghost X: int, ghost M: int, ghost s0: Numbers, ghost r: (int,
      int)) returns (ghost s: Numbers)
    requires Held(x, m, ac, u, v, a, b, c, d, X, M, s0) && Ready(X, M, s0) && s0.u > 0 && (ac <==> M % 2 == 0)
    requires M % 2 == 1 ==> GoesTo(s0.u, s0.v, s0.b, s0.d, M, r)
    modifies u, v, a, b, c, d
    ensures Held(x, m, ac, u, v, a, b, c, d, X, M, s) && Ready(X, M, s)
    ensures s.u + s.v < s0.u + s0.v && SameDivisors(s.u, s.v, s0.u, s0.v)
    ensures M % 2 == 1 ==> GoesTo(s.u, s.v, s.b, s.d, M, r)
    ensures s0.v == 1 ==> s.v == 1 && s.d == s0.d
    ensures Narrow(M, s0) ==> Narrow(M, s)
  {
    ghost var s1 := StripBoth(x, m, ac, u, v, a, b, c, d, X, M, s0);
    RoundOk(X, M, s0, s1, Smaller(s1), r);
    if Narrow(M, s0) { NarrowRound(M, s0, s1); }
    SubtractSmaller(x, m, ac, u, v, a, b, c, d, X, M, s1);
    s := Smaller(s1);
  }

  lemma Difference(m: int, a: int, c: int, x: int, b: int, d: int, u: int, v: int)
    requires Combines(m, a, x, b, u) && Combines(m, c, x, d, v)
    ensures Combines(m, a - c, x, b - d, u - v)
  {
    assert Peek(0);
    LinearDifference(m, a, c, x, b, d);
  }

  /** What the subtraction leaves has the same divisors. */
  lemma Subtracted(u: int, v: int, u0: int, v0: int)
    requires SameDivisors(u, v0, u0, v0) && SameDivisors(u, v, u, v0)
    ensures SameDivisors(u - v, v, u0, v0) && SameDivisors(u, v - u, u0, v0)
  {
    SubtractKeeps(1, u, v);
    SubtractKeeps(1, v, u);
    forall e ensures Common(e, u - v, v) <==> Common(e, u0, v0) {
      assert Common(e, u, v0) <==> Common(e, u0, v0);
      assert Common(e, u, v) <==> Common(e, u, v0);
      assert Common(e, u, v) <==> Common(e, u - v, v);
    }
    forall e ensures Common(e, u, v - u) <==> Common(e, u0, v0) {
      assert Common(e, u, v0) <==> Common(e, u0, v0);
      assert Common(e, u, v) <==> Common(e, u, v0);
      assert Common(e, v, u) <==> Common(e, v - u, u);
    }
  }

  lemma LinearDifference(m: int, a: int, c: int, x: int, b: int, d: int)
    ensures m * (a - c) + x * (b - d) == (m * a + x * b) - (m * c + x * d)
  {
  }

  lemma Inverse(x: int, d: int, m: int, c: int)
    requires m * c + x * d == 1
    ensures Cong(x * d, 1, m)
  {
    assert x * d == 1 + -c * m;
    CongIntro(x * d, 1, m, -c);
  }

  lemma InverseShift(x: int, d: int, m: int, j: int)
    requires Cong(x * d, 1, m)
    ensures Cong(x * (d + j * m), 1, m)
  {
    var k :| x * d == 1 + k * m;
    assert x * (d + j * m) == 1 + (k + x * j) * m by {
      assert x * (j * m) == x * j * m;
    }
    CongIntro(x * (d + j * m), 1, m, k + x * j);
  }

  /** One round for odd m, from what stripping gives. */
  lemma OddRound(u: int, v: int, b: int, d: int, m: int, u1: int, b1: int, v1: int, d1: int)
    requires u > 0 && v > 0 && StripOdd(u, b, m) == (u1, b1) && StripOdd(v, d, m) == (v1, d1)
    ensures u1 >= v1 ==> OddRounds(u, v, b, d, m) == OddRounds(u1 - v1, v1, b1 - d1, d1, m)
    ensures u1 < v1 ==> OddRounds(u, v, b, d, m) == OddRounds(u1, v1 - u1, b1, d1 - b1, m)
  {
  }

  lemma Rounds1()
    ensures OddRounds(3659, 1748, 0, 1, 3659) == OddRounds(150, 437, 4802, -2744, 3659)
  {
    assert StripOdd(874, -1829, 3659) == (437, -2744);
    assert StripOdd(1748, 1, 3659) == (437, -2744);
    OddRound(3659, 1748, 0, 1, 3659, 3659, 0, 437, -2744);
    assert StripOdd(3222, 2744, 3659) == (1611, 1372);
    OddRound(3222, 437, 2744, -2744, 3659, 1611, 1372, 437, -2744);
    assert StripOdd(1174, 4116, 3659) == (587, 2058);
    OddRound(1174, 437, 4116, -2744, 3659, 587, 2058, 437, -2744);
  }

  lemma Rounds2()
    ensures OddRounds(150, 437, 4802, -2744, 3659) == OddRounds(22, 53, 7632, -5231, 3659)
  {
    assert StripOdd(150, 4802, 3659) == (75, 2401);
    OddRound(150, 437, 4802, -2744, 3659, 75, 2401, 437, -2744);
    assert StripOdd(362, -5145, 3659) == (181, -4402);
    OddRound(75, 362, 2401, -5145, 3659, 75, 2401, 181, -4402);
    assert StripOdd(106, -6803, 3659) == (53, -5231);
    OddRound(75, 106, 2401, -6803, 3659, 75, 2401, 53, -5231);
  }

  lemma Rounds3()
    ensures OddRounds(22, 53, 7632, -5231, 3659) == OddRounds(11, 10, 3816, -10169, 3659)
  {
    assert StripOdd(22, 7632, 3659) == (11, 3816);
    OddRound(22, 53, 7632, -5231, 3659, 11, 3816, 53, -5231);
    assert StripOdd(42, -9047, 3659) == (21, -6353);
    OddRound(11, 42, 3816, -9047, 3659, 11, 3816, 21, -6353);
  }

  lemma Rounds4()
    ensures OddRounds(11, 10, 3816, -10169, 3659) == OddRounds(6, 5, 10730, -6914, 3659)
  {
    assert StripOdd(10, -10169, 3659) == (5, -6914);
    OddRound(11, 10, 3816, -10169, 3659, 11, 3816, 5, -6914);
  }

  lemma Rounds5()
    ensures OddRounds(6, 5, 10730, -6914, 3659) == OddRounds(0, 1, 14636, -7969, 3659)
  {
    assert StripOdd(6, 10730, 3659) == (3, 5365);
    OddRound(6, 5, 10730, -6914, 3659, 3, 5365, 5, -6914);
    assert StripOdd(2, -12279, 3659) == (1, -7969);
    OddRound(3, 2, 5365, -12279, 3659, 3, 5365, 1, -7969);
    assert StripOdd(2, 13334, 3659) == (1, 6667);
    OddRound(2, 1, 13334, -7969, 3659, 1, 6667, 1, -7969);
  }

  /** They do not always: the inverse of 1748 modulo 3659 comes out as -651. */
  lemma NotReduced()
    ensures Settle(OddRounds(3659, 1748, 0, 1, 3659).1, 3659) == -651
  {
    Rounds1();
    Rounds2();
    Rounds3();
    Rounds4();
    Rounds5();
  }

  /** While v is 1, d stays. */
  lemma {:induction false} OneStays(u: nat, b: int, d: int, m: int)
    ensures OddRounds(u, 1, b, d, m) == (1, d)
    decreases u
  {
    if u > 0 {
      assert StripOdd(1, d, m) == (1, d);
      var n, q := StripOdd(u, b, m).0, StripOdd(u, b, m).1;
      OddRound(u, 1, b, d, m, n, q, 1, d);
      OneStays(n - 1, q - d, d, m);
    }
  }

  /** A power of two is stripped to 1 at once, and the coefficient stays in range. */
  lemma {:induction false} PowerStripped(k: nat, d: int, m: int) returns (d': int)
    requires m % 2 == 1 && m > 0 && -m < d <= 1
    ensures StripOdd(Pow2(k), d, m) == (1, d') && -m < d' <= 1
  {
    d' := d;
    if k > 0 {
      var q := (if d % 2 == 1 then d - m else d) / 2;
      assert Pow2(k) == 2 * Pow2(k - 1);
      d' := PowerStripped(k - 1, q, m);
    }
  }

  /** For a power of two and an odd modulus the coefficient at the end is in (-m, 1]. */
  lemma PowerRounds(x: int, m: int)
    requires PowerOfTwo(x) && m % 2 == 1 && m > 0
    ensures x > 0 && OddRounds(m, x, 0, 1, m).0 == 1 && -m < OddRounds(m, x, 0, 1, m).1 <= 1
  {
    var k: nat :| x == Pow2(k);
    var d := PowerStripped(k, 1, m);
    assert StripOdd(m, 0, m) == (m, 0);
    OddRound(m, x, 0, 1, m, m, 0, 1, d);
    OneStays(m - 1, -d, d, m);
  }

  /** The correction steps, and what comes of a coefficient in (-m, 1]. */
  lemma SettleIs(X: int, d: int, m: int)
    requires m > 0
    ensures Cong(X * d, 1, m) ==> Cong(X * Settle(d, m), 1, m)
    ensures -m < d <= 1 ==> 0 <= Settle(d, m) < m
    ensures 0 <= Settle(d, m) < m <==> -2 * m <= d < 2 * m
  {
    if Cong(X * d, 1, m) {
      InverseShift(X, d, m, -1);
      InverseShift(X, d, m, 1);
      InverseShift(X, d, m, 2);
    }
  }

  /** if(d.compareTo(m) >= 0) return d.subtract(m); and so on */
  method Correct(d: BigInteger, m: BigInteger, ghost n: int, ghost M: int) returns (r: BigInteger)
    requires Is(d, n) && Is(m, M) && M > 0 && d != m
    modifies d
    ensures Is(r, Settle(n, M))
  {
    var order := Compare(d, m, n, M);
    if order >= 0 {
      r := Clone(d, n);
      Subtract(r, m, n, M);
      return;
    }
    var sign := Signum(d, n);
    if sign < 0 {
      Add(d, m, n, M);
    } else {
      return d;
    }
    sign := Signum(d, n + M);
    if sign < 0 {
      r := Clone(d, n + M);
      Add(r, m, n + M, M);
    } else {
      return d;
    }
  }

  /** What the last coefficient means. */
  lemma Finished(X: int, M: int, s: Numbers, r: (int, int))
    requires Ready(X, M, s) && s.u == 0 && X > 0 && SameDivisors(s.u, s.v, M, X) &&
      (M % 2 == 1 ==> GoesTo(s.u, s.v, s.b, s.d, M, r))
    requires M % 2 == 1 ==> r == OddRounds(M, X, 0, 1, M)
    requires (X == 1 ==> s.v == 1 && s.d == 1) && (PowerOfTwo(M) ==> Narrow(M, s))
    ensures s.v == 1 <==> IsGcd(1, X, M)
    ensures s.v == 1 ==> Cong(X * Settle(s.d, M), 1, M)
    ensures s.v == 1 && (PowerOfTwo(X) || PowerOfTwo(M)) ==> 0 <= Settle(s.d, M) < M
    ensures M % 2 == 1 ==> s.d == OddRounds(M, X, 0, 1, M).1
  {
    assert Peek(0);
    LastDivisors(s.v, M, X);
    if s.v == 1 { Inverse(X, s.d, M, s.c); }
    SettleIs(X, s.d, M);
    if PowerOfTwo(X) {
      if M % 2 == 1 { PowerRounds(X, M); } else { OddPower(X); }
    }
  }

  /** The rounds, until one number is zero; the other is the greatest common divisor. */
  method Rounds(x: BigInteger, m: BigInteger, ac: bool, u: BigInteger, v: BigInteger, a: BigInteger, b: BigInteger,
      c: BigInteger, d: BigInteger, ghost X: int, ghost M: int) returns (ghost s: Numbers)
    requires Held(x, m, ac, u, v, a, b, c, d, X, M, Numbers(M, X, 1, 0, 0, 1)) && (ac <==> M % 2 == 0) && M > 0 && X > 0
    requires X % 2 == 1 || M % 2 == 1
    modifies u, v, a, b, c, d
    ensures Held(x, m, ac, u, v, a, b, c, d, X, M, s)
    ensures s.v == 1 <==> IsGcd(1, X, M)
    ensures s.v == 1 ==> Cong(X * Settle(s.d, M), 1, M)
    ensures s.v == 1 && (PowerOfTwo(X) || PowerOfTwo(M)) ==> 0 <= Settle(s.d, M) < M
    ensures M % 2 == 1 ==> s.d == OddRounds(M, X, 0, 1, M).1
  {
    ghost var r := OddRounds(M, X, 0, 1, M);
    s := Numbers(M, X, 1, 0, 0, 1);
    var sign := Signum(u, s.u);
    while sign != 0
      invariant Held(x, m, ac, u, v, a, b, c, d, X, M, s) && Ready(X, M, s) && sign == Sign(s.u)
      invariant SameDivisors(s.u, s.v, M, X) && (M % 2 == 1 ==> GoesTo(s.u, s.v, s.b, s.d, M, r))
      invariant (X == 1 ==> s.v == 1 && s.d == 1) && (PowerOfTwo(M) ==> Narrow(M, s))
      decreases s.u + s.v
    {
      ghost var s0 := s;
      s := Round(x, m, ac, u, v, a, b, c, d, X, M, s, r);
      ChainDivisors(s.u, s.v, s0.u, s0.v, M, X);
      sign := Signum(u, s.u);
    }
    Finished(X, M, s, r);
  }

  /** What an answer has to be. */
  ghost predicate InverseOk(n: int, X: int, M: int)
    requires M > 0 && X > 0
  {
    && Cong(X * n, 1, M)
    && (PowerOfTwo(X) || PowerOfTwo(M) ==> 0 <= n < M)
    && (M % 2 == 1 ==> n == Settle(OddRounds(M, X, 0, 1, M).1, M))
  }

  method InverseOf(x: BigInteger, m: BigInteger, ghost X: int, ghost M: int) returns (r: BigInteger, ghost n: int)
    requires Is(x, X) && Is(m, M) && X > 0 && M >= 0
    ensures (M == 0 ==> Is(r, 0)) && (M > 0 && !IsGcd(1, X, M) ==> Is(r, 0))
    ensures M > 0 && IsGcd(1, X, M) ==> Is(r, n) && InverseOk(n, X, M)
  {
    n := 0;
    var ac := IsEven(m, M);
    var both := false;
    if ac { both := IsEven(x, X); }
    var sign := Signum(m, M);
    if both || sign == 0 {
      if both { BothEven(X, M); }
      r := Constant(0);
      return;
    }
    var u := Clone(m, M);
    var v := Clone(x, X);
    var a := Constant(1);
    var b := Constant(0);
    var c := Constant(0);
    var d := Constant(1);
    ghost var s := Rounds(x, m, ac, u, v, a, b, c, d, X, M);
    var one := Constant(1);
    var order := Compare(v, one, s.v, 1);
    if order != 0 {
      r := Constant(0);
      return;
    }
    r := Correct(d, m, s.d, M);
    n := Settle(s.d, M);
  }

  /**
    `bnModInverse`: an inverse of x modulo m when there is one, and 0 when there is none. It is
    reduced if x or m is a power of two; in general it need not lie in [0, m), see `NotReduced`. For odd
    m it is what `Settle` makes of the last coefficient, and reduced exactly if that lies in [-2m, 2m).
   */
  method ModInverse(x: BigInteger, m: BigInteger) returns (r: BigInteger)
    requires x.Valid() && x.Clamped() && x.Value() > 0 && m.Valid() && m.Clamped() && m.Value() >= 0
    ensures r.Valid() && r.Clamped()
    ensures m.Value() == 0 ==> r.Value() == 0
    ensures m.Value() > 0 && IsGcd(1, x.Value(), m.Value()) ==> Cong(x.Value() * r.Value(), 1, m.Value())
    ensures m.Value() > 0 && !IsGcd(1, x.Value(), m.Value()) ==> r.Value() == 0
    ensures m.Value() > 0 && (PowerOfTwo(x.Value()) || PowerOfTwo(m.Value())) ==> 0 <= r.Value() < m.Value()
    ensures m.Value() % 2 == 1 && IsGcd(1, x.Value(), m.Value()) ==>
      r.Value() == Settle(OddRounds(m.Value(), x.Value(), 0, 1, m.Value()).1, m.Value())
    ensures m.Value() % 2 == 1 && IsGcd(1, x.Value(), m.Value()) ==>
      (0 <= r.Value() < m.Value() <==>
        -2 * m.Value() <= OddRounds(m.Value(), x.Value(), 0, 1, m.Value()).1 < 2 * m.Value())
  {
    ghost var X, M := x.Value(), m.Value();
    ghost var n;
    r, n := InverseOf(x, m, X, M);
    if M % 2 == 1 { SettleIs(X, OddRounds(M, X, 0, 1, M).1, M); }
    assert Peek(0);
  }
}
