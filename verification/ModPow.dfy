/**
  `bnModPow` in jni/v8core/v8/benchmarks/crypto.js: sliding-window exponentiation under any of the
  three reducers, on a table of numbers and two result buffers that change places.
*/
module Exponentiation {
  import opened Digits
  import opened BigIntegers
  import opened Modular
  import opened ExponentWindows
  import Squaring
  import Montgomery
  import Barrett
  import Reducers

  /** To mention it makes the definition of Does available, which keeps it out of proofs that have no use for it. */
  ghost predicate Look(u: int) { true }

  /** The reducers; each has `convert`, `revert`, `mulTo` and `sqrTo`. */
  datatype Engine =
    | Classic(modulus: BigInteger)
    | WithBarrett(barrett: Barrett.Reducer)
    | WithMontgomery(montgomery: Montgomery.Reducer)
  {
    function M(): BigInteger {
      match this
      case Classic(m) => m
      case WithBarrett(z) => z.m
      case WithMontgomery(z) => z.m
    }

    /** What the reducer reads and nobody writes. */
    ghost function Fixed(): set<BigInteger> {
      match this
      case Classic(m) => {m}
      case WithBarrett(z) => {z.m, z.mu}
      case WithMontgomery(z) => {z.m}
    }

    /** The reducer's own buffers. */
    ghost function Scratch(): set<BigInteger> {
      match this
      case WithBarrett(z) => {z.r2, z.q3}
      case _ => {}
    }

    ghost predicate Ready()
      reads Fixed()
    {
      && Fixed() !! Scratch()
      && M().Valid() && M().Clamped() && M().s == 0 && M().t > 0 && M().Value() > 0
      && match this
      case Classic(_) => true
      case WithBarrett(z) => z.Ready() && z.m.t + 3 <= B
      case WithMontgomery(z) => z.Ready()
    }

    /** What it does with numbers. */
    ghost function Abs(): (A: Reducer)
      requires Ready()
      reads Fixed()
    {
      var m := M().Value();
      match this
      case WithMontgomery(z) => Reducer(m, Pow2(DIGIT_BITS * z.m.t), HalfPow(m, DIGIT_BITS * z.m.t))
      case _ => Reducer(m, 1, 1)
    }

    /** It is ready, and rep tells which residue modulo m stands for a number. */
    ghost predicate Does(m: int, rep: Residues)
      reads Fixed()
    {
      Fixed() !! Scratch() && forall u {:trigger Look(u)} :: Look(u) ==>
        Ready() && m == M().Value() && forall e {:trigger Residue(rep, e)} :: Residue(rep, e) == Abs().Convert(e)
    }
  }

  /** The residue that stands for each number. */
  type Residues = imap<int, int>

  ghost function Residue(rep: Residues, e: int): int {
    if e in rep then rep[e] else 0
  }

  lemma AbsOk(z: Engine)
    requires z.Ready()
    ensures z.Abs().Ok()
  {
    match z {
      case WithMontgomery(y) =>
        Reducers.OddValue(y.m);
        HalfPowInverts(y.m.Value(), DIGIT_BITS * y.m.t);
      case _ => CongIntro(1, 1, z.M().Value(), 0);
    }
  }

  /** x is the residue that stands for e. */
  ghost predicate Holds(rep: Residues, x: BigInteger, e: int)
    reads x
  {
    x.Valid() && x.Clamped() && x.Value() == Residue(rep, e)
  }

  /** The reducer on a product u * v. */
  method ReduceProduct(z: Engine, r: BigInteger, ghost A: Reducer, ghost u: int, ghost v: int)
    requires z.Ready() && z.Fixed() !! z.Scratch() && A == z.Abs() && r !in z.Fixed() && r !in z.Scratch()
    requires r.Valid() && r.Clamped() && r.Value() == u * v && 0 <= u < A.m && 0 <= v < A.m
    modifies {r} + z.Scratch()
    ensures z.Ready() && z.Abs() == A && r.Valid() && r.Clamped() && r.Value() == A.Mul(u, v)
  {
    Magnitude(z.M());
    Reducers.ProductFits(u, v, A.m, Pow(z.M().t));
    match z {
      case Classic(m) =>
        SignOfValue(r);
        Reducers.ClassicReduce(r, m);
      case WithBarrett(y) => Reducers.BarrettProduct(y, r, u, v);
      case WithMontgomery(y) => Reducers.MontgomeryProduct(y, r, u, v);
    }
  }

  /** The residues of p and q, multiplied, become that of their product. */
  lemma ProductStands(A: Reducer, p: int, q: int)
    requires A.Ok()
    ensures A.Mul(A.Convert(p), A.Convert(q)) == A.Convert(p * q)
    ensures 0 <= A.Convert(p) < A.m
  {
    A.ConvertRep(p);
    A.ConvertRep(q);
    A.MulRep(A.Convert(p), p, A.Convert(q), q);
    DivMod(p * A.scale, A.m);
    var u := A.Mul(A.Convert(p), A.Convert(q));
    DivMod(A.Convert(p) * A.Convert(q) * A.unscale, A.m);
    CongSame(u, p * q * A.scale, A.m);
    SmallResidue(u, A.m);
  }

  /** The numbers of z, and what multiplying them gives. */
  lemma ResidueProduct(z: Engine, m: int, rep: Residues, p: int, q: int) returns (A: Reducer)
    requires z.Does(m, rep)
    ensures z.Ready() && A == z.Abs() && A.m == m > 0
    ensures 0 <= Residue(rep, p) < m && 0 <= Residue(rep, q) < m &&
      A.Mul(Residue(rep, p), Residue(rep, q)) == Residue(rep, p * q)
  {
    assert Look(0);
    A := z.Abs();
    AbsOk(z);
    ProductStands(A, p, q);
    ProductStands(A, q, p);
  }

  /** mulTo; x, y != r */
  method MulTo(z: Engine, x: BigInteger, y: BigInteger, r: BigInteger, ghost m: int, ghost rep: Residues,
      ghost p: int, ghost q: int)
    requires z.Does(m, rep) && Holds(rep, x, p) && Holds(rep, y, q)
    requires r !in z.Fixed() && r !in z.Scratch() && r != x && r != y
    modifies {r} + z.Scratch()
    ensures z.Does(m, rep) && Holds(rep, r, p * q)
  {
    ghost var A := ResidueProduct(z, m, rep, p, q);
    x.MultiplyTo(y, r);
    ReduceProduct(z, r, A, Residue(rep, p), Residue(rep, q));
  }

  /** sqrTo; x != r */
  method SqrTo(z: Engine, x: BigInteger, r: BigInteger, ghost m: int, ghost rep: Residues, ghost p: int)
    requires z.Does(m, rep) && Holds(rep, x, p)
    requires r !in z.Fixed() && r !in z.Scratch() && r != x
    modifies {r} + z.Scratch()
    ensures z.Does(m, rep) && Holds(rep, r, p * p)
  {
    ghost var A := ResidueProduct(z, m, rep, p, p);
    Squaring.SquareTo(x, r);
    ReduceProduct(z, r, A, Residue(rep, p), Residue(rep, p));
  }

  /** convert; Classic and Barrett return a number that is a residue already as it is */
  method Convert(z: Engine, x: BigInteger, ghost m: int, ghost rep: Residues) returns (r: BigInteger)
    requires z.Does(m, rep) && x.Valid() && x.Clamped() && x !in z.Scratch()
    modifies z.Scratch()
    ensures z.Does(m, rep) && (r == x || fresh(r)) && Holds(rep, r, old(x.Value()))
  {
    ghost var X := x.Value();
    ghost var A := ResidueProduct(z, m, rep, X, X);
    IsConverted(z, m, rep, A, X);
    match z {
      case Classic(modulus) => r := ClassicConvert(x, modulus);
      case WithBarrett(y) => r := BarrettConvert(y, x);
      case WithMontgomery(y) => r := Reducers.MontgomeryConvert(y, x);
    }
  }

  /** What convert computes. */
  lemma IsConverted(z: Engine, m: int, rep: Residues, A: Reducer, x: int)
    requires z.Does(m, rep) && z.Ready() && A == z.Abs()
    ensures z.M().Value() == m > 0
    ensures match z {
      case WithMontgomery(y) => Residue(rep, x) == x * Pow(y.m.t) % m
      case _ => Residue(rep, x) == x % m
    }
  {
    assert Look(0);
    if z.WithMontgomery? { PowPow2(z.montgomery.m.t); }
  }

  /** cConvert */
  method ClassicConvert(x: BigInteger, m: BigInteger) returns (r: BigInteger)
    requires x.Valid() && x.Clamped() && m.Valid() && m.Clamped() && m.s == 0 && m.Value() > 0
    ensures (r == x || fresh(r)) && r.Valid() && r.Clamped() && r.Value() == x.Value() % m.Value()
  {
    SignOfValue(x);
    var c := 0;
    if x.s >= 0 { c := x.CompareTo(m); }
    if x.s < 0 || c >= 0 {
      r := Reducers.Mod(x, m);
    } else {
      SmallResidue(x.Value(), m.Value());
      r := x;
    }
  }

  lemma SmallResidue(x: int, m: int)
    requires 0 <= x < m
    ensures x % m == x
  {
  }

  /** barrettConvert */
  method BarrettConvert(z: Barrett.Reducer, x: BigInteger) returns (r: BigInteger)
    requires z.Ready() && z.m.t + 3 <= B && z.m.Value() > 0 && x.Valid() && x.Clamped() && x != z.r2 && x != z.q3
    modifies z.r2, z.q3
    ensures (r == x || fresh(r)) && r.Valid() && r.Clamped() && r.Value() == old(x.Value()) % z.m.Value()
  {
    SignOfValue(x);
    if x.s < 0 || x.t > 2 * z.m.t {
      r := Reducers.Mod(x, z.m);
      return;
    }
    var c := x.CompareTo(z.m);
    if c < 0 {
      SmallResidue(x.Value(), z.m.Value());
      r := x;
    } else {
      r := new BigInteger();
      x.CopyTo(r);
      z.Reduce(r);
    }
  }

  /** revert */
  method Revert(z: Engine, x: BigInteger, ghost m: int, ghost rep: Residues, ghost e: int) returns (r: BigInteger)
    requires z.Does(m, rep) && Holds(rep, x, e)
    ensures r.Valid() && r.Clamped() && m > 0 && r.Value() == e % m
  {
    ghost var A := ResidueProduct(z, m, rep, e, e);
    Reverted(z, m, rep, A, e);
    match z {
      case WithMontgomery(y) =>
        r := new BigInteger();
        x.CopyTo(r);
        Magnitude(y.m);
        MulMono(1, Pow(y.m.t), m);
        Reducers.MontgomeryProduct(y, r, Residue(rep, e), 1);
      case _ =>
        r := x;
    }
  }

  /** What revert computes. */
  lemma Reverted(z: Engine, m: int, rep: Residues, A: Reducer, e: int)
    requires z.Does(m, rep) && z.Ready() && A == z.Abs() && A.m == m > 0 && 0 <= Residue(rep, e) < m
    ensures A.Mul(Residue(rep, e), 1) == e % m && (!z.WithMontgomery? ==> Residue(rep, e) == e % m)
  {
    assert Look(0);
    AbsOk(z);
    A.ConvertRep(e);
    A.RevertRep(Residue(rep, e), e);
  }

  type Table = map<int, BigInteger>

  /** The odd powers of the base: g[n] stands for b^n for every odd n up to top. */
  ghost predicate OddPowers(rep: Residues, g: Table, b: int, top: int)
    reads g.Values
  {
    forall n {:trigger n in g} :: 0 < n <= top && n % 2 == 1 ==> n in g && Holds(rep, g[n], Exp(b, n))
  }

  /** The table's numbers are none of these. */
  ghost predicate Outside(g: Table, buffers: set<BigInteger>) {
    forall n {:trigger n in g} :: n in g ==> g[n] !in buffers
  }

  /** e2 is the square of b; hidden like Does. */
  ghost predicate Squared(b: int, e2: int) {
    forall u {:trigger Look(u)} :: Look(u) ==> e2 == Exp(b, 2)
  }

  lemma SquareIs(b: int)
    ensures Squared(b, b * b)
  {
    assert Exp(b, 2) == b * Exp(b, 1) && Exp(b, 1) == b * Exp(b, 0);
  }

  /** One more power. */
  lemma MorePowers(rep: Residues, g: Table, x: BigInteger, b: int, n: int, e2: int)
    requires n >= 3 && n % 2 == 1 && OddPowers(rep, g, b, n - 2) && Squared(b, e2) && Holds(rep, x, e2 * Exp(b, n - 2))
    ensures OddPowers(rep, g[n := x], b, n)
  {
    assert Look(0);
    ExpAdd(b, 2, n - 2);
    var g' := g[n := x];
    forall l | 0 < l <= n && l % 2 == 1 ensures l in g' && Holds(rep, g'[l], Exp(b, l)) {
      if l != n { assert l in g; }
    }
  }

  /** The next odd power. */
  method NextPower(z: Engine, g: Table, g2: BigInteger, n: int, ghost m: int, ghost rep: Residues, ghost b: int,
      ghost e2: int) returns (gn: BigInteger)
    requires z.Does(m, rep) && n - 2 in g && n >= 3 && Holds(rep, g[n - 2], Exp(b, n - 2)) && Holds(rep, g2, e2)
    modifies z.Scratch()
    ensures z.Does(m, rep) && fresh(gn) && Holds(rep, gn, e2 * Exp(b, n - 2))
  {
    gn := new BigInteger();
    MulTo(z, g2, g[n - 2], gn, m, rep, e2, Exp(b, n - 2));
  }

  /** The base itself, which may be the first number of the table. */
  method FirstPower(z: Engine, b: BigInteger, ghost m: int, ghost rep: Residues) returns (g: Table)
    requires z.Does(m, rep) && b.Valid() && b.Clamped() && b !in z.Scratch()
    modifies z.Scratch()
    ensures z.Does(m, rep) && OddPowers(rep, g, old(b.Value()), 1) && 1 in g && Holds(rep, g[1], old(b.Value()))
    ensures forall n {:trigger n in g} :: n in g ==> g[n] == b || fresh(g[n])
  {
    var first := Convert(z, b, m, rep);
    g := map[1 := first];
    assert Exp(old(b.Value()), 1) == old(b.Value()) * Exp(old(b.Value()), 0);
  }

  /** The table of odd powers up to km = 2^k - 1. */
  method Precompute(z: Engine, b: BigInteger, k: nat, km: int, ghost m: int, ghost rep: Residues) returns (g: Table)
    requires z.Does(m, rep) && b.Valid() && b.Clamped() && b !in z.Scratch() && km % 2 == 1 &&
      (k == 1 ==> km == 1)
    requires k > 1 ==> km >= 3
    requires k > 0
    modifies z.Scratch()
    ensures z.Does(m, rep) && OddPowers(rep, g, old(b.Value()), km)
    ensures forall n {:trigger n in g} :: n in g ==> g[n] == b || fresh(g[n])
  {
    ghost var X := b.Value();
    g := FirstPower(z, b, m, rep);
    if k > 1 {
      var g2 := new BigInteger();
      SqrTo(z, g[1], g2, m, rep, X);
      SquareIs(X);
      g := OddTable(z, g, g2, km, m, rep, X, X * X);
    }
  }

  /** The table with the next odd power. */
  method LongerTable(z: Engine, g: Table, g2: BigInteger, n: int, ghost m: int, ghost rep: Residues, ghost X: int,
      ghost e2: int) returns (g': Table)
    requires z.Does(m, rep) && n >= 3 && n % 2 == 1 && OddPowers(rep, g, X, n - 2) && Squared(X, e2) &&
      Holds(rep, g2, e2)
    requires Outside(g, z.Scratch())
    modifies z.Scratch()
    ensures z.Does(m, rep) && OddPowers(rep, g', X, n) && n in g' && fresh(g'[n]) && g' == g[n := g'[n]]
  {
    assert n - 2 in g;
    var gn := NextPower(z, g, g2, n, m, rep, X, e2);
    forall l | 0 < l <= n - 2 && l % 2 == 1 ensures l in g && Holds(rep, g[l], Exp(X, l)) {
      assert l in g && g[l] !in z.Scratch();
    }
    MorePowers(rep, g, gn, X, n, e2);
    g' := g[n := gn];
  }

  /** The powers from the third on. */
  method OddTable(z: Engine, g0: Table, g2: BigInteger, km: int, ghost m: int, ghost rep: Residues, ghost X: int,
      ghost e2: int) returns (g: Table)
    requires z.Does(m, rep) && km % 2 == 1 && km >= 3 && OddPowers(rep, g0, X, 1) && Squared(X, e2) &&
      Holds(rep, g2, e2)
    requires g2 !in z.Scratch() && Outside(g0, z.Scratch())
    modifies z.Scratch()
    ensures z.Does(m, rep) && OddPowers(rep, g, X, km)
    ensures forall n {:trigger n in g} :: n in g ==> (n in g0 && g[n] == g0[n]) || fresh(g[n])
  {
    var n := 3;
    g := g0;
    while n <= km
      invariant n >= 3 && n % 2 == 1 && n <= km + 2 && OddPowers(rep, g, X, n - 2)
      invariant z.Does(m, rep) && Holds(rep, g2, e2)
      invariant forall l {:trigger l in g} :: l in g ==> (l in g0 && g[l] == g0[l]) || fresh(g[l])
    {
      g := LongerTable(z, g, g2, n, m, rep, X, e2);
      n := n + 2;
    }
  }

  /** (1 << k) - 1 */
  lemma Mask(k: nat)
    requires k > 0
    ensures (Pow2(k) - 1) % 2 == 1 && (k == 1 ==> Pow2(k) - 1 == 1) && (k > 1 ==> Pow2(k) - 1 >= 3)
  {
    assert Pow2(k) == 2 * Pow2(k - 1);
    if k > 1 { assert Pow2(k - 1) == 2 * Pow2(k - 2); }
  }

  /** Two result buffers, apart from everything that is still needed. */
  ghost predicate Buffers(z: Engine, e: BigInteger, g: Table, r: BigInteger, r2: BigInteger) {
    && r != r2 && {r, r2} !! z.Fixed() && {r, r2} !! z.Scratch() && e !in {r, r2} && e !in z.Scratch()
    && Outside(g, {r, r2} + z.Scratch())
  }

  /** n squarings, two at a time through the second buffer, and a multiplication. */
  method ApplyWindow(z: Engine, r0: BigInteger, s0: BigInteger, n0: nat, gw: BigInteger, ghost m: int,
      ghost rep: Residues, ghost b: int, ghost t: nat, ghost w: nat) returns (r: BigInteger, r2: BigInteger)
    requires z.Does(m, rep) && Holds(rep, r0, Exp(b, t)) && Holds(rep, gw, Exp(b, w))
    requires r0 != s0 && {r0, s0} !! z.Fixed() && {r0, s0} !! z.Scratch() && gw !in {r0, s0} && gw !in z.Scratch()
    modifies {r0, s0} + z.Scratch()
    ensures z.Does(m, rep) && (r, r2) in {(r0, s0), (s0, r0)} && Holds(rep, r, Exp(b, t * Pow2(n0) + w))
  {
    r, r2 := r0, s0;
    var n := n0;
    ghost var u: nat := t;
    assert Pow2(0) == 1;
    while n > 1
      invariant 0 <= n <= n0 && u * Pow2(n) == t * Pow2(n0) && z.Does(m, rep)
      invariant r == r0 && r2 == s0 && Holds(rep, r, Exp(b, u)) && Holds(rep, gw, Exp(b, w))
    {
      SqrTo(z, r, r2, m, rep, Exp(b, u));
      ExpAdd(b, u, u);
      SqrTo(z, r2, r, m, rep, Exp(b, 2 * u));
      ExpAdd(b, 2 * u, 2 * u);
      FourTimes(u, n);
      u := 4 * u;
      n := n - 2;
    }
    if n > 0 {
      SqrTo(z, r, r2, m, rep, Exp(b, u));
      ExpAdd(b, u, u);
      u := 2 * u;
    } else {
      r, r2 := r2, r;
    }
    MulTo(z, r2, gw, r, m, rep, Exp(b, u), Exp(b, w));
    ExpAdd(b, u, w);
  }

  /** What is known after reading the exponent down to place p. */
  ghost predicate ReadTo(rep: Residues, r: BigInteger, b: int, e: nat, p: int, is1: bool)
    requires p >= -1
    reads r
  {
    if is1 then Above(e, p + 1) == 0 else Holds(rep, r, Exp(b, Above(e, p + 1)))
  }

  /** g[w].copyTo(r) */
  method CopyPower(x: BigInteger, r: BigInteger, ghost m: int, ghost rep: Residues, ghost e: int)
    requires Holds(rep, x, e)
    modifies r
    ensures Holds(rep, r, e)
  {
    x.CopyTo(r);
  }

  /** if(is1) g[w].copyTo(r); else n squarings and a multiplication. */
  method UseWindow(z: Engine, r0: BigInteger, s0: BigInteger, n: nat, gw: BigInteger, is1: bool, ghost m: int,
    ghost rep: Residues, ghost b: int, ghost u: nat, ghost w: nat, ghost v: nat)
    returns (r: BigInteger, r2: BigInteger)
    requires z.Does(m, rep) && (if is1 then u == 0 else Holds(rep, r0, Exp(b, u))) && Holds(rep, gw, Exp(b, w))
    requires r0 != s0 && {r0, s0} !! z.Fixed() && {r0, s0} !! z.Scratch() && gw !in {r0, s0} && gw !in z.Scratch()
    requires v == u * Pow2(n) + w
    modifies {r0, s0} + z.Scratch()
    ensures z.Does(m, rep) && (r, r2) in {(r0, s0), (s0, r0)} && Holds(rep, r, Exp(b, v))
  {
    if is1 {
      r, r2 := r0, s0;
      CopyPower(gw, r, m, rep, Exp(b, w));
    } else {
      r, r2 := ApplyWindow(z, r0, s0, n, gw, m, rep, b, u, w);
    }
  }

  /** One window of the exponent, of n bits. */
  method TakeWindow(z: Engine, e: BigInteger, j: int, i: int, k: nat, g: Table, r0: BigInteger, s0: BigInteger,
      is1: bool, ghost m: int, ghost rep: Residues, ghost b: int) returns (r: BigInteger, r2: BigInteger, n: nat)
    requires z.Does(m, rep) && e.Valid() && 0 <= j < e.t && 0 <= i < DIGIT_BITS && 0 < k <= 6
    requires OddPowers(rep, g, b, Pow2(k) - 1) && Buffers(z, e, g, r0, s0)
    requires V(e.a, 0, e.t) >= 0 && ReadTo(rep, r0, b, V(e.a, 0, e.t), DIGIT_BITS * j + i, is1)
    requires e.a[j] / Pow2(i) % 2 == 1
    modifies {r0, s0} + z.Scratch()
    ensures z.Does(m, rep) && (r, r2) in {(r0, s0), (s0, r0)} && 0 < n <= k && n <= DIGIT_BITS * j + i + 1
    ensures V(e.a, 0, e.t) >= 0 && ReadTo(rep, r, b, V(e.a, 0, e.t), DIGIT_BITS * j + i - n, false)
  {
    ghost var E, p := V(e.a, 0, e.t), DIGIT_BITS * j + i;
    var w;
    w, n := NextWindow(e, j, i, k);
    ghost var u, v := Above(E, p + 1), Above(E, p - n + 1);
    assert w in g && g[w] !in {r0, s0} && g[w] !in z.Scratch() && Holds(rep, g[w], Exp(b, w));
    r, r2 := UseWindow(z, r0, s0, n, g[w], is1, m, rep, b, u, w, v);
  }

  /** while(j >= 0 && (e_array[j]&(1<<i)) == 0) { square; the buffers change places; step down } */
  method SkipZeros(z: Engine, e: BigInteger, j0: int, i0: int, r0: BigInteger, s0: BigInteger, ghost m: int,
      ghost rep: Residues, ghost b: int) returns (r: BigInteger, r2: BigInteger, j: int, i: int)
    requires z.Does(m, rep) && r0 != s0 && {r0, s0} !! z.Fixed() && {r0, s0} !! z.Scratch() && e !in {r0, s0} &&
      e !in z.Scratch()
    requires e.Valid() && -1 <= j0 < e.t && 0 <= i0 < DIGIT_BITS && (j0 == -1 ==> i0 == DIGIT_BITS - 1)
    requires V(e.a, 0, e.t) >= 0 && ReadTo(rep, r0, b, V(e.a, 0, e.t), DIGIT_BITS * j0 + i0, false)
    modifies {r0, s0} + z.Scratch()
    ensures z.Does(m, rep) && (r, r2) in {(r0, s0), (s0, r0)}
    ensures -1 <= j < e.t && 0 <= i < DIGIT_BITS && (j == -1 ==> i == DIGIT_BITS - 1)
    ensures DIGIT_BITS * j + i <= DIGIT_BITS * j0 + i0
    ensures V(e.a, 0, e.t) >= 0 && ReadTo(rep, r, b, V(e.a, 0, e.t), DIGIT_BITS * j + i, false)
    ensures j >= 0 ==> e.a[j] / Pow2(i) % 2 == 1
  {
    r, r2, j, i := r0, s0, j0, i0;
    ghost var E := V(e.a, 0, e.t);
    while j >= 0 && e.a[j] / Pow2(i) % 2 == 0
      invariant z.Does(m, rep) && (r, r2) in {(r0, s0), (s0, r0)}
      invariant -1 <= j < e.t && 0 <= i < DIGIT_BITS && (j == -1 ==> i == DIGIT_BITS - 1)
      invariant DIGIT_BITS * j + i <= DIGIT_BITS * j0 + i0
      invariant ReadTo(rep, r, b, E, DIGIT_BITS * j + i, false)
      decreases DIGIT_BITS * j + i
    {
      ghost var p := DIGIT_BITS * j + i;
      TestBit(e.a, e.t, j, i);
      PrefixStep(E, p);
      ExpAdd(b, Above(E, p + 1), Above(E, p + 1));
      SqrTo(z, r, r2, m, rep, Exp(b, Above(E, p + 1)));
      r, r2 := r2, r;
      i := i - 1;
      if i < 0 {
        i, j := DIGIT_BITS - 1, j - 1;
      }
    }
  }

  /** Where the reading of the exponent is: at a set bit of e, or at the end. */
  ghost predicate At(e: BigInteger, j: int, i: int, is1: bool)
    reads e
  {
    && e.Valid() && V(e.a, 0, e.t) >= 0 && -1 <= j < e.t && 0 <= i < DIGIT_BITS &&
      (j == -1 ==> i == DIGIT_BITS - 1 && !is1)
    && (j >= 0 ==> e.a[j] / Pow2(i) % 2 == 1)
  }

  /** A window, and the zeros behind it. */
  method ReadStep(z: Engine, e: BigInteger, g: Table, k: nat, j0: int, i0: int, r0: BigInteger, s0: BigInteger,
      is1: bool, ghost m: int, ghost rep: Residues,
    ghost b: int) returns (r: BigInteger, r2: BigInteger, j: int, i: int)
    requires z.Does(m, rep) && 0 < k <= 6 && OddPowers(rep, g, b, Pow2(k) - 1) && Buffers(z, e, g, r0, s0)
    requires At(e, j0, i0, is1) && j0 >= 0 && ReadTo(rep, r0, b, V(e.a, 0, e.t), DIGIT_BITS * j0 + i0, is1)
    modifies {r0, s0} + z.Scratch()
    ensures z.Does(m, rep) && (r, r2) in {(r0, s0), (s0, r0)}
    ensures At(e, j, i, false) && DIGIT_BITS * j + i < DIGIT_BITS * j0 + i0
    ensures ReadTo(rep, r, b, V(e.a, 0, e.t), DIGIT_BITS * j + i, false)
  {
    var n;
    r, r2, n := TakeWindow(z, e, j0, i0, k, g, r0, s0, is1, m, rep, b);
    j, i := j0, i0 - n;
    if i < 0 {
      i, j := i + DIGIT_BITS, j - 1;
    }
    r, r2, j, i := SkipZeros(z, e, j, i, r, r2, m, rep, b);
  }

  /** The exponent read window by window, down from its highest bit. */
  method ReadExponent(z: Engine, e: BigInteger, g: Table, k: nat, n: nat, r0: BigInteger, s0: BigInteger,
      ghost m: int, ghost rep: Residues, ghost b: int) returns (r: BigInteger)
    requires z.Does(m, rep) && e.Valid() && e.t > 0 && 0 < k <= 6
    requires OddPowers(rep, g, b, Pow2(k) - 1) && Buffers(z, e, g, r0, s0)
    requires DIGIT_BITS * (e.t - 1) < n <= DIGIT_BITS * e.t
    requires V(e.a, 0, e.t) >= 0 && Above(V(e.a, 0, e.t), n - 1) == 1
    modifies {r0, s0} + z.Scratch()
    ensures z.Does(m, rep)
    ensures V(e.a, 0, e.t) >= 0 && Holds(rep, r, Exp(b, V(e.a, 0, e.t)))
  {
    ghost var E := V(e.a, 0, e.t);
    var j, i, is1 := e.t - 1, n - 1 - DIGIT_BITS * (e.t - 1), true;
    TestBit(e.a, e.t, j, i);
    PrefixStep(E, n - 1);
    var r2;
    r, r2 := r0, s0;
    while j >= 0
      invariant z.Does(m, rep) && (r, r2) in {(r0, s0), (s0, r0)} && OddPowers(rep, g, b, Pow2(k) - 1)
      invariant At(e, j, i, is1) && ReadTo(rep, r, b, E, DIGIT_BITS * j + i, is1)
      decreases DIGIT_BITS * j + i
    {
      r, r2, j, i := ReadStep(z, e, g, k, j, i, r, r2, is1, m, rep, b);
      is1 := false;
    }
    assert Pow2(0) == 1;
  }

  /** The reducer that the bit length of the exponent and the parity of m select. */
  method Choose(bits: nat, m: BigInteger) returns (z: Engine, ghost rep: Residues)
    requires m.Valid() && m.Clamped() && m.s == 0 && m.t > 0 && (m.a[0] % 2 == 0 ==> m.t + 3 <= B)
    ensures z.Does(m.Value(), rep) && z.M() == m && fresh(z.Fixed() - {m}) && fresh(z.Scratch()) && m.Value() > 0
  {
    SignOfValue(m);
    Magnitude(m);
    if bits < 8 {
      z := Classic(m);
    } else if m.a[0] % 2 == 0 {
      var barrett := new Barrett.Reducer(m);
      z := WithBarrett(barrett);
    } else {
      var montgomery := new Montgomery.Reducer(m);
      z := WithMontgomery(montgomery);
    }
    ghost var A := z.Abs();
    rep := imap e: int | true :: A.Convert(e);
  }

  /**
    b^e mod m for e > 0.  For e = 0 the source answers 1 before it looks at m, which is right
    unless m = 1.
   */
  method ModPow(b: BigInteger, e: BigInteger, m: BigInteger) returns (res: BigInteger)
    requires b.Valid() && b.Clamped()
    requires e.Valid() && e.Clamped() && e.s == 0
    requires m.Valid() && m.Clamped() && m.s == 0 && m.t > 0 && (m.a[0] % 2 == 0 ==> m.t + 3 <= B)
    ensures res.Valid() && res.Clamped() && e.Value() >= 0 && m.Value() > 0
    ensures e.Value() > 0 ==> res.Value() == Exp(b.Value(), e.Value()) % m.Value()
    ensures e.Value() == 0 ==> res.Value() == 1
  {
    SignOfValue(e);
    Magnitude(e);
    SignOfValue(m);
    Magnitude(m);
    var n := BitLength(e);
    var r := new BigInteger();
    var _ := r.FromInt(1);
    if n <= 0 { return r; }
    var z;
    ghost var rep;
    z, rep := Choose(n, m);
    res := Power(z, b, e, n, r, m.Value(), rep);
  }

  /** b^e under the reducer. */
  method Power(z: Engine, b: BigInteger, e: BigInteger, n: nat, r0: BigInteger, ghost m: int, ghost rep: Residues)
      returns (res: BigInteger)
    requires z.Does(m, rep) && b.Valid() && b.Clamped() && b !in z.Scratch()
    requires e.Valid() && e.s == 0 && e.t > 0 && DIGIT_BITS * (e.t - 1) < n <= DIGIT_BITS * e.t && e !in z.Scratch()
    requires V(e.a, 0, e.t) >= 0 && Above(V(e.a, 0, e.t), n - 1) == 1
    requires r0 !in z.Fixed() && r0 !in z.Scratch() && r0 != b && r0 != e
    modifies {r0} + z.Scratch()
    ensures res.Valid() && res.Clamped() && m > 0 && V(old(e.a), 0, old(e.t)) >= 0
    ensures res.Value() == Exp(old(b.Value()), V(old(e.a), 0, old(e.t))) % m
  {
    ghost var X := b.Value();
    var k := WindowSize(n);
    Mask(k);
    var g := Precompute(z, b, k, Pow2(k) - 1, m, rep);
    var r2 := new BigInteger();
    var r := ReadExponent(z, e, g, k, n, r0, r2, m, rep, X);
    res := Revert(z, r, m, rep, Exp(X, V(e.a, 0, e.t)));
  }
}
