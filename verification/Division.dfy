/**
  `bnpDivRemTo` in jni/v8core/v8/benchmarks/crypto.js: long division with an estimated quotient
  digit.  The divisor is replaced by B^ys - Y, so that adding qd times it both subtracts
  qd * Y and leaves qd in the digit above.
*/
module Division {
  import opened Digits
  import opened BigIntegers

  const F1: int := 0x100_0000           // 1 << BI_F1
  const FV: int := 0x10_0000_0000_0000  // BI_FV
  const E: int := 16                    // 1 << BI_F2

  /** The divisor's leading digits as the estimate sees them. */
  function LeadingDivisor(y0: int, y1: int): int {
    y0 * F1 + y1 / E
  }

  /** The quotient-digit estimate, in exact rationals: floor(r1*d1 + (r0+e)*d2). */
  function Estimate(r1: int, r0: int, y0: int, yt: int): int
    requires yt > 0
  {
    if r1 == y0 then B - 1 else (r1 * FV + (r0 + E) * F1) / yt
  }

  lemma DivBounds(x: int, p: int)
    requires p > 0
    ensures x / p * p <= x < (x / p + 1) * p
  {
  }

  /** An estimated digit never exceeds the base. */
  lemma EstimateAtMostBase(r1: int, r0: int, y0: int, y1: int)
    requires B / 2 <= y0 < B && 0 <= y1 < B && 0 <= r1 <= y0 && 0 <= r0 < B
    ensures LeadingDivisor(y0, y1) > 0
    ensures 0 <= Estimate(r1, r0, y0, LeadingDivisor(y0, y1)) <= B
  {
    var yt := LeadingDivisor(y0, y1);
    if r1 < y0 {
      var num := r1 * FV + (r0 + E) * F1;
      DivBounds(num, yt);
      assert num < (B + 1) * (y0 * F1);
      MulMono(y0 * F1, yt, B + 1);
      if num / yt > B { MulMono(B + 1, num / yt, yt); }
      if num / yt < 0 { MulMono(num / yt + 1, 0, yt); }
    }
  }

  /** The estimate is never too small: one more multiple of the divisor exceeds the dividend. */
  lemma EstimateNotTooSmall(r1: int, r0: int, y0: int, y1: int, p: nat, w: int, y: int)
    requires p > 0 && B / 2 <= y0 < B && 0 <= y1 < B && 0 <= r1 < y0 && 0 <= r0 < B
    requires w < (r1 * B * B + (r0 + 1) * B) * p
    requires y >= (y0 * B + y1) * p
    ensures LeadingDivisor(y0, y1) > 0
    ensures (Estimate(r1, r0, y0, LeadingDivisor(y0, y1)) + 1) * y > w
  {
    var yt := LeadingDivisor(y0, y1);
    var num := r1 * FV + (r0 + E) * F1;
    var qd := num / yt;
    EstimateAtMostBase(r1, r0, y0, y1);
    DivBounds(num, yt);
    assert (qd + 1) * yt >= num + 1;
    MulMono(E * yt, y0 * B + y1, p);
    MulMono(E * yt * p, y, qd + 1);
    assert (qd + 1) * (E * yt * p) == E * ((qd + 1) * yt) * p by {
      MulAssoc(qd + 1, E * yt, p);
      assert (qd + 1) * (E * yt) == E * ((qd + 1) * yt);
    }
    MulMono(E * (num + 1), E * ((qd + 1) * yt), p);
    MulMono(r1 * B * B + (r0 + 1) * B, E * (num + 1), p);
  }

  /** As above for a divisor of one digit, where the digit below is taken as zero. */
  lemma EstimateOneDigit(r1: int, r0: int, y0: int)
    requires B / 2 <= y0 < B && 0 <= r1 < y0 && 0 <= r0 < B
    ensures LeadingDivisor(y0, 0) > 0
    ensures (Estimate(r1, r0, y0, LeadingDivisor(y0, 0)) + 1) * y0 > r1 * B + r0
  {
    var yt := LeadingDivisor(y0, 0);
    var num := r1 * FV + (r0 + E) * F1;
    DivBounds(num, yt);
    var qd := num / yt;
    assert (qd + 1) * yt == (qd + 1) * y0 * F1 by { MulAssoc(qd + 1, y0, F1); }
  }

  /** A number without redundant digits has as many digits as its value needs. */
  lemma LengthFromValue(r: BigInteger, n: nat)
    requires r.Valid() && r.Clamped() && n > 0 && Pow(n - 1) <= r.Value() < Pow(n)
    ensures r.t == n && r.s == 0 && r.Value() == V(r.a, 0, n)
  {
    SignOfValue(r);
    Magnitude(r);
    if r.t > n { PowMono(n, r.t - 1); }
    if r.t < n { PowMono(r.t, n - 1); }
  }

  /** The dividend while digit j of the quotient is being found: the quotient digits found so far,
      a window of ys + 1 digits that holds e, and the digits below. */
  ghost predicate Layout(a: Store, n: int, j: int, ys: int, q: int, e: int, low: int) {
    && 0 <= j && 0 < ys && j + ys < n && Window(a, 0, n)
    && 0 <= e < Pow(ys + 1) && 0 <= low < Pow(j)
    && V(a, 0, n) == Sh(q, j + ys + 1) + Sh(e, j) + low
  }

  /** What the layout fixes, digit by digit. */
  lemma LayoutDigits(a: Store, n: int, j: int, ys: int, q: int, e: int, low: int)
    requires Layout(a, n, j, ys, q, e, low)
    ensures V(a, 0, j) == low && V(a, j, ys + 1) == e && V(a, j + ys + 1, n - j - ys - 1) == q
    ensures V(a, j, ys) + Sh(a[j + ys], ys) == e
    ensures Sh(a[j + ys], ys) <= e < Sh(a[j + ys], ys) + Pow(ys)
  {
    var h, m := V(a, j + ys + 1, n - j - ys - 1), V(a, j, ys + 1);
    Split(a, 0, j, n - j);
    Split(a, j, ys + 1, n - j - ys - 1);
    Bound(a, 0, j);
    Bound(a, j, ys + 1);
    Bound(a, j, ys);
    ShAdd(m, Sh(h, ys + 1), j);
    ShAddExp(h, ys + 1, j);
    ShAddExp(q, ys + 1, j);
    ShAdd(e, Sh(q, ys + 1), j);
    ShUnique(j, m + Sh(h, ys + 1), V(a, 0, j), e + Sh(q, ys + 1), low);
    ShUnique(ys + 1, h, m, q, e);
  }

  /** The window after subtracting qd * Y by adding qd * (B^ys - Y). */
  ghost function Tried(w: int, qd: int, p: int, y: int): int {
    w + qd * (p - y)
  }

  lemma TriedRange(w: int, qd: int, p: int, y: int)
    requires 0 < y < p && 0 <= w < B * y && 0 <= qd <= B && (qd + 1) * y > w
    ensures 0 <= Tried(w, qd, p, y) < B * p
    ensures w >= qd * y ==> qd * p <= Tried(w, qd, p, y) < qd * p + y && qd < B
    ensures w < qd * y ==> Tried(w, qd, p, y) < qd * p && qd > 0
  {
    assert Tried(w, qd, p, y) == qd * p + (w - qd * y);
    MulMono(0, qd, p - y);
    MulMono(qd, B, p);
    if w >= qd * y {
      if qd >= B { MulMono(B, qd, y); }
      MulMono(qd, B - 1, p);
      assert (qd + 1) * y == qd * y + y;
    }
  }

  /** The digit above the window equals qd when qd * Y fits, and is smaller otherwise. */
  lemma DigitTellsFit(d: int, w: int, qd: int, p: int, y: int)
    requires 0 < y < p && 0 <= w < B * y && 0 <= qd <= B && (qd + 1) * y > w
    requires d * p <= Tried(w, qd, p, y) < d * p + p
    ensures d < qd <==> w < qd * y
    ensures w >= qd * y ==> d == qd
  {
    TriedRange(w, qd, p, y);
    if w >= qd * y {
      if d < qd { MulMono(d + 1, qd, p); }
      if d > qd { MulMono(qd + 1, d, p); }
    } else if d >= qd {
      MulMono(qd, d, p);
    }
  }

  /** One correction: r loses (B^ys - Y) * B^j, so qd * Y is taken away once less. */
  method Uncorrect(r: BigInteger, t: BigInteger, j: int, ys: nat, qd: int, ghost q: int, ghost w: int, ghost low: int,
      ghost y: int)
    requires r != t && r.Valid() && r.Clamped() && r.s == 0 && t.Valid()
    requires 0 < y < Pow(ys) && 0 < qd <= B && 0 <= w < B * y && qd * y > w
    requires Layout(r.a, r.t, j, ys, q, Tried(w, qd, Pow(ys), y), low)
    requires t.Value() == Sh(Pow(ys) - y, j)
    requires Pow(r.t - 1) <= Sh(q, j + ys + 1) + Sh(w, j) + low
    modifies r
    ensures r.Valid() && r.Clamped() && r.s == 0 && r.t == old(r.t)
    ensures Layout(r.a, r.t, j, ys, q, Tried(w, qd - 1, Pow(ys), y), low)
  {
    ghost var p, n := Pow(ys), r.t;
    Magnitude(r);
    SignOfValue(r);
    r.SubTo(t, r);
    ShAdd(Tried(w, qd, p, y), -(p - y), j);
    ShNeg(p - y, j);
    assert Tried(w, qd, p, y) - (p - y) == Tried(w, qd - 1, p, y);
    MulMono(0, qd - 1, p - y);
    ShMono(w, Tried(w, qd - 1, p, y), j);
    ShMono(0, p - y, j);
    ShOne(j);
    LengthFromValue(r, n);
    TriedRange(w, qd - 1, p, y);
  }

  /** The loop that lowers an estimate that was too large. */
  method Correct(r: BigInteger, t: BigInteger, j: int, ys: nat, qd0: int, ghost q: int, ghost w: int, ghost low: int,
      ghost y: int) returns (qd: int)
    requires r != t && r.Valid() && r.Clamped() && r.s == 0 && t.Valid()
    requires 0 < y < Pow(ys) && 0 < qd0 <= B && 0 <= w < B * y && qd0 * y > w
    requires Layout(r.a, r.t, j, ys, q, Tried(w, qd0, Pow(ys), y), low)
    requires t.Value() == Sh(Pow(ys) - y, j)
    requires Pow(r.t - 1) <= Sh(q, j + ys + 1) + Sh(w, j) + low
    modifies r
    ensures r.Valid() && r.Clamped() && r.s == 0 && r.t == old(r.t)
    ensures 0 <= qd < B && qd * y <= w < (qd + 1) * y
    ensures Layout(r.a, r.t, j, ys, q, Tried(w, qd, Pow(ys), y), low)
  {
    Uncorrect(r, t, j, ys, qd0, q, w, low, y);
    qd := qd0 - 1;
    DigitOfLayout(r.a, r.t, j, ys, q, w, qd, y, low);
    while r.a[j + ys] < qd
      invariant r.Valid() && r.Clamped() && r.s == 0 && r.t == old(r.t)
      invariant t.Value() == Sh(Pow(ys) - y, j) && t.Valid()
      invariant 0 <= qd <= B && (qd + 1) * y > w
      invariant Layout(r.a, r.t, j, ys, q, Tried(w, qd, Pow(ys), y), low)
      invariant r.a[j + ys] < qd <==> w < qd * y
      decreases qd
    {
      Uncorrect(r, t, j, ys, qd, q, w, low, y);
      qd := qd - 1;
      DigitOfLayout(r.a, r.t, j, ys, q, w, qd, y, low);
    }
    TriedRange(w, qd, Pow(ys), y);
  }

  lemma DigitOfLayout(a: Store, n: int, j: int, ys: nat, q: int, w: int, qd: int, y: int, low: int)
    requires ys > 0 && 0 < y < Pow(ys) && 0 <= qd <= B && 0 <= w < B * y && (qd + 1) * y > w
    requires Layout(a, n, j, ys, q, Tried(w, qd, Pow(ys), y), low)
    ensures a[j + ys] < qd <==> w < qd * y
    ensures w >= qd * y ==> a[j + ys] == qd
  {
    LayoutDigits(a, n, j, ys, q, Tried(w, qd, Pow(ys), y), low);
    ShPow(a[j + ys], ys);
    DigitTellsFit(a[j + ys], w, qd, Pow(ys), y);
  }

  /** y0 and y1 are the leading digits of the ys-digit divisor y, whose top bit is set. */
  ghost predicate Leading(y: int, ys: nat, y0: int, y1: int) {
    && ys > 0 && B / 2 <= y0 < B && 0 <= y1 < B
    && Sh(y0, ys - 1) <= y < Sh(y0 + 1, ys - 1)
    && if ys == 1 then y1 == 0 else Sh(y0 * B + y1, ys - 2) <= y
  }

  lemma LeadingDigits(a: Store, ys: nat)
    requires ys > 0 && Window(a, 0, ys) && a[ys - 1] >= B / 2
    ensures Leading(V(a, 0, ys), ys, a[ys - 1], if ys > 1 then a[ys - 2] else 0)
    ensures 0 < V(a, 0, ys) < Pow(ys) <= 2 * V(a, 0, ys)
  {
    Bound(a, 0, ys - 1);
    ShAdd(a[ys - 1], 1, ys - 1);
    ShOne(ys - 1);
    TopBitSet(a, ys);
    if ys > 1 {
      Bound(a, 0, ys - 2);
      ShSucc(a[ys - 1], ys - 2);
      ShAdd(a[ys - 1] * B, a[ys - 2], ys - 2);
    }
  }

  lemma TopBitSet(a: Store, ys: nat)
    requires ys > 0 && Window(a, 0, ys) && a[ys - 1] >= B / 2
    ensures 0 < V(a, 0, ys) < Pow(ys) <= 2 * V(a, 0, ys)
  {
    Bound(a, 0, ys - 1);
    Bound(a, 0, ys);
    ShMono(B / 2, a[ys - 1], ys - 1);
    ShAdd(B / 2, B / 2, ys - 1);
    ShSucc(1, ys - 1);
    ShOne(ys);
  }

  lemma EstimateFits(a: Store, j: int, ys: nat, y: int, y0: int, y1: int)
    requires Leading(y, ys, y0, y1) && Window(a, j, ys + 1) && V(a, j, ys + 1) < B * y
    ensures LeadingDivisor(y0, y1) > 0 && 0 <= a[j + ys] <= y0
    ensures var qd := Estimate(a[j + ys], a[j + ys - 1], y0, LeadingDivisor(y0, y1));
      0 <= qd <= B && (qd + 1) * y > V(a, j, ys + 1)
  {
    var w, r1, r0 := V(a, j, ys + 1), a[j + ys], a[j + ys - 1];
    Bound(a, j, ys - 1);
    ShMono(0, r0, ys - 1);
    ShOne(ys - 1);
    assert w == V(a, j, ys - 1) + Sh(r0, ys - 1) + Sh(r1, ys);
    assert Sh(y0 + 1, ys) == B * Sh(y0 + 1, ys - 1);
    if r1 > y0 { ShMono(y0 + 1, r1, ys); }
    EstimateAtMostBase(r1, r0, y0, y1);
    if r1 < y0 {
      if ys == 1 {
        assert Sh(y0 + 1, 0) == y0 + 1 && Sh(y0, 0) == y0;
        assert Sh(r1, 1) == B * Sh(r1, 0) && Sh(r0, 0) == r0;
        EstimateOneDigit(r1, r0, y0);
      } else {
        EstimateManyDigits(r1, r0, y0, y1, ys, w, y, V(a, j, ys - 1));
      }
    }
  }

  lemma EstimateManyDigits(r1: int, r0: int, y0: int, y1: int, ys: nat, w: int, y: int, rest: int)
    requires ys > 1 && Leading(y, ys, y0, y1) && 0 <= r1 < y0 && 0 <= r0 < B
    requires w == rest + Sh(r0, ys - 1) + Sh(r1, ys) && rest < Pow(ys - 1)
    ensures LeadingDivisor(y0, y1) > 0
    ensures (Estimate(r1, r0, y0, LeadingDivisor(y0, y1)) + 1) * y > w
  {
    var n := ys - 2;
    ShOne(n + 1);
    ShAdd(r0, 1, n + 1);
    ShSucc(r1, n + 1);
    ShAdd(r1 * B, r0 + 1, n + 1);
    ShSucc(r1 * B + (r0 + 1), n);
    ShPow((r1 * B + (r0 + 1)) * B, n);
    ShPow(y0 * B + y1, n);
    assert (r1 * B + (r0 + 1)) * B == r1 * B * B + (r0 + 1) * B;
    EstimateNotTooSmall(r1, r0, y0, y1, Pow(n), w, y);
  }

  /** r_array[i] += y.am(0, qd, r, j, 0, ys) */
  method AddMultiple(y: BigInteger, r: BigInteger, j: int, ys: nat, qd: int, ghost dv: int, ghost w: int)
    requires y != r && y.Valid() && y.t == ys > 0 && V(y.a, 0, ys) == Pow(ys) - dv
    requires Window(r.a, j, ys + 1) && V(r.a, j, ys + 1) == w
    requires 0 < dv < Pow(ys) && 0 <= qd <= B && 0 <= w < B * dv && (qd + 1) * dv > w
    modifies r`a
    ensures Window(r.a, j, ys + 1) && V(r.a, j, ys + 1) == Tried(w, qd, Pow(ys), dv)
    ensures forall k :: k in old(r.a) && !(j <= k <= j + ys) ==> k in r.a && r.a[k] == old(r.a)[k]
  {
    ghost var R := r.a;
    var c := y.Am3(0, qd, r, j, 0, ys);
    ghost var R1 := r.a;
    r.a := r.a[j + ys := r.a[j + ys] + c];
    Frame(R1, r.a, j, ys);
    NewWindow(R, r.a, j, ys, c, qd, w, dv);
  }

  /** Trying a digit: adding qd times the complement of the divisor to the window. */
  method TryDigit(y: BigInteger, r: BigInteger, j: int, ys: nat, qd: int, ghost q: int, ghost dv: int, ghost low: int,
      ghost w: int)
    requires y != r && y.Valid() && y.t == ys && V(y.a, 0, ys) == Pow(ys) - dv
    requires r.Valid() && Layout(r.a, r.t, j, ys, q, w, low)
    requires 0 < dv < Pow(ys) && 0 <= qd <= B && 0 <= w < B * dv && (qd + 1) * dv > w
    modifies r`a
    ensures r.Valid() && Layout(r.a, r.t, j, ys, q, Tried(w, qd, Pow(ys), dv), low)
    ensures V(r.a, 0, r.t) >= V(old(r.a), 0, r.t)
    ensures forall k :: j + ys < k < r.t ==> r.a[k] == old(r.a)[k]
  {
    ghost var R, n := r.a, r.t;
    LayoutDigits(R, n, j, ys, q, w, low);
    AddMultiple(y, r, j, ys, qd, dv, w);
    assert Window(r.a, 0, n) by {
      assert forall k :: 0 <= k < n ==> k in R;
    }
    Frame(R, r.a, 0, j);
    Frame(R, r.a, j + ys + 1, n - j - ys - 1);
    Reassemble(r.a, n, j, ys, q, w, Tried(w, qd, Pow(ys), dv), low, qd, dv);
  }

  lemma Reassemble(a: Store, n: int, j: int, ys: nat, q: int, w: int, e: int, low: int, qd: int, dv: int)
    requires 0 <= j && ys > 0 && j + ys < n && V(a, 0, j) == low && V(a, j + ys + 1, n - j - ys - 1) == q
    requires e == Tried(w, qd, Pow(ys), dv) == V(a, j, ys + 1)
    requires 0 < dv < Pow(ys) && 0 <= qd <= B && 0 <= w < B * dv && (qd + 1) * dv > w
    ensures V(a, 0, n) == Sh(q, j + ys + 1) + Sh(e, j) + low && 0 <= e < Pow(ys + 1)
    ensures V(a, 0, n) >= Sh(q, j + ys + 1) + Sh(w, j) + low
  {
    Split(a, 0, j, n - j);
    Split(a, j, ys + 1, n - j - ys - 1);
    ShAdd(e, Sh(q, ys + 1), j);
    ShAddExp(q, ys + 1, j);
    TriedRange(w, qd, Pow(ys), dv);
    MulMono(0, qd, Pow(ys) - dv);
    ShMono(w, e, j);
  }

  lemma NewWindow(R: Store, R': Store, j: int, ys: nat, c: int, qd: int, w: int, dv: int)
    requires ys > 0 && 0 < dv < Pow(ys) && 0 <= qd <= B && 0 <= w < B * dv && (qd + 1) * dv > w
    requires Window(R, j, ys + 1) && V(R, j, ys + 1) == w && Window(R', j, ys)
    requires At(R', j + ys) == At(R, j + ys) + c && c >= 0
    requires forall k :: j <= k < j + ys ==> k in R'
    requires V(R', j, ys) + Sh(c, ys) == V(R, j, ys) + qd * (Pow(ys) - dv)
    ensures V(R', j, ys + 1) == Tried(w, qd, Pow(ys), dv)
    ensures 0 <= At(R', j + ys) < B
  {
    ShAdd(At(R, j + ys), c, ys);
    TriedRange(w, qd, Pow(ys), dv);
    Bound(R', j, ys);
    ShOne(ys);
    ShSucc(1, ys);
    if At(R', j + ys) >= B { ShMono(B, At(R', j + ys), ys); }
  }

  /** The dividend between two quotient digits: quotient so far above, remainder rem below. */
  ghost predicate Partial(r: BigInteger, j: int, ys: nat, q: int, rem: int, dv: int)
    reads r
  {
    && r.Valid() && r.Clamped() && r.s == 0
    && 0 <= j && ys > 0 && r.t >= j + ys && r.t > 0
    && V(r.a, 0, r.t) == Sh(q, j + ys) + rem
    && 0 <= rem < Sh(dv, j)
  }

  /** The remainder as the window that the next digit is found in and the digits below. */
  lemma OpenWindow(a: Store, n: nat, j: int, ys: nat, q: int, rem: int, dv: int)
    requires Window(a, 0, n) && j >= 0 && ys > 0 && n > j + ys && 0 < dv < Pow(ys)
    requires V(a, 0, n) == Sh(q, j + 1 + ys) + rem && 0 <= rem < Sh(dv, j + 1)
    ensures Layout(a, n, j, ys, q, V(a, j, ys + 1), V(a, 0, j))
    ensures rem == Sh(V(a, j, ys + 1), j) + V(a, 0, j)
    ensures V(a, j, ys + 1) < B * dv
  {
    var w, low, h := V(a, j, ys + 1), V(a, 0, j), V(a, j + ys + 1, n - j - ys - 1);
    Split(a, 0, j, ys + 1);
    Split(a, 0, j + ys + 1, n - j - ys - 1);
    Bound(a, 0, j + ys + 1);
    Bound(a, j, ys + 1);
    Bound(a, 0, j);
    ShMono(dv, Pow(ys), j + 1);
    ShOne(ys);
    ShAddExp(1, ys, j + 1);
    ShOne(ys + j + 1);
    ShUnique(j + ys + 1, q, rem, h, V(a, 0, j + ys + 1));
    ShSucc(dv, j);
    if w >= B * dv { ShMono(B * dv, w, j); }
  }

  /** Closing the window again once its digit is known. */
  lemma CloseWindow(q: int, w: int, qd: int, dv: int, ys: nat, j: nat, low: int)
    requires 0 < dv && qd * dv <= w < (qd + 1) * dv && 0 <= low < Pow(j)
    ensures Sh(q, j + ys + 1) + Sh(Tried(w, qd, Pow(ys), dv), j) + low
      == Sh(q * B + qd, j + ys) + (Sh(w - qd * dv, j) + low)
    ensures 0 <= Sh(w - qd * dv, j) + low < Sh(dv, j)
    ensures Sh(w, j) + low == Sh(qd * dv, j) + (Sh(w - qd * dv, j) + low)
  {
    var d := w - qd * dv;
    assert Tried(w, qd, Pow(ys), dv) == qd * Pow(ys) + d;
    ShPow(qd, ys);
    ShAdd(Sh(qd, ys), d, j);
    ShAddExp(qd, ys, j);
    ShSucc(q, j + ys);
    ShAdd(q * B, qd, j + ys);
    ShAdd(qd * dv, d, j);
    ShMono(0, d, j);
    ShMono(d + 1, dv, j);
    ShAdd(d, 1, j);
    ShOne(j);
  }

  /** Tries an estimate and lowers it until the digit above the window agrees with it. */
  method SettleDigit(y: BigInteger, r: BigInteger, t: BigInteger, j: int, ys: nat, d0: int, ghost q: int,
      ghost w: int, ghost low: int, ghost dv: int) returns (d: int)
    requires y != r && y != t && r != t
    requires y.Valid() && y.s == 0 && y.t == ys && V(y.a, 0, ys) == Pow(ys) - dv && 0 < dv < Pow(ys)
    requires r.Valid() && r.s == 0 && Layout(r.a, r.t, j, ys, q, w, low)
    requires Pow(r.t - 1) <= V(r.a, 0, r.t)
    requires w < B * dv && 0 <= d0 <= B && (d0 + 1) * dv > w
    modifies r, t
    ensures r.Valid() && r.Clamped() && r.s == 0 && r.t == old(r.t)
    ensures Pow(r.t - 1) <= V(r.a, 0, r.t)
    ensures 0 <= d < B && d * dv <= w < (d + 1) * dv
    ensures Layout(r.a, r.t, j, ys, q, Tried(w, d, Pow(ys), dv), low)
  {
    d := d0;
    TryDigit(y, r, j, ys, d, q, dv, low, w);
    DigitOfLayout(r.a, r.t, j, ys, q, w, d, dv, low);
    TriedRange(w, d, Pow(ys), dv);
    StillClamped(r);
    if r.a[j + ys] < d {
      y.DlShiftTo(j, t);
      ComplementValue(y, ys, dv, j);
      d := Correct(r, t, j, ys, d, q, w, low, dv);
      SignOfValue(r);
      Magnitude(r);
    }
  }

  /** One round of the division loop. */
  method QuotientStep(y: BigInteger, r: BigInteger, t: BigInteger, j: int, ys: nat, y0: int, yt: int, ghost y1: int,
      ghost q: int, ghost rem: int, ghost dv: int) returns (ghost qd: int, ghost rem': int)
    requires y != r && y != t && r != t
    requires y.Valid() && y.s == 0 && y.t == ys && V(y.a, 0, ys) == Pow(ys) - dv && 0 < dv < Pow(ys)
    requires Leading(dv, ys, y0, y1) && yt == LeadingDivisor(y0, y1)
    requires j >= 0 && Partial(r, j + 1, ys, q, rem, dv) && Pow(r.t - 1) <= V(r.a, 0, r.t)
    modifies r, t
    ensures r.t == old(r.t) && Partial(r, j, ys, q * B + qd, rem', dv)
    ensures Pow(r.t - 1) <= V(r.a, 0, r.t)
    ensures 0 <= qd < B && rem == Sh(qd * dv, j) + rem'
  {
    OpenWindow(r.a, r.t, j, ys, q, rem, dv);
    ghost var w, low := V(r.a, j, ys + 1), V(r.a, 0, j);
    EstimateFits(r.a, j, ys, dv, y0, y1);
    var d := Estimate(r.a[j + ys], r.a[j + ys - 1], y0, yt);
    d := SettleDigit(y, r, t, j, ys, d, q, w, low, dv);
    qd, rem' := d, Sh(w - d * dv, j) + low;
    CloseWindow(q, w, d, dv, ys, j, low);
  }

  lemma StillClamped(r: BigInteger)
    requires r.Valid() && r.s == 0 && r.t > 0 && Pow(r.t - 1) <= V(r.a, 0, r.t)
    ensures r.Clamped()
  {
    if r.a[r.t - 1] == 0 {
      Bound(r.a, 0, r.t - 1);
      ShOne(r.t - 1);
    }
  }

  lemma ComplementValue(y: BigInteger, ys: nat, dv: int, j: nat)
    requires y.Valid() && y.s == 0 && y.t == ys && V(y.a, 0, ys) == Pow(ys) - dv
    ensures y.Value() * Pow(j) == Sh(Pow(ys) - dv, j)
  {
    SignOfValue(y);
    ShPow(Pow(ys) - dv, j);
  }

  /** y becomes B^ys - y, padded to ys digits. */
  method Complement(y: BigInteger, t: BigInteger, ys: nat)
    requires y != t && y.Valid() && y.Clamped() && y.s == 0 && y.t == ys > 0
    modifies y, t
    ensures y.Valid() && y.s == 0 && y.t == ys
    ensures V(y.a, 0, ys) == Pow(ys) - old(V(y.a, 0, y.t))
  {
    SignOfValue(y);
    Magnitude(y);
    var one := new BigInteger();
    var ok := one.FromInt(1);
    one.DlShiftTo(ys, t);
    t.SubTo(y, y);
    SignOfValue(y);
    Magnitude(y);
    if y.t > ys { PowMono(ys, y.t - 1); }
    while y.t < ys
      invariant y.Valid() && y.s == 0 && y.t <= ys
      invariant V(y.a, 0, y.t) == Pow(ys) - old(V(y.a, 0, y.t))
    {
      ghost var n := y.t;
      y.PutAbove(y.t, 0);
      y.t := y.t + 1;
      ShOne(n);
    }
  }

  /** r -= t with the quotient digit 1 put above r, for t <= r. */
  method TakeOnce(r: BigInteger, t: BigInteger)
    requires r != t && r.Valid() && r.Clamped() && r.s == 0 && t.Valid()
    requires 0 <= r.Value() - t.Value() < Pow(r.t + 1) - Pow(r.t)
    modifies r
    ensures r.Valid() && r.Clamped() && r.s == 0 && r.t == old(r.t) + 1
    ensures V(r.a, 0, r.t) == Pow(old(r.t)) + old(r.Value()) - t.Value()
  {
    ghost var n := r.t;
    SignOfValue(r);
    r.PutAbove(r.t, 1);
    r.t := r.t + 1;
    SignOfValue(r);
    r.SubTo(t, r);
    ShOne(n);
    LengthFromValue(r, n + 1);
  }

  /** The leading quotient digit, which is 0 or 1 because the divisor is normalized. */
  method FirstDigit(y: BigInteger, r: BigInteger, t: BigInteger, j: int, ys: nat)
      returns (ghost q: int, ghost rem: int)
    requires y != r && y != t && r != t
    requires y.Valid() && y.Clamped() && y.s == 0 && y.t == ys > 0
    requires r.Valid() && r.Clamped() && r.s == 0 && j >= 0 && r.t == j + ys
    requires Pow(ys) <= 2 * V(y.a, 0, ys)
    modifies r, t
    ensures Partial(r, j, ys, q, rem, V(y.a, 0, ys)) && Pow(r.t - 1) <= V(r.a, 0, r.t)
    ensures q >= 0 && old(r.Value()) == Sh(q * V(y.a, 0, ys), j) + rem
  {
    ghost var dv, x := V(y.a, 0, ys), r.Value();
    SignOfValue(r);
    SignOfValue(y);
    Magnitude(r);
    y.DlShiftTo(j, t);
    ShPow(dv, j);
    NormalizedBound(x, dv, ys, j);
    ShOne(j + ys);
    var cmp := r.CompareTo(t);
    if cmp >= 0 {
      TakeOnce(r, t);
      q, rem := 1, x - Sh(dv, j);
      PowMono(j + ys, r.t - 1);
    } else {
      ShOne(j);
      q, rem := 0, x;
    }
  }

  lemma NormalizedBound(x: int, dv: int, ys: nat, j: nat)
    requires x < Pow(j + ys) && Pow(ys) <= 2 * dv
    ensures x < 2 * Sh(dv, j)
    ensures x - Sh(dv, j) < Pow(j + ys + 1) - Pow(j + ys)
  {
    ShOne(ys);
    ShAddExp(1, ys, j);
    ShOne(j + ys);
    ShMono(Pow(ys), 2 * dv, j);
    ShMul(2, dv, j);
    ShOne(j);
    ShMono(0, dv, j);
  }

  lemma CollectDigit(q: int, qd: int, dv: int, j: nat, rem: int, rem': int)
    requires rem == Sh(qd * dv, j) + rem'
    ensures Sh(q * dv, j + 1) + rem == Sh((q * B + qd) * dv, j) + rem'
  {
    ShSucc(q * dv, j);
    ShAdd(B * (q * dv), qd * dv, j);
    assert B * (q * dv) + qd * dv == (q * B + qd) * dv;
  }

  method DivideNormalized(y: BigInteger, r: BigInteger, t: BigInteger) returns (ghost q: int, ghost rem: int)
    requires y != r && y != t && r != t
    requires y.Valid() && y.Clamped() && y.s == 0 && y.t > 0 && y.a[y.t - 1] >= B / 2
    requires r.Valid() && r.Clamped() && r.s == 0 && r.t >= y.t
    modifies y, r, t
    ensures r.Valid() && r.Clamped() && r.s == 0 && r.t >= old(y.t)
    ensures V(r.a, 0, r.t) == Sh(q, old(y.t)) + rem
    ensures 0 <= rem < old(y.Value()) && old(r.Value()) == q * old(y.Value()) + rem
    ensures q >= 0
  {
    var ys := y.t;
    LeadingDigits(y.a, ys);
    SignOfValue(y);
    ghost var dv, x, y1 := V(y.a, 0, ys), r.Value(), if ys > 1 then y.a[ys - 2] else 0;
    var y0 := y.a[ys - 1];
    var yt := LeadingDivisor(y0, if ys > 1 then y.a[ys - 2] else 0);
    var j := r.t - ys;
    q, rem := FirstDigit(y, r, t, j, ys);
    Complement(y, t, ys);
    while j > 0
      invariant j >= 0 && r.t > 0 && Partial(r, j, ys, q, rem, dv) && Pow(r.t - 1) <= V(r.a, 0, r.t)
      invariant y.Valid() && y.s == 0 && y.t == ys && V(y.a, 0, ys) == Pow(ys) - dv
      invariant q >= 0 && x == Sh(q * dv, j) + rem
    {
      j := j - 1;
      ghost var qd, rem' := QuotientStep(y, r, t, j, ys, y0, yt, y1, q, rem, dv);
      CollectDigit(q, qd, dv, j, rem, rem');
      q, rem := q * B + qd, rem';
    }
  }

  function AbsOf(x: int): nat {
    if x < 0 then -x else x
  }

  /** The quotient and the remainder of truncating division. */
  function Quot(x: int, m: int): int
    requires m != 0
  {
    if (x < 0) == (m < 0) then AbsOf(x) / AbsOf(m) else -(AbsOf(x) / AbsOf(m))
  }

  function Rem(x: int, m: int): int
    requires m != 0
  {
    if x < 0 then -(AbsOf(x) % AbsOf(m)) else AbsOf(x) % AbsOf(m)
  }

  /** Quotient and remainder of truncating division are what its laws say. */
  lemma QuotRem(x: int, m: int)
    requires m != 0
    ensures x == Quot(x, m) * m + Rem(x, m)
    ensures AbsOf(Rem(x, m)) < AbsOf(m)
    ensures Rem(x, m) == 0 || (Rem(x, m) < 0) == (x < 0)
  {
    var u, v := AbsOf(x), AbsOf(m);
    DivMod(u, v);
    Signed(x, m, u, v, u / v, u % v);
  }

  lemma Signed(x: int, m: int, u: int, v: int, q: int, r: int)
    requires u == q * v + r && u == AbsOf(x) && v == AbsOf(m) && 0 <= r < v
    ensures x == (if (x < 0) == (m < 0) then q else -q) * m + if x < 0 then -r else r
  {
    MulSigns(q, v);
  }

  lemma DivMod(u: int, v: int)
    requires v > 0
    ensures u == u / v * v + u % v && 0 <= u % v < v
  {
  }

  lemma MulSigns(x: int, y: int)
    ensures (-x) * y == -(x * y) && x * (-y) == -(x * y) && (-x) * (-y) == x * y
  {
  }

  /** Normalizing: both numbers shifted so that the divisor's top bit is set. */
  method Normalize(pm: BigInteger, pt: BigInteger, y: BigInteger, r: BigInteger) returns (nsh: nat)
    requires pm != y && pm != r && y != r && y != pt
    requires pm.Valid() && pm.Clamped() && pm.s == 0 && pm.t > 0
    requires pt.Valid() && pt.Clamped() && pt.s == 0 && pt.t >= pm.t
    modifies y, r
    ensures y.Valid() && y.Clamped() && y.s == 0 && y.t == pm.t && y.a[y.t - 1] >= B / 2
    ensures y.Value() == old(pm.Value()) * Pow2(nsh)
    ensures r.Valid() && r.Clamped() && r.s == 0 && r.t >= y.t
    ensures r.Value() == old(pt.Value()) * Pow2(nsh)
  {
    var bits := NBits(pm.a[pm.t - 1]);
    nsh := DIGIT_BITS - bits;
    SignOfValue(pm);
    NormalShift(pm.a, pm.t, bits);
    ghost var n, v, x := pm.t, pm.Value() * Pow2(nsh), pt.Value() * Pow2(nsh);
    DividendGrows(pt, n, nsh);
    ShiftBoth(pm, pt, y, r, nsh, v, x);
    NormalLengths(y, r, n);
  }

  lemma DividendGrows(pt: BigInteger, n: nat, nsh: nat)
    requires pt.Valid() && pt.Clamped() && pt.s == 0 && 0 < n <= pt.t
    ensures Pow(n - 1) <= pt.Value() * Pow2(nsh)
  {
    SignOfValue(pt);
    Magnitude(pt);
    PowMono(n - 1, pt.t - 1);
    MulMono(1, Pow2(nsh), pt.Value());
  }

  /** if(nsh > 0) { pm.lShiftTo(nsh, y); pt.lShiftTo(nsh, r); } else { pm.copyTo(y); pt.copyTo(r); } */
  method ShiftBoth(pm: BigInteger, pt: BigInteger, y: BigInteger, r: BigInteger, nsh: nat, ghost v: int, ghost x: int)
    requires pm != y && pm != r && y != r && y != pt
    requires pm.Valid() && pm.Clamped() && pt.Valid() && pt.Clamped()
    requires v == pm.Value() * Pow2(nsh) && x == pt.Value() * Pow2(nsh)
    modifies y, r
    ensures y.Valid() && y.Clamped() && y.Value() == v && r.Valid() && r.Clamped() && r.Value() == x
  {
    if nsh > 0 {
      pm.LShiftTo(nsh, y);
      pt.LShiftTo(nsh, r);
    } else {
      assert Pow2(0) == 1;
      pm.CopyTo(y);
      pt.CopyTo(r);
    }
  }

  lemma NormalLengths(y: BigInteger, r: BigInteger, n: nat)
    requires y.Valid() && y.Clamped() && r.Valid() && r.Clamped() && n > 0
    requires y.Value() < Pow(n) <= 2 * y.Value() && Pow(n - 1) <= y.Value()
    requires Pow(n - 1) <= r.Value()
    ensures y.s == 0 && y.t == n && y.a[n - 1] >= B / 2
    ensures r.s == 0 && r.t >= n
  {
    LengthFromValue(y, n);
    TopDigit(y.a, n);
    SignOfValue(r);
    Magnitude(r);
    if r.t < n { PowMono(r.t, n - 1); }
  }

  /** The shift by 28 minus the top digit's length puts the value in the upper half. */
  lemma NormalShift(a: Store, n: nat, bits: nat)
    requires n > 0 && Window(a, 0, n) && 0 < bits <= DIGIT_BITS
    requires Pow2(bits - 1) <= a[n - 1] < Pow2(bits)
    ensures var v := V(a, 0, n) * Pow2(DIGIT_BITS - bits);
      v < Pow(n) <= 2 * v && Pow(n - 1) <= v
    ensures Pow(n - 1) <= V(a, 0, n)
  {
    var d, v := a[n - 1], V(a, 0, n);
    Bound(a, 0, n - 1);
    ShOne(n - 1);
    ShAdd(d, 1, n - 1);
    ShMono(Pow2(bits - 1), d, n - 1);
    ShMono(d + 1, Pow2(bits), n - 1);
    ShMono(1, Pow2(bits - 1), n - 1);
    ScaledBounds(v, n, bits);
    DblPow(v, DIGIT_BITS - bits);
  }

  lemma ScaledBounds(v: int, n: nat, bits: nat)
    requires n > 0 && 0 < bits <= DIGIT_BITS
    requires Sh(Pow2(bits - 1), n - 1) <= v < Sh(Pow2(bits), n - 1)
    ensures var w := Dbl(v, DIGIT_BITS - bits); w < Pow(n) <= 2 * w && Pow(n - 1) <= w
  {
    var k := DIGIT_BITS - bits;
    HalfBase();
    DblPow2(bits - 1, k);
    DblPow2(bits, k);
    DblSh(Pow2(bits - 1), n - 1, k);
    DblSh(Pow2(bits), n - 1, k);
    DblMono(Sh(Pow2(bits - 1), n - 1), v, k);
    DblMono(v + 1, Sh(Pow2(bits), n - 1), k);
    DblAdd(v, 1, k);
    DblPow(1, k);
    ShAdd(B / 2, B / 2, n - 1);
    ShMono(1, B / 2, n - 1);
    ShSucc(1, n - 1);
    ShOne(n);
    ShOne(n - 1);
  }

  lemma HalfBase()
    ensures Pow2(DIGIT_BITS - 1) == B / 2 && Pow2(DIGIT_BITS) == B
  {
    Pow2Digit();
    assert Pow2(DIGIT_BITS) == 2 * Pow2(DIGIT_BITS - 1);
  }

  lemma TopDigit(a: Store, n: nat)
    requires n > 0 && Window(a, 0, n) && Pow(n) <= 2 * V(a, 0, n)
    ensures a[n - 1] >= B / 2
  {
    Bound(a, 0, n - 1);
    var d := a[n - 1];
    if d < B / 2 {
      ShMono(d + 1, B / 2, n - 1);
      ShAdd(d, 1, n - 1);
      ShAdd(B / 2, B / 2, n - 1);
      ShSucc(1, n - 1);
      ShOne(n - 1);
      ShOne(n);
    }
  }

  /** Taking the common factor of dividend and divisor out of the remainder again. */
  lemma Denormalize(x: int, m: int, k: nat, q: int, rem: int)
    requires x >= 0 && m > 0 && k > 0 && q >= 0
    requires x * k == q * (m * k) + rem && 0 <= rem < m * k
    ensures q == x / m && rem == x % m * k && rem / k == x % m
  {
    var u := x - q * m;
    assert rem == u * k by {
      MulAssoc(q, m, k);
      assert (x - q * m) * k == x * k - q * m * k;
    }
    if u < 0 { MulMono(u, -1, k); }
    if u >= m { MulMono(m, u, k); }
    DivIs(x, m, q, u);
    DivIs(rem, k, u, 0);
  }

  /** |x| / |m| into q (when there is one) and |x| % |m| into r, for operands without sign. */
  method DivideMagnitudes(pt: BigInteger, pm: BigInteger, t: BigInteger, r: BigInteger, keep: bool)
    requires t != r && pm != t && pm != r
    requires pm.Valid() && pm.Clamped() && pm.s == 0 && pm.t > 0
    requires pt.Valid() && pt.Clamped() && pt.s == 0 && pt.t >= pm.t
    modifies t, r
    ensures r.Valid() && r.Clamped() && r.s == 0 && pm.Value() > 0 && r.Value() == old(pt.Value()) % pm.Value()
    ensures keep ==> t.Valid() && t.Clamped() && t.Value() == old(pt.Value()) / pm.Value()
  {
    ghost var x, m := pt.Value(), pm.Value();
    SignOfValue(pm);
    SignOfValue(pt);
    Magnitude(pm);
    Magnitude(pt);
    var y := new BigInteger();
    var nsh := Normalize(pm, pt, y, r);
    var ys := y.t;
    Magnitude(y);
    ghost var q, rem := DivideNormalized(y, r, t);
    Denormalize(x, m, Pow2(nsh), q, rem);
    TakeApart(r, ys, q, rem);
    if keep {
      r.DrShiftTo(ys, t);
    }
    CutRemainder(r, ys, nsh);
  }

  /** The two halves of the divided number. */
  lemma TakeApart(r: BigInteger, ys: nat, q: int, rem: int)
    requires r.Valid() && r.s == 0 && r.t >= ys && V(r.a, 0, r.t) == Sh(q, ys) + rem
    requires 0 <= rem < Pow(ys)
    ensures r.Value() / Pow(ys) == q && V(r.a, 0, ys) == rem
  {
    SignOfValue(r);
    Split(r.a, 0, ys, r.t - ys);
    Bound(r.a, 0, ys);
    ShUnique(ys, V(r.a, ys, r.t - ys), V(r.a, 0, ys), q, rem);
    ShPow(q, ys);
    DivIs(r.Value(), Pow(ys), q, rem);
  }

  /** r.t = ys; r.clamp(); and the shift back. */
  method CutRemainder(r: BigInteger, ys: nat, nsh: nat)
    requires r.Valid() && r.s == 0 && r.t >= ys
    modifies r
    ensures r.Valid() && r.Clamped() && r.s == 0
    ensures r.Value() == V(old(r.a), 0, ys) / Pow2(nsh)
  {
    r.t := ys;
    SignOfValue(r);
    r.Clamp();
    if nsh > 0 {
      r.RShiftTo(nsh, r);
    } else {
      assert Pow2(0) == 1;
    }
    SignOfValue(r);
  }

  function NDigits(v: nat): nat {
    if v == 0 then 0 else 1 + NDigits(v / B)
  }

  lemma {:induction false} NDigitsBound(v: nat, n: nat)
    requires v < Pow(n) && (n > 0 ==> Pow(n - 1) <= v)
    ensures NDigits(v) == n
  {
    if n > 0 {
      var p := Pow(n - 1);
      assert v / B < p;
      if n > 1 { assert Pow(n - 2) <= v / B; }
      NDigitsBound(v / B, n - 1);
    }
  }

  /** |x| has fewer digits than |m|. */
  predicate Shorter(x: int, m: int) {
    NDigits(AbsOf(x)) < NDigits(AbsOf(m))
  }

  /**
    x divided by m: quotient to q, remainder to r0, either of which may be absent.  Division by
    zero leaves both alone.  r0 may be x.  q may be x too, but then a dividend with fewer digits
    than the divisor is overwritten before it is copied to r0, which becomes zero.
   */
  method DivRemTo(x: BigInteger, m: BigInteger, q: BigInteger?, r0: BigInteger?)
    requires x.Valid() && x.Clamped() && m.Valid() && m.Clamped()
    requires q != m && r0 != m && (q == null || q != r0)
    modifies q, r0
    ensures m.Value() == 0 && q != null ==> unchanged(q)
    ensures m.Value() == 0 && r0 != null ==> unchanged(r0)
    ensures m.Value() != 0 && q != null ==>
      q.Valid() && q.Clamped() && q.Value() == Quot(old(x.Value()), m.Value())
    ensures m.Value() != 0 && r0 != null ==> r0.Valid() && r0.Clamped()
    ensures m.Value() != 0 && r0 != null ==>
      r0.Value() == if q == x && Shorter(old(x.Value()), m.Value()) then 0 else Rem(old(x.Value()), m.Value())
  {
    SignOfValue(m);
    var pm := m.Abs();
    SizeOf(pm);
    if pm.t > 0 {
      DivideByNonzero(x, m, pm, q, r0);
    }
  }

  method DivideByNonzero(x: BigInteger, m: BigInteger, pm: BigInteger, q: BigInteger?, r0: BigInteger?)
    requires x.Valid() && x.Clamped() && m.Valid() && m.Value() != 0
    requires pm.Valid() && pm.Clamped() && pm.s == 0 && pm.t > 0 && pm.Value() == AbsOf(m.Value())
    requires m != q && m != r0 && pm != q && pm != r0 && (q == null || q != r0)
    modifies q, r0
    ensures q != null ==> q.Valid() && q.Clamped() && q.Value() == Quot(old(x.Value()), m.Value())
    ensures r0 != null ==> r0.Valid() && r0.Clamped()
    ensures r0 != null ==>
      r0.Value() == if q == x && Shorter(old(x.Value()), m.Value()) then 0 else Rem(old(x.Value()), m.Value())
  {
    ghost var X, M := x.Value(), m.Value();
    SignOfValue(x);
    SignOfValue(m);
    SizeOf(pm);
    var pt := x.Abs();
    SizeOf(pt);
    if pt.t < pm.t {
      ShorterDividend(pt, pm);
      ShortResults(X, M);
      KeepDividend(x, q, r0);
    } else {
      SignedResults(X, M);
      DivideLong(pt, pm, q, r0, x.s, m.s, AbsOf(X) / AbsOf(M), AbsOf(X) % AbsOf(M));
    }
  }

  lemma ShortResults(x: int, m: int)
    requires AbsOf(x) < AbsOf(m)
    ensures Quot(x, m) == 0 && Rem(x, m) == x
  {
    DivIs(AbsOf(x), AbsOf(m), 0, AbsOf(x));
  }

  /** The dividend is the remainder. */
  method KeepDividend(x: BigInteger, q: BigInteger?, r0: BigInteger?)
    requires x.Valid() && x.Clamped() && (q == null || q != r0)
    modifies q, r0
    ensures q != null ==> q.Valid() && q.Clamped() && q.Value() == 0
    ensures r0 != null ==> r0.Valid() && r0.Clamped()
    ensures r0 != null ==> r0.Value() == if q == x then 0 else old(x.Value())
  {
    if q != null { var ok := q.FromInt(0); }
    if r0 != null { x.CopyTo(r0); }
  }

  lemma SignedResults(x: int, m: int)
    requires m != 0
    ensures Quot(x, m) == if x < 0 <==> m < 0 then AbsOf(x) / AbsOf(m) else -(AbsOf(x) / AbsOf(m))
    ensures Rem(x, m) == if x < 0 then -(AbsOf(x) % AbsOf(m)) else AbsOf(x) % AbsOf(m)
  {
  }

  /** The long division proper, and the signs of its results. */
  method DivideLong(pt: BigInteger, pm: BigInteger, q: BigInteger?, r0: BigInteger?, ts: int, ms: int,
      ghost quot: int, ghost rem: int)
    requires pm != q && pm != r0 && (q == null || q != r0)
    requires pm.Valid() && pm.Clamped() && pm.s == 0 && pm.t > 0 && pm.Value() > 0
    requires pt.Valid() && pt.Clamped() && pt.s == 0 && pt.t >= pm.t
    requires quot == pt.Value() / pm.Value() && rem == pt.Value() % pm.Value()
    modifies q, r0
    ensures q != null ==> q.Valid() && q.Clamped() && q.Value() == if ts == ms then quot else -quot
    ensures r0 != null ==> r0.Valid() && r0.Clamped() && r0.Value() == if ts < 0 then -rem else rem
  {
    var r: BigInteger, t: BigInteger;
    if r0 == null { r := new BigInteger(); } else { r := r0; }
    if q == null { t := new BigInteger(); } else { t := q; }
    DivideMagnitudes(pt, pm, t, r, q != null);
    if q != null && ts != ms { q.NegateTo(q); }
    if ts < 0 { r.NegateTo(r); }
  }

  lemma SizeOf(x: BigInteger)
    requires x.Valid() && x.Clamped() && x.s == 0
    ensures x.Value() >= 0 && x.t == NDigits(x.Value())
  {
    SignOfValue(x);
    Magnitude(x);
    NDigitsBound(x.Value(), x.t);
  }

  lemma ShorterDividend(x: BigInteger, m: BigInteger)
    requires x.Valid() && x.Clamped() && x.s == 0 && m.Valid() && m.Clamped() && m.s == 0
    requires x.t < m.t
    ensures 0 <= x.Value() < m.Value()
    ensures x.Value() / m.Value() == 0 && x.Value() % m.Value() == x.Value()
  {
    SignOfValue(x);
    Magnitude(x);
    Magnitude(m);
    PowMono(x.t, m.t - 1);
    DivIs(x.Value(), m.Value(), 0, x.Value());
  }
}
