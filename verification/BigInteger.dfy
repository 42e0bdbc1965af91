/**
  The digit-level operations of the BigInteger prototype in
  jni/v8core/v8/benchmarks/crypto.js, for the engine it selects (`am3`, 28-bit digits).

  A number is `t` digits in `a` plus a sign word `s`, in two's complement style: it stands for
  V(a, 0, t) + s * B^t.  The `...To` methods write into a result object that may be the
  receiver or the argument wherever the source allows it.
*/
module BigIntegers {
  import opened Digits

  /** Operands of JavaScript's bitwise operators wrap to 32 bits unless they are in this range. */
  predicate Int32(x: int) {
    -0x8000_0000 <= x < 0x8000_0000
  }

  /** x & BI_DM */
  function DigitOf(x: int): (r: int)
    requires Int32(x)
  {
    x % B
  }

  /** x >> BI_DB */
  function CarryOf(x: int): (r: int)
    requires Int32(x)
  {
    x / B
  }

  /** x & 0x3fff */
  function Low14(x: int): (r: int)
    requires Int32(x)
  {
    x % 0x4000
  }

  /** x >> 14 */
  function High14(x: int): (r: int)
    requires Int32(x)
  {
    x / 0x4000
  }

  lemma MulBounds(x: int, y: int, p: int, q: int)
    requires 0 <= x <= p && 0 <= y <= q
    ensures 0 <= x * y <= p * q
  {
    MulMono(x, p, y);
    MulMono(y, q, p);
  }

  /** The 14-bit split of `am3` computes x * d exactly. */
  lemma SplitProduct(x: int, d: int)
    requires 0 <= x < 2 * B && 0 <= d < B
    ensures var xl, xh, l, h := x % 0x4000, x / 0x4000, d % 0x4000, d / 0x4000;
      && x * d == xh * h * B + (xh * l + h * xl) * 0x4000 + xl * l
      && 0 <= xl * l < B && 0 <= xh * l + h * xl < 3 * B
  {
    var xl, xh, l, h := x % 0x4000, x / 0x4000, d % 0x4000, d / 0x4000;
    assert x == xh * 0x4000 + xl && d == h * 0x4000 + l;
    assert x * d == xh * 0x4000 * d + xl * d;
    assert xh * 0x4000 * d == xh * h * B + xh * l * 0x4000;
    assert xl * d == xl * h * 0x4000 + xl * l;
    MulBounds(xl, l, 0x3fff, 0x3fff);
    MulBounds(xh, l, 0x7fff, 0x3fff);
    MulBounds(h, xl, 0x3fff, 0x3fff);
  }

  /** One step of the multiply-accumulate loop, scaled by the weight of its digit. */
  lemma Accumulate(x: int, d: int, w: int, c: int, c': int, w': int, n: nat, v: int)
    requires x * d + w + c == c' * B + w'
    ensures x * (v + Sh(d, n)) + Sh(w, n) + Sh(c, n) == x * v + Sh(c', n + 1) + Sh(w', n)
  {
    ShSucc(c', n);
    ShAdd(c' * B, w', n);
    ShAdd(x * d + w, c, n);
    ShAdd(x * d, w, n);
    ShPow(d, n);
    ShPow(x * d, n);
    assert x * (d * Pow(n)) == x * d * Pow(n);
    assert x * (v + Sh(d, n)) == x * v + x * Sh(d, n);
  }

  lemma CarryBound(x: int, d: int, w: int, c: int, c': int, w': int)
    requires x * d + w + c == c' * B + w'
    requires 0 <= x < 2 * B && 0 <= d < B && 0 <= w < B && 0 <= c < 3 * B && 0 <= w' < B
    ensures 0 <= c' < 3 * B
    ensures c <= x ==> c' <= x
  {
    MulMono(d, B - 1, x);
    MulMono(0, d, x);
  }

  /** x | y for a y whose k low bits are clear and an x of k bits. */
  function Or(x: int, y: int, k: nat): (r: int)
    requires 0 <= x < Pow2(k) && LowClear(y, k)
  {
    x + y
  }

  /** The bit length of x. */
  method NBits(x: int) returns (r: nat)
    requires 0 < x < 0x1_0000_0000
    ensures 0 < r <= 32 && Pow2(r - 1) <= x < Pow2(r)
    ensures x < B ==> r <= DIGIT_BITS
  {
    Pow2Digit();
    assert Pow2(32) == 0x1_0000_0000 by { Pow2Add(DIGIT_BITS, 4); }
    assert Pow2(0) == 1;
    var y;
    r, y := NBitsStep(1, x, x, 16);
    r, y := NBitsStep(r, y, x, 8);
    r, y := NBitsStep(r, y, x, 4);
    r, y := NBitsStep(r, y, x, 2);
    r, y := NBitsStep(r, y, x, 1);
    assert y == 1 by { assert Pow2(1) == 2 * Pow2(0); }
    assert Pow2(r) == 2 * Pow2(r - 1);
    if r > DIGIT_BITS { Pow2Mono(DIGIT_BITS, r - 1); }
    if r > 32 { Pow2Mono(32, r - 1); }
  }

  /** if((t = x >> k) != 0) { x = t; r += k; } */
  method NBitsStep(r0: nat, y0: int, ghost x: int, k: nat) returns (r: nat, y: int)
    requires r0 > 0 && k > 0 && 0 < y0 < Pow2(2 * k)
    requires y0 * Pow2(r0 - 1) <= x < (y0 + 1) * Pow2(r0 - 1)
    ensures r > 0 && 0 < y < Pow2(k)
    ensures y * Pow2(r - 1) <= x < (y + 1) * Pow2(r - 1)
  {
    var p := Pow2(k);
    var z := y0 / p;
    Pow2Add(k, k);
    DivBelow(y0, p, p);
    r, y := r0, y0;
    if z != 0 {
      r, y := r0 + k, z;
      Pow2Add(k, r0 - 1);
      Bracket(x, y0, z, p, Pow2(r0 - 1));
    }
  }

  lemma Bracket(x: int, y: int, z: int, p: int, w: int)
    requires p > 0 && w > 0 && z == y / p && y * w <= x < (y + 1) * w
    ensures z * (p * w) <= x < (z + 1) * (p * w)
  {
    assert y == z * p + y % p;
    MulAssoc(z, p, w);
    MulAssoc(z + 1, p, w);
    MulMono(z * p, y, w);
    MulMono(y + 1, (z + 1) * p, w);
  }

  /** To mention it makes the definition of SpreadSoFar available, which keeps it out of proofs that have no use for
      it. */
  ghost predicate Peek(u: int) { true }

  /** The n digits of T from i on, and top above them, times 2^bs: what is in w from j on, and the carry c below. */
  ghost predicate SpreadSoFar(w: Store, j: int, T: Store, i: int, n: nat, bs: nat, top: int, c: int) {
    forall u {:trigger Peek(u)} :: Peek(u) ==> B * V(w, j, n) + c == Dbl(V(T, i, n), bs) + Sh(top, n)
  }

  /** The n digits `rShiftTo` has written, shifted back and with the lost bits, are those of T from ds up. */
  ghost predicate DownSoFar(w: Store, n: nat, bs: nat, T: Store, ds: int, low: int) {
    forall u {:trigger Peek(u)} :: Peek(u) ==>
      && bs < DIGIT_BITS && n > 0 && Window(w, 0, n) && w[n - 1] < Pow2(DIGIT_BITS - bs)
      && Dbl(V(w, 0, n), bs) + low == V(T, ds, n)
  }

  class BigInteger {
    var a: Store
    var t: int
    var s: int

    ghost predicate Valid()
      reads this
    {
      t >= 0 && Window(a, 0, t) && (s == 0 || s == -1)
    }

    /** The number represented. */
    ghost function Value(): int
      requires t >= 0
      reads this
    {
      V(a, 0, t) + Sh(s, t)
    }

    /** No redundant sign digit on top: what `clamp` establishes. */
    ghost predicate Clamped()
      reads this
    {
      t > 0 ==> At(a, t - 1) != s % B
    }

    constructor ()
      ensures Valid() && Clamped() && Value() == 0 && a == map[] && t == 0 && s == 0
    {
      a, t, s := map[], 0, 0;
    }

    /** w[j..j+n) += x * this[i..i+n) + c, the carry out is the result. */
    method Am3(i: int, x: int, w: BigInteger, j: int, c0: int, n: nat) returns (c: int)
      requires w != this
      requires Window(a, i, n) && Window(w.a, j, n)
      requires 0 <= x < 2 * B && 0 <= c0 < 3 * B
      modifies w`a
      ensures V(w.a, j, n) + Sh(c, n) == V(old(w.a), j, n) + x * V(a, i, n) + c0
      ensures Window(w.a, j, n) && w.a.Keys == old(w.a.Keys)
      ensures forall k :: k in w.a && !(j <= k < j + n) ==> w.a[k] == old(w.a)[k]
      ensures 0 <= c < 3 * B && (c0 <= x ==> c <= x)
    {
      c := c0;
      ghost var w0 := w.a;
      var xl, xh := Low14(x), High14(x);
      var k := 0;
      while k < n
        invariant 0 <= k <= n
        invariant Window(w.a, j, n) && w.a.Keys == w0.Keys
        invariant forall q :: q in w.a && !(j <= q < j + k) ==> w.a[q] == w0[q]
        invariant 0 <= c < 3 * B && (c0 <= x ==> c <= x)
        invariant V(w.a, j, k) + Sh(c, k) == V(w0, j, k) + x * V(a, i, k) + c0
      {
        ghost var before, carry := w.a, c;
        var d := a[i + k];
        SplitProduct(x, d);
        var l, h := Low14(d), High14(d);
        var m := xh * l + h * xl;
        l := xl * l + Low14(m) * 0x4000 + w.a[j + k] + c;
        c := CarryOf(l) + High14(m) + xh * h;
        w.a := w.a[j + k := DigitOf(l)];
        Frame(before, w.a, j, k);
        CarryBound(x, d, before[j + k], carry, c, w.a[j + k]);
        Accumulate(x, d, before[j + k], carry, c, w.a[j + k], k, V(a, i, k));
        k := k + 1;
      }
    }

    /** Drops redundant sign digits. */
    method Clamp()
      requires Valid()
      modifies this`t
      ensures Valid() && Clamped() && Value() == old(Value()) && t <= old(t)
    {
      var c := s % B;
      while t > 0 && a[t - 1] == c
        invariant Valid() && t <= old(t) && Value() == old(Value())
        decreases t
      {
        SignDigit(s, t - 1);
        t := t - 1;
      }
    }

    method CopyTo(r: BigInteger)
      requires Valid()
      modifies r
      ensures r.Valid() && r.Value() == old(Value()) && r.t == old(t) && r.s == old(s)
      ensures old(Clamped()) ==> r.Clamped()
    {
      ghost var src := a;
      var i := t - 1;
      while i >= 0
        modifies r`a
        invariant -1 <= i < t && Window(src, 0, t)
        invariant forall k :: 0 <= k <= i ==> k in a && a[k] == src[k]
        invariant forall k :: i < k < t ==> k in r.a && r.a[k] == src[k]
      {
        r.a := r.a[i := a[i]];
        i := i - 1;
      }
      r.t := t;
      r.s := s;
      Frame(src, r.a, 0, r.t);
    }

    /** r_array[i] = v & BI_DM, and the carry v >> BI_DB. */
    method Emit(i: int, v: int) returns (c: int)
      requires i >= 0 && Window(a, 0, i) && Int32(v)
      modifies this`a
      ensures a == old(a)[i := v % B] && Window(a, 0, i + 1) && c == v / B
      ensures V(a, 0, i + 1) + Sh(c, i + 1) == V(old(a), 0, i) + Sh(v, i)
    {
      a := a[i := DigitOf(v)];
      c := CarryOf(v);
      Frame(old(a), a, 0, i);
      ScaledCarry(v, i);
    }

    /** The loop of `subTo` over the digits both operands have. */
    method SubCommon(x: BigInteger, r: BigInteger, m: int) returns (c: int)
      requires Window(a, 0, t) && Window(x.a, 0, x.t)
      requires 0 <= m <= t && m <= x.t
      modifies r`a
      ensures Window(r.a, 0, m) && -1 <= c <= 0
      ensures Window(a, m, t - m) && V(a, 0, t) - V(a, 0, m) == old(V(a, 0, t) - V(a, 0, m))
      ensures Window(x.a, m, x.t - m) && V(x.a, 0, x.t) - V(x.a, 0, m) == old(V(x.a, 0, x.t) - V(x.a, 0, m))
      ensures V(r.a, 0, m) + Sh(c, m) == V(old(a), 0, m) - V(old(x.a), 0, m)
    {
      ghost var T, X := a, x.a;
      var i := 0;
      c := 0;
      while i < m
        invariant 0 <= i <= m && -1 <= c <= 0 && Window(r.a, 0, i)
        invariant forall k :: i <= k < t ==> k in a && a[k] == T[k]
        invariant forall k :: i <= k < x.t ==> k in x.a && x.a[k] == X[k]
        invariant V(r.a, 0, i) + Sh(c, i) == V(T, 0, i) - V(X, 0, i)
      {
        var p, q := a[i], x.a[i];
        DifferenceTerms(c, p, q, i);
        c := r.Emit(i, c + p - q);
        i := i + 1;
      }
      Rest(a, T, m, t);
      Rest(x.a, X, m, x.t);
    }

    /** As `SubCommon`, for `addTo`. */
    method AddCommon(x: BigInteger, r: BigInteger, m: int) returns (c: int)
      requires Window(a, 0, t) && Window(x.a, 0, x.t)
      requires 0 <= m <= t && m <= x.t
      modifies r`a
      ensures Window(r.a, 0, m) && 0 <= c <= 1
      ensures Window(a, m, t - m) && V(a, 0, t) - V(a, 0, m) == old(V(a, 0, t) - V(a, 0, m))
      ensures Window(x.a, m, x.t - m) && V(x.a, 0, x.t) - V(x.a, 0, m) == old(V(x.a, 0, x.t) - V(x.a, 0, m))
      ensures V(r.a, 0, m) + Sh(c, m) == V(old(a), 0, m) + V(old(x.a), 0, m)
    {
      ghost var T, X := a, x.a;
      var i := 0;
      c := 0;
      ShOne(0);
      while i < m
        invariant 0 <= i <= m && 0 <= c <= 1 && Window(r.a, 0, i)
        invariant forall k :: i <= k < t ==> k in a && a[k] == T[k]
        invariant forall k :: i <= k < x.t ==> k in x.a && x.a[k] == X[k]
        invariant V(r.a, 0, i) + Sh(c, i) == V(T, 0, i) + V(X, 0, i)
      {
        var p, q := a[i], x.a[i];
        SumTerms(c, p, q, i);
        c := r.Emit(i, c + p + q);
        i := i + 1;
      }
      Rest(a, T, m, t);
      Rest(x.a, X, m, x.t);
    }

    /** The digits and the sign only this has, added to a carry out of the first m digits. */
    method CarryOn(r: BigInteger, m: int, c0: int)
      requires t >= 0 && (s == 0 || s == -1)
      requires 0 <= m <= t && Window(r.a, 0, m) && Window(a, m, t - m)
      requires -1 <= c0 <= 1
      modifies r
      ensures r.Valid() && r.Clamped()
      ensures r.Value() == old(V(r.a, 0, m) + Sh(c0, m) + Value() - V(a, 0, m))
    {
      ghost var T, R := a, r.a;
      var i, c := m, c0;
      while i < t
        modifies r`a
        invariant m <= i <= t && -1 <= c <= 1 && Window(r.a, 0, i)
        invariant forall k :: i <= k < t ==> k in a && a[k] == T[k]
        invariant V(r.a, 0, i) + Sh(c, i) == V(R, 0, m) + Sh(c0, m) + V(T, 0, i) - V(T, 0, m)
      {
        ShAdd(c, a[i], i);
        c := r.Emit(i, c + a[i]);
        i := i + 1;
      }
      ShAdd(c, s, i);
      r.Finish(i, c + s);
    }

    /** The digits and the sign only this has, subtracted from such a carry. */
    method BorrowOn(r: BigInteger, m: int, c0: int)
      requires t >= 0 && (s == 0 || s == -1)
      requires 0 <= m <= t && Window(r.a, 0, m) && Window(a, m, t - m)
      requires -2 <= c0 <= 0
      modifies r
      ensures r.Valid() && r.Clamped()
      ensures r.Value() == old(V(r.a, 0, m) + Sh(c0, m) - Value() + V(a, 0, m))
    {
      ghost var T, R := a, r.a;
      var i, c := m, c0;
      while i < t
        modifies r`a
        invariant m <= i <= t && -2 <= c <= 0 && Window(r.a, 0, i)
        invariant forall k :: i <= k < t ==> k in a && a[k] == T[k]
        invariant V(r.a, 0, i) + Sh(c, i) == V(R, 0, m) + Sh(c0, m) - V(T, 0, i) + V(T, 0, m)
      {
        var p := a[i];
        ShAdd(c, -p, i);
        ShNeg(p, i);
        c := r.Emit(i, c - p);
        i := i + 1;
      }
      ShAdd(c, -s, i);
      ShNeg(s, i);
      r.Finish(i, c - s);
    }

    /** this - x into r; r may be this or x. */
    method SubTo(x: BigInteger, r: BigInteger)
      requires Valid() && x.Valid()
      modifies r
      ensures r.Valid() && r.Clamped() && r.Value() == old(Value()) - old(x.Value())
    {
      var m := if x.t < t then x.t else t;
      ghost var X, Y := Value(), x.Value();
      var c := SubCommon(x, r, m);
      if x.t < t {
        ShAdd(c, -x.s, m);
        ShNeg(x.s, m);
        CarryOn(r, m, c - x.s);
      } else {
        ShAdd(c, s, m);
        x.BorrowOn(r, m, c + s);
      }
      assert r.Value() == X - Y;
    }

    /** this + x into r; r may be this or x. */
    method AddTo(x: BigInteger, r: BigInteger)
      requires Valid() && x.Valid()
      modifies r
      ensures r.Valid() && r.Clamped() && r.Value() == old(Value()) + old(x.Value())
    {
      var m := if x.t < t then x.t else t;
      var c := AddCommon(x, r, m);
      if x.t < t {
        ShAdd(c, x.s, m);
        CarryOn(r, m, c + x.s);
      } else {
        ShAdd(c, s, m);
        x.CarryOn(r, m, c + s);
      }
    }

    /** The common tail of `subTo` and `addTo`: the last carry becomes sign and top digit. */
    method Finish(n: int, c: int)
      requires n >= 0 && -2 <= c <= 2 && Window(a, 0, n)
      modifies this
      ensures Valid() && Clamped() && Value() == V(old(a), 0, n) + Sh(c, n)
    {
      ghost var before := a;
      var i := n;
      s := if c < 0 then -1 else 0;
      if c < -1 {
        a, i := a[i := B + c], i + 1;
        SignDigitOf(c, n);
      } else if c > 0 {
        a, i := a[i := c], i + 1;
      }
      ShOne(n);
      ShOne(n + 1);
      Frame(before, a, 0, n);
      t := i;
      Clamp();
    }

    /** The copying loop of `dlShiftTo`. */
    method CopyUp(n: int, r: BigInteger)
      requires Valid() && n >= 0
      modifies r`a
      ensures forall k :: n <= k < t + n ==> k in r.a && r.a[k] == old(a)[k - n]
    {
      ghost var T := a;
      var i := t - 1;
      while i >= 0
        invariant -1 <= i < t
        invariant forall k :: 0 <= k <= i ==> k in a && a[k] == T[k]
        invariant forall k :: i + n < k < t + n ==> k in r.a && r.a[k] == T[k - n]
      {
        r.a := r.a[i + n := a[i]];
        i := i - 1;
      }
    }

    /** Zeros below index n, written downwards. */
    method ZeroBelow(n: int)
      modifies this`a
      ensures forall k :: 0 <= k < n ==> k in a && a[k] == 0
      ensures forall k :: k >= n && k in old(a) ==> k in a && a[k] == old(a)[k]
    {
      var i := n - 1;
      while i >= 0
        invariant forall k :: i < k < n ==> k in a && a[k] == 0
        invariant forall k :: k >= n && k in old(a) ==> k in a && a[k] == old(a)[k]
      {
        a := a[i := 0];
        i := i - 1;
      }
    }

    /** this * B^n into r; r may be this. */
    method DlShiftTo(n: int, r: BigInteger)
      requires Valid() && n >= 0
      modifies r
      ensures r.Valid() && r.t == old(t) + n && r.s == old(s)
      ensures r.Value() == old(Value()) * Pow(n)
      ensures old(Clamped()) && old(t) > 0 ==> r.Clamped()
      ensures forall k :: n <= k < r.t ==> r.a[k] == old(a)[k - n]
    {
      ghost var T, X := a, Value();
      ShiftDigitsUp(n, r);
      assert t > 0 ==> r.a[t + n - 1] == T[t - 1];
      ghost var Y := X * Pow(n);
      assert V(r.a, 0, t + n) + Sh(s, t + n) == Y;
      r.t, r.s := t + n, s;
    }

    /** The two loops of `dlShiftTo`. */
    method ShiftDigitsUp(n: int, r: BigInteger)
      requires Valid() && n >= 0
      modifies r`a
      ensures Window(r.a, 0, t + n) && V(r.a, 0, t + n) + Sh(s, t + n) == old(Value()) * Pow(n)
      ensures forall k :: n <= k < t + n ==> r.a[k] == old(a)[k - n]
    {
      ghost var T := a;
      CopyUp(n, r);
      r.ZeroBelow(n);
      ShiftUp(T, r.a, t, s, n);
    }

    /** The copying loop of `drShiftTo`. */
    method CopyDown(n: int, r: BigInteger)
      requires Valid() && n >= 0
      modifies r`a
      ensures forall k :: 0 <= k < t - n ==> k in r.a && r.a[k] == old(a)[k + n]
    {
      ghost var T := a;
      var i := n;
      while i < t
        invariant n <= i && (i <= t || i == n)
        invariant forall k :: i <= k < t ==> k in a && a[k] == T[k]
        invariant forall k :: 0 <= k < i - n ==> k in r.a && r.a[k] == T[k + n]
      {
        r.a := r.a[i - n := a[i]];
        i := i + 1;
      }
    }

    /** floor(this / B^n) into r; r may be this. */
    method DrShiftTo(n: int, r: BigInteger)
      requires Valid() && n >= 0
      modifies r
      ensures r.Valid() && r.t == (if old(t) > n then old(t) - n else 0) && r.s == old(s)
      ensures r.Value() == old(Value()) / Pow(n)
      ensures old(Clamped()) ==> r.Clamped()
      ensures forall k :: 0 <= k < r.t ==> r.a[k] == old(a)[k + n]
    {
      ghost var T := a;
      CopyDown(n, r);
      ShiftDown(T, r.a, t, s, n);
      r.t, r.s := if t > n then t - n else 0, s;
    }

    /** -this, as `BigInteger.ZERO.subTo(this, r)`. */
    method NegateTo(r: BigInteger)
      requires Valid()
      modifies r
      ensures r.Valid() && r.Clamped() && r.Value() == -old(Value())
    {
      var zero := new BigInteger();
      zero.SubTo(this, r);
    }

    method Abs() returns (r: BigInteger)
      requires Valid()
      ensures r.Valid() && r.s == 0
      ensures r.Value() == if Value() < 0 then -Value() else Value()
      ensures s == 0 ==> r == this
      ensures s < 0 ==> fresh(r) && r.Clamped()
    {
      SignOfValue(this);
      if s < 0 {
        r := new BigInteger();
        NegateTo(r);
        SignOfValue(r);
      } else {
        r := this;
      }
    }

    /**
      `fromInt`.  Below -1 the source reads a name it never defines (`DV`, where `BI_DV` is
      meant) and throws: `ok` is false.
     */
    method FromInt(x: int) returns (ok: bool)
      requires -B <= x < B
      modifies this
      ensures ok <==> x >= -1
      ensures ok ==> Valid() && Clamped() && Value() == x
    {
      t := 1;
      s := if x < 0 then -1 else 0;
      ok := true;
      if x > 0 {
        a := a[0 := x];
        assert V(a, 0, 1) == V(a, 0, 0) + Sh(x, 0);
      } else if x < -1 {
        ok := false;
      } else {
        t := 0;
      }
      ShOne(1);
    }

    /** The sign of this - x, unless both are negative and of different lengths. */
    method CompareTo(x: BigInteger) returns (r: int)
      requires Valid() && Clamped() && x.Valid() && x.Clamped()
      ensures s == 0 || x.s == 0 || t == x.t ==> Sign(r) == Sign(Value() - x.Value())
      ensures s < 0 && x.s < 0 && t != x.t ==> Sign(r) == -Sign(Value() - x.Value())
    {
      Magnitude(this);
      Magnitude(x);
      r := s - x.s;
      if r != 0 { return; }
      r := t - x.t;
      if r != 0 {
        PowMono(if t < x.t then t else x.t, if t < x.t then x.t - 1 else t - 1);
        return;
      }
      var i := t - 1;
      while i >= 0
        invariant -1 <= i < t && s == x.s && t == x.t
        invariant V(a, 0, t) - V(x.a, 0, t) == V(a, 0, i + 1) - V(x.a, 0, i + 1)
      {
        r := a[i] - x.a[i];
        if r < 0 { TopDigitDecides(a, x.a, i + 1); return; }
        if r > 0 { TopDigitDecides(x.a, a, i + 1); return; }
        i := i - 1;
      }
      r := 0;
    }

    /** Writes the digit below a window. */
    method PutBelow(j: int, v: int, ghost n: nat)
      requires 0 <= v < B && Window(a, j + 1, n)
      modifies this`a
      ensures a == old(a)[j := v] && Window(a, j, n + 1)
      ensures V(a, j, n + 1) == v + B * V(old(a), j + 1, n)
    {
      a := a[j := v];
      Frame(old(a), a, j + 1, n);
      Head(a, j, n + 1);
    }

    /** One step of `lShiftTo`: the low bits of d are carried down, the high ones join the carry from above. */
    method PutSpread(j: int, ghost n: nat, d: int, bs: nat, c0: int, ghost T: Store, ghost i: int, ghost top: int)
        returns (c: int)
      requires Window(a, j + 1, n) && bs < DIGIT_BITS && 0 <= d < B && d == At(T, i)
      requires 0 <= c0 <= B - Pow2(bs) && LowClear(c0, bs)
      requires SpreadSoFar(a, j + 1, T, i + 1, n, bs, top, c0)
      modifies this`a
      ensures Window(a, j, n + 1) && j in a && a == old(a)[j := a[j]]
      ensures 0 <= c <= B - Pow2(bs) && LowClear(c, bs)
      ensures SpreadSoFar(a, j, T, i, n + 1, bs, top, c)
    {
      assert Peek(0);
      var h, l := CutLeft(d, bs);
      SpreadStep(T, i, n, bs, top, V(a, j + 1, n), c0, h, l);
      PutBelow(j, Or(h, c0, bs), n);
      c := l;
    }

    /** The digits of this * 2^bs + top * B^t above place ds, written downwards; c is left over. */
    method SpreadUp(r: BigInteger, ds: int, bs: nat, top: int) returns (c: int)
      requires Valid() && ds >= 0 && bs < DIGIT_BITS
      requires 0 <= top <= B - Pow2(bs) && LowClear(top, bs)
      modifies r`a
      ensures Window(r.a, ds + 1, t) && 0 <= c < B
      ensures B * V(r.a, ds + 1, t) + c == Dbl(V(old(a), 0, t), bs) + Sh(top, t)
    {
      ghost var T, n := a, 0;
      var i := t;
      c := top;
      SpreadNone(r.a, ds + t + 1, T, t, bs, top);
      while i > 0
        invariant 0 <= i <= t && n == t - i && Window(T, 0, t) && Window(r.a, ds + i + 1, n)
        invariant forall k :: 0 <= k < i ==> k in a && a[k] == T[k]
        invariant 0 <= c <= B - Pow2(bs) && LowClear(c, bs)
        invariant SpreadSoFar(r.a, ds + i + 1, T, i, n, bs, top, c)
      {
        i := i - 1;
        c := r.PutSpread(i + ds + 1, n, a[i], bs, c, T, i, top);
        n := n + 1;
      }
      SpreadAll(r.a, ds + 1, T, n, bs, top, c);
    }

    /** this * 2^n into r; r may be this. */
    method LShiftTo(n: nat, r: BigInteger)
      requires Valid()
      modifies r
      ensures r.Valid() && r.Clamped() && r.s == old(s)
      ensures r.Value() == old(Value()) * Pow2(n)
    {
      ghost var T := a;
      var bs, ds := n % DIGIT_BITS, n / DIGIT_BITS;
      SignBits(s, bs);
      var top := s * Pow2(bs) % B;  // (this.s << bs) & BI_DM
      var c := SpreadUp(r, ds, bs, top);
      r.PutLow(ds, c, t);
      ShiftedValue(V(T, 0, t), s, top, t, bs, ds);
      r.t, r.s := t + ds + 1, s;
      r.Clamp();
    }

    /** r_array[k-1] |= l */
    method AddTop(k: int, l: int, cbs: nat)
      requires k > 0 && Window(a, 0, k) && cbs <= DIGIT_BITS
      requires a[k - 1] < Pow2(cbs) && 0 <= l <= B - Pow2(cbs) && LowClear(l, cbs)
      modifies this`a
      ensures a == old(a)[k - 1 := old(a)[k - 1] + l] && Window(a, 0, k)
      ensures V(a, 0, k) == V(old(a), 0, k) + Sh(l, k - 1)
    {
      a := a[k - 1 := Or(a[k - 1], l, cbs)];
      Frame(old(a), a, 0, k - 1);
      ShAdd(old(a)[k - 1], l, k - 1);
    }

    /** Writes the digit above a window. */
    method PutAbove(k: int, h: int)
      requires k >= 0 && Window(a, 0, k) && 0 <= h < B
      modifies this`a
      ensures a == old(a)[k := h] && Window(a, 0, k + 1)
      ensures V(a, 0, k + 1) == V(old(a), 0, k) + Sh(h, k)
    {
      a := a[k := h];
      Frame(old(a), a, 0, k);
    }

    /** One step of `rShiftTo`: the low bits of d join the digit below, the rest goes to place k. */
    method PutShifted(k: int, d: int, bs: nat)
      requires k > 0 && Window(a, 0, k) && bs < DIGIT_BITS && 0 <= d < B
      requires a[k - 1] < Pow2(DIGIT_BITS - bs)
      modifies this`a
      ensures Window(a, 0, k + 1) && a[k] < Pow2(DIGIT_BITS - bs)
      ensures forall j :: j > k && j in old(a) ==> j in a && a[j] == old(a)[j]
      ensures Dbl(V(a, 0, k + 1), bs) == Dbl(V(old(a), 0, k), bs) + Sh(d, k)
    {
      var h, l := CutRight(d, bs);
      SpreadDownStep(d, bs, V(a, 0, k), h, l, k);
      AddTop(k, l, DIGIT_BITS - bs);
      PutAbove(k, h);
    }

    /** The next digit d of T, from place ds on. */
    method PutNext(k: int, d: int, bs: nat, ghost T: Store, ghost ds: int, ghost low: int)
      requires k > 0 && bs < DIGIT_BITS && 0 <= d < B && d == At(T, ds + k) && DownSoFar(a, k, bs, T, ds, low)
      modifies this`a
      ensures forall j :: j > k && j in old(a) ==> j in a && a[j] == old(a)[j]
      ensures DownSoFar(a, k + 1, bs, T, ds, low)
    {
      assert Peek(0);
      LastDigit(T, ds, k);
      PutShifted(k, d, bs);
    }

    /** The digits of floor(this / 2^bs / B^ds), without the sign bits. */
    method SpreadDown(r: BigInteger, ds: int, bs: nat) returns (ghost low: int)
      requires Valid() && 0 <= ds < t && bs < DIGIT_BITS
      modifies r`a
      ensures Window(r.a, 0, t - ds) && r.a[t - ds - 1] < Pow2(DIGIT_BITS - bs)
      ensures 0 <= low < Pow2(bs)
      ensures Dbl(V(r.a, 0, t - ds), bs) + low == V(old(a), ds, t - ds)
    {
      ghost var T := a;
      var h, l := CutRight(a[ds], bs);
      low := a[ds] - Dbl(h, bs);
      assert V(T, ds, 1) == V(T, ds, 0) + Sh(T[ds], 0);
      assert Sh(h, 0) == h;
      r.PutAbove(0, h);
      var i := ds + 1;
      while i < t
        invariant ds + 1 <= i <= t && DownSoFar(r.a, i - ds, bs, T, ds, low)
        invariant forall j :: i <= j < t ==> j in a && a[j] == T[j] && 0 <= a[j] < B
      {
        r.PutNext(i - ds, a[i], bs, T, ds, low);
        i := i + 1;
      }
      assert Peek(0);
    }

    /** floor(this / 2^n) into r; r may be this. */
    method RShiftTo(n: nat, r: BigInteger)
      requires Valid()
      modifies r
      ensures r.Valid() && r.Clamped() && r.s == old(s)
      ensures r.Value() == old(Value()) / Pow2(n)
    {
      r.s := s;
      var ds := n / DIGIT_BITS;
      if ds >= t {
        ShiftedOut(a, t, s, n, ds);
        r.t := 0;
        return;
      }
      RShiftDigits(r, ds, n % DIGIT_BITS);
      r.t := t - ds;
      r.Clamp();
    }

    /** `rShiftTo` when digits are left over. */
    method RShiftDigits(r: BigInteger, ds: int, bs: nat)
      requires Valid() && 0 <= ds < t && bs < DIGIT_BITS
      modifies r`a
      ensures Window(r.a, 0, t - ds)
      ensures V(r.a, 0, t - ds) + Sh(s, t - ds) == old(Value()) / Pow2(bs + DIGIT_BITS * ds)
    {
      ghost var T, k := a, t - ds;
      ghost var low := SpreadDown(r, ds, bs);
      ghost var v := V(r.a, 0, k);
      var h, l := CutRight(s, bs);
      SpreadDownStep(s, bs, v, h, l, k);
      ShiftedDown(T, t, s, bs, ds, v + Sh(l, k - 1), low);
      if bs > 0 {
        r.AddTop(t - ds, l, DIGIT_BITS - bs);
      } else {
        ShOne(k - 1);
      }
    }

    /** Completes a shift: the last digit at place ds and zeros below it. */
    method PutLow(ds: int, c: int, n: nat)
      requires ds >= 0 && 0 <= c < B && Window(a, ds + 1, n)
      modifies this`a
      ensures Window(a, 0, ds + n + 1)
      ensures V(a, 0, ds + n + 1) == Sh(B * V(old(a), ds + 1, n) + c, ds)
    {
      ghost var upper := a;
      ZeroBelow(ds);
      Frame(upper, a, ds + 1, n);
      PutBelow(ds, c, n);
      Zero(a, 0, ds);
      Split(a, 0, ds, n + 1);
    }

    /** One row of schoolbook multiplication: r += y_i * this * B^i, a new top digit included. */
    method AddRow(r: BigInteger, i: int, y: int)
      requires Valid() && r != this && i >= 0 && 0 <= y < B
      requires Window(r.a, 0, i + t)
      modifies r`a
      ensures Window(r.a, 0, i + t + 1)
      ensures forall k :: k > i + t && k in old(r.a) ==> k in r.a && r.a[k] == old(r.a)[k]
      ensures V(r.a, 0, i + t + 1) == V(old(r.a), 0, i + t) + V(a, 0, t) * Sh(y, i)
    {
      ghost var R := r.a;
      var c := Am3(0, y, r, i, 0, t);
      RowAdded(R, r.a, i, t, c, y, V(a, 0, t));
      r.PutAbove(i + t, c);
    }

    /** The rows of a product of two non-negative numbers. */
    method MultiplyRows(v: BigInteger, r: BigInteger)
      requires Valid() && v.Valid() && r != this && r != v
      modifies r
      ensures r.Valid() && r.Clamped() && r.Value() == V(a, 0, t) * V(v.a, 0, v.t)
    {
      ghost var x := V(a, 0, t);
      r.t := t + v.t;
      r.ZeroBelow(t);
      Zero(r.a, 0, t);
      var i := 0;
      while i < v.t
        modifies r`a
        invariant 0 <= i <= v.t && Window(r.a, 0, i + t)
        invariant V(r.a, 0, i + t) == x * V(v.a, 0, i)
      {
        AddRow(r, i, v.a[i]);
        MulDistr(x, V(v.a, 0, i), Sh(v.a[i], i));
        i := i + 1;
      }
      r.s := 0;
      ShOne(r.t);
      r.Clamp();
    }

    /** this * x into r, which is neither operand. */
    method MultiplyTo(x: BigInteger, r: BigInteger)
      requires Valid() && x.Valid() && r != this && r != x
      modifies r
      ensures r.Valid() && r.Clamped() && r.Value() == Value() * x.Value()
    {
      SignOfValue(this);
      SignOfValue(x);
      var u := Abs();
      var v := x.Abs();
      SignOfValue(u);
      SignOfValue(v);
      SignedProduct(Value(), x.Value(), u.Value(), v.Value());
      u.MultiplyRows(v, r);
      if s != x.s {
        r.NegateTo(r);
      }
    }
  }

  /** d >> cbs and (d & bm) << bs, where cbs = 28 - bs and bm = (1 << cbs) - 1. */
  method CutLeft(d: int, bs: nat) returns (h: int, l: int)
    requires bs < DIGIT_BITS && 0 <= d < B
    ensures 0 <= h < Pow2(bs) && 0 <= l <= B - Pow2(bs) && LowClear(l, bs)
    ensures Dbl(d, bs) == h * B + l
  {
    var p, q := Pow2(bs), Pow2(DIGIT_BITS - bs);
    h, l := d / q, d % q * p;
    CutDigit(bs);
    DivBelow(d, q, p);
    SpreadLow(d % q, bs, p, q);
    DblPow(d, bs);
    MulSplit(d / q, q, d % q, p);
  }

  lemma SpreadStep(a: Store, i: int, n: nat, bs: nat, top: int, v: int, c: int, h: int, l: int)
    requires B * v + c == Dbl(V(a, i + 1, n), bs) + Sh(top, n)
    requires Dbl(At(a, i), bs) == h * B + l
    ensures B * (h + c + B * v) + l == Dbl(V(a, i, n + 1), bs) + Sh(top, n + 1)
  {
    Head(a, i, n + 1);
    DblStep(At(a, i), V(a, i + 1, n), bs);
  }

  /** d >> bs and (d & bm) << cbs, where cbs = 28 - bs and bm = (1 << bs) - 1. */
  method CutRight(d: int, bs: nat) returns (h: int, l: int)
    requires bs < DIGIT_BITS && -1 <= d < B
    ensures 0 <= d - Dbl(h, bs) < Pow2(bs)
    ensures d >= 0 ==> 0 <= h < Pow2(DIGIT_BITS - bs)
    ensures d <= 0 ==> h == d
    ensures 0 <= l <= B - Pow2(DIGIT_BITS - bs) && LowClear(l, DIGIT_BITS - bs)
    ensures Dbl(l, bs) + B * Dbl(h, bs) == B * d
    ensures bs == 0 ==> l == 0
  {
    var p, q := Pow2(bs), Pow2(DIGIT_BITS - bs);
    h, l := d / p, d % p * q;
    CutDigit(bs);
    QuotientRange(d, p, q);
    Pow2Digit();
    SpreadLow(d % p, DIGIT_BITS - bs, q, p);
    DblPow(h, bs);
    DblPow(l, bs);
    MulAssoc(d % p, q, p);
  }

  lemma SpreadNone(w: Store, j: int, T: Store, i: int, bs: nat, top: int)
    ensures SpreadSoFar(w, j, T, i, 0, bs, top, top)
  {
    DblPow(0, bs);
    assert Sh(top, 0) == top;
  }

  lemma SpreadAll(w: Store, j: int, T: Store, n: nat, bs: nat, top: int, c: int)
    requires SpreadSoFar(w, j, T, 0, n, bs, top, c)
    ensures B * V(w, j, n) + c == Dbl(V(T, 0, n), bs) + Sh(top, n)
  {
    assert Peek(0);
  }

  lemma LastDigit(a: Store, lo: int, n: nat)
    ensures V(a, lo, n + 1) == V(a, lo, n) + Sh(At(a, lo + n), n)
  {
  }

  /** What a row adds, when the digits below it have not changed. */
  lemma RowAdded(R: Store, a: Store, i: nat, t: nat, c: int, y: int, x: int)
    requires Agree(R, a, 0, i) && V(a, i, t) + Sh(c, t) == V(R, i, t) + y * x
    ensures V(a, 0, i + t) + Sh(c, i + t) == V(R, 0, i + t) + x * Sh(y, i)
  {
    Frame(R, a, 0, i);
    Split(R, 0, i, t);
    Split(a, 0, i, t);
    RowSum(V(R, i, t), V(a, i, t), c, y, x, i, t);
  }

  lemma RowSum(m: int, m': int, c: int, y: int, x: int, i: nat, t: nat)
    requires m' + Sh(c, t) == m + y * x
    ensures Sh(m', i) + Sh(c, i + t) == Sh(m, i) + x * Sh(y, i)
  {
    ShAdd(m', Sh(c, t), i);
    ShAddExp(c, t, i);
    ShAdd(m, y * x, i);
    ShMul(x, y, i);
    assert x * y == y * x;
  }

  lemma SignedProduct(x: int, y: int, u: int, v: int)
    requires u == (if x < 0 then -x else x) && v == (if y < 0 then -y else y)
    ensures x * y == if (x < 0) == (y < 0) then u * v else -(u * v)
  {
  }

  lemma MulDistr(x: int, y: int, z: int)
    ensures x * (y + z) == x * y + x * z
  {
  }

  lemma MulSwap(x: int, y: int, z: int)
    ensures x * y * z == x * z * y
  {
    MulAssoc(x, y, z);
    MulAssoc(x, z, y);
    assert y * z == z * y;
  }

  lemma MulAssoc(x: int, y: int, z: int)
    ensures x * y * z == x * (y * z)
  {
  }

  lemma QuotientRange(d: int, p: nat, q: nat)
    requires p > 0 && -1 <= d < p * q
    ensures d == d / p * p + d % p && 0 <= d % p < p
    ensures d >= 0 ==> 0 <= d / p < q
    ensures d <= 0 ==> d / p == d
  {
    if d >= 0 {
      DivBelow(d, p, q);
      if d == 0 { DivIs(d, p, 0, 0); }
    } else {
      DivIs(d, p, -1, p - 1);
    }
  }

  lemma SpreadDownStep(d: int, bs: nat, v: int, h: int, l: int, k: nat)
    requires k > 0 && Dbl(l, bs) + B * Dbl(h, bs) == B * d
    ensures Dbl(v + Sh(l, k - 1) + Sh(h, k), bs) == Dbl(v, bs) + Sh(d, k)
  {
    DblAdd(v + Sh(l, k - 1), Sh(h, k), bs);
    DblAdd(v, Sh(l, k - 1), bs);
    DblSh(l, k - 1, bs);
    DblSh(h, k, bs);
    ShSucc(Dbl(h, bs), k - 1);
    ShAdd(Dbl(l, bs), B * Dbl(h, bs), k - 1);
    ShSucc(d, k - 1);
  }

  lemma ShiftedDown(a: Store, t: int, s: int, bs: nat, ds: nat, v: int, low: int)
    requires 0 <= ds < t && Window(a, 0, t)
    requires Dbl(v + Sh(s, t - ds), bs) + low == V(a, ds, t - ds) + Sh(s, t - ds)
    requires 0 <= low < Pow2(bs)
    ensures v + Sh(s, t - ds) == (V(a, 0, t) + Sh(s, t)) / Pow2(bs + DIGIT_BITS * ds)
  {
    var x, q := V(a, 0, t) + Sh(s, t), v + Sh(s, t - ds);
    var y := V(a, ds, t - ds) + Sh(s, t - ds);
    Split(a, 0, ds, t - ds);
    ShAddExp(s, t - ds, ds);
    ShAdd(V(a, ds, t - ds), Sh(s, t - ds), ds);
    Bound(a, 0, ds);
    ShPow(y, ds);
    DblPow(q, bs);
    NestedFloor(q, Pow2(bs), low, Pow(ds), V(a, 0, ds));
    Pow2Add(bs, DIGIT_BITS * ds);
    PowPow2(ds);
    DivIs(x, Pow2(bs) * Pow(ds), q, low * Pow(ds) + V(a, 0, ds));
  }

  lemma NestedFloor(q: int, p: nat, low: int, m: nat, r: int)
    requires 0 <= low < p && 0 <= r < m
    ensures (q * p + low) * m + r == q * (p * m) + (low * m + r)
    ensures 0 <= low * m + r < p * m
  {
    MulSplit(q, p, low, m);
    MulMono(low, p - 1, m);
    MulMono(0, low, m);
  }

  /** Everything is shifted out: the sign is left. */
  lemma ShiftedOut(a: Store, t: int, s: int, n: nat, ds: nat)
    requires 0 <= t <= ds && ds == n / DIGIT_BITS && Window(a, 0, t) && (s == 0 || s == -1)
    ensures (V(a, 0, t) + Sh(s, t)) / Pow2(n) == Sh(s, 0)
  {
    Bound(a, 0, t);
    ShOne(t);
    PowMono(t, ds);
    PowPow2(ds);
    Pow2Mono(DIGIT_BITS * ds, n);
    var x := V(a, 0, t) + Sh(s, t);
    DivIs(x, Pow2(n), s, x - s * Pow2(n));
  }

  lemma SpreadLow(l: int, bs: nat, p: nat, q: nat)
    requires p == Pow2(bs) && p * q == B && 0 <= l < q
    ensures 0 <= l * p <= B - p && LowClear(l * p, bs)
  {
    MulMono(l, q - 1, p);
    MulMono(0, l, p);
    DblPow(l, bs);
    DblLowClear(l, bs);
  }

  /** x / q for 0 <= x < p * q. */
  lemma DivBelow(x: int, q: nat, p: nat)
    requires q > 0 && 0 <= x < p * q
    ensures 0 <= x / q < p && x == x / q * q + x % q
  {
    if x / q >= p { MulMono(p, x / q, q); }
  }

  lemma MulSplit(h: int, q: int, l: int, p: int)
    ensures (h * q + l) * p == h * (p * q) + l * p
  {
    assert h * q * p == h * (p * q);
  }

  /** (s << bs) & BI_DM: the sign bits that enter from above. */
  lemma SignBits(s: int, bs: nat)
    requires (s == 0 || s == -1) && bs < DIGIT_BITS
    ensures 0 <= s * Pow2(bs) % B <= B - Pow2(bs) && LowClear(s * Pow2(bs) % B, bs)
    ensures s * Pow2(bs) % B + B * s == Dbl(s, bs)
  {
    var p, q := Pow2(bs), Pow2(DIGIT_BITS - bs);
    CutDigit(bs);
    DblPow(s, bs);
    if s == -1 {
      NegativeBits(bs, p, q);
      Negative(s, p);
    } else {
      SpreadLow(0, bs, p, q);
      assert s * p == 0;
    }
  }

  lemma Negative(s: int, p: int)
    requires s == -1
    ensures s * p == -p
  {
  }

  lemma NegativeBits(bs: nat, p: int, q: int)
    requires p == Pow2(bs) && p * q == B && 0 < p <= B && q > 0
    ensures -p % B == B - p && LowClear(B - p, bs)
  {
    assert (q - 1) * p == B - p;
    SpreadLow(q - 1, bs, p, q);
    DivIs(-p, B, -1, B - p);
  }

  lemma ShiftedValue(v: int, s: int, top: int, t: nat, bs: nat, ds: nat)
    requires top + B * s == Dbl(s, bs)
    ensures Sh(Dbl(v, bs) + Sh(top, t), ds) + Sh(s, t + ds + 1)
      == (v + Sh(s, t)) * Pow2(bs + DIGIT_BITS * ds)
  {
    ShSucc(s, t);
    ShAdd(top, B * s, t);
    DblSh(s, t, bs);
    DblAdd(v, Sh(s, t), bs);
    var x := v + Sh(s, t);
    ShAddExp(s, t + 1, ds);
    ShAdd(Dbl(v, bs) + Sh(top, t), Sh(s, t + 1), ds);
    DblPow(x, bs);
    ShPow(Dbl(x, bs), ds);
    Pow2Add(bs, DIGIT_BITS * ds);
    PowPow2(ds);
    assert x * Pow2(bs) * Pow(ds) == x * (Pow2(bs) * Pow(ds));
  }

  function Sign(x: int): int {
    if x < 0 then -1 else if x > 0 then 1 else 0
  }

  lemma SignOfValue(x: BigInteger)
    requires x.Valid()
    ensures x.s == 0 <==> x.Value() >= 0
    ensures x.s == 0 ==> x.Value() == V(x.a, 0, x.t)
  {
    Bound(x.a, 0, x.t);
    ShOne(x.t);
  }

  /** Between which powers of the base a number without redundant digits lies. */
  lemma Magnitude(x: BigInteger)
    requires x.Valid() && x.Clamped()
    ensures x.s == 0 ==> 0 <= x.Value() < Pow(x.t) && (x.t > 0 ==> Pow(x.t - 1) <= x.Value())
    ensures x.s < 0 ==> -Pow(x.t) <= x.Value() < 0 && (x.t > 0 ==> x.Value() < -Pow(x.t - 1))
    ensures x.t == 0 ==> x.Value() == x.s
  {
    var n := x.t;
    Bound(x.a, 0, n);
    ShOne(n);
    if n > 0 {
      Bound(x.a, 0, n - 1);
      ShOne(n - 1);
      var d := x.a[n - 1];
      if x.s == 0 {
        ShMono(1, d, n - 1);
      } else {
        ShMono(d, B - 2, n - 1);
        ShAdd(B, -2, n - 1);
        ShAdd(-1, -1, n - 1);
        ShSucc(1, n - 1);
      }
    }
  }

  lemma ShiftUp(a: Store, b: Store, t: int, s: int, n: int)
    requires t >= 0 && n >= 0
    requires forall k :: 0 <= k < t ==> At(a, k) == At(b, k + n)
    requires forall k :: 0 <= k < n ==> At(b, k) == 0
    ensures V(b, 0, t + n) + Sh(s, t + n) == (V(a, 0, t) + Sh(s, t)) * Pow(n)
  {
    Zero(b, 0, n);
    Moved(a, b, 0, n, t);
    Split(b, 0, n, t);
    ShAdd(V(a, 0, t), Sh(s, t), n);
    ShAddExp(s, t, n);
    ShPow(V(a, 0, t) + Sh(s, t), n);
  }

  lemma ShiftDown(a: Store, b: Store, t: int, s: int, n: int)
    requires t >= 0 && n >= 0 && Window(a, 0, t) && (s == 0 || s == -1)
    requires forall k :: 0 <= k < t - n ==> At(b, k) == At(a, k + n)
    ensures var t' := if t > n then t - n else 0;
      V(b, 0, t') + Sh(s, t') == (V(a, 0, t) + Sh(s, t)) / Pow(n)
  {
    var x := V(a, 0, t) + Sh(s, t);
    ShOne(t);
    ShOne(n);
    if t > n {
      Split(a, 0, n, t - n);
      Moved(b, a, 0, n, t - n);
      Bound(a, 0, n);
      var q := V(b, 0, t - n) + Sh(s, t - n);
      ShAdd(V(b, 0, t - n), Sh(s, t - n), n);
      ShAddExp(s, t - n, n);
      ShPow(q, n);
      DivIs(x, Pow(n), q, V(a, 0, n));
    } else {
      Bound(a, 0, t);
      PowMono(t, n);
      DivIs(x, Pow(n), s, x - s * Pow(n));
    }
  }

  lemma SumTerms(c: int, p: int, q: int, i: nat)
    ensures Sh(c + p + q, i) == Sh(c, i) + Sh(p, i) + Sh(q, i)
  {
    ShAdd(c, p + q, i);
    ShAdd(p, q, i);
  }

  lemma DifferenceTerms(c: int, p: int, q: int, i: nat)
    ensures Sh(c + p - q, i) == Sh(c, i) + Sh(p, i) - Sh(q, i)
  {
    SumTerms(c, p, -q, i);
    ShNeg(q, i);
  }

  lemma SignDigit(s: int, n: nat)
    requires s == 0 || s == -1
    ensures Sh(s % B, n) + Sh(s, n + 1) == Sh(s, n)
  {
    ShSucc(s, n);
    ShAdd(s % B, B * s, n);
  }

  lemma {:induction false} Rest(a: Store, b: Store, m: int, n: int)
    requires 0 <= m <= n && forall k :: m <= k < n ==> k in a && k in b && a[k] == b[k]
    ensures V(a, 0, n) - V(a, 0, m) == V(b, 0, n) - V(b, 0, m)
  {
    if m < n { Rest(a, b, m, n - 1); }
  }

  lemma SignDigitOf(c: int, n: nat)
    ensures Sh(B + c, n) + Sh(-1, n + 1) == Sh(c, n)
  {
    ShSucc(-1, n);
    ShAdd(B + c, -B, n);
  }

  lemma ScaledCarry(v: int, n: nat)
    ensures Sh(v % B, n) + Sh(v / B, n + 1) == Sh(v, n)
  {
    ShSucc(v / B, n);
    ShAdd(v % B, B * (v / B), n);
  }
}
