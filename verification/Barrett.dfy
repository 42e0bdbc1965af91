/**
  Barrett reduction in jni/v8core/v8/benchmarks/crypto.js: a quotient estimated from the upper
  words of a product, of which the low partial products are never computed.
*/
module Barrett {
  import opened Digits
  import opened BigIntegers
  import Division

  /** while(this.t <= w) this_array[this.t++] = 0; */
  method PadThrough(x: BigInteger, w: nat)
    requires x.Valid() && x.Clamped() && x.s == 0
    modifies x
    ensures x.Valid() && x.s == 0 && x.t > w && V(x.a, 0, x.t) == V(old(x.a), 0, old(x.t))
    ensures x.a[x.t - 1] != 0 || x.t == w + 1
  {
    while x.t <= w
      invariant x.Valid() && x.s == 0 && V(x.a, 0, x.t) == V(old(x.a), 0, old(x.t))
      invariant x.t <= w + 1 || x.a[x.t - 1] != 0
    {
      ShOne(x.t);
      x.PutAbove(x.t, 0);
      x.t := x.t + 1;
    }
  }

  /** All digits in range but digit w, which may exceed the base once. */
  ghost predicate Carrying(x: BigInteger, w: int)
    reads x
  {
    && x.s == 0 && 0 <= w < x.t && w in x.a && x.a[w] < 2 * B && At(x.a, x.t - 1) != 0
    && forall k :: 0 <= k < x.t ==> k in x.a && 0 <= x.a[k] && (k != w ==> x.a[k] < B)
  }

  method CarryStep(x: BigInteger, w: int)
    requires Carrying(x, w) && x.a[w] >= B
    modifies x
    ensures Carrying(x, w + 1) && V(x.a, 0, x.t) == V(old(x.a), 0, old(x.t))
    ensures x.t == old(x.t) || (x.t == old(x.t) + 1 && x.t == w + 2 && x.a[w + 1] == 1)
  {
    ghost var X, t := x.a, x.t;
    x.a := x.a[w := x.a[w] - B];
    if w + 1 >= x.t {
      x.a := x.a[x.t := 0];
      x.t := x.t + 1;
    }
    x.a := x.a[w + 1 := x.a[w + 1] + 1];
    CarryUp(X, x.a, w, t, x.t);
  }

  /** x += n * B^w, for x >= 0. */
  method DAddOffset(x: BigInteger, n: int, w0: nat)
    requires x.Valid() && x.Clamped() && x.s == 0 && 0 < n < B
    modifies x
    ensures x.Valid() && x.Clamped() && x.s == 0
    ensures x.Value() == old(x.Value()) + Sh(n, w0)
  {
    SignOfValue(x);
    var w := w0;
    PadThrough(x, w);
    ghost var before := x.a;
    x.a := x.a[w := x.a[w] + n];
    Bump(before, x.a, w, n, x.t);
    while x.a[w] >= B
      invariant Carrying(x, w) && V(x.a, 0, x.t) == old(x.Value()) + Sh(n, w0)
      decreases x.t - w, x.a[w]
    {
      CarryStep(x, w);
      w := w + 1;
    }
    SignOfValue(x);
  }

  lemma {:induction false} Bump(a: Store, b: Store, w: nat, n: int, t: nat)
    requires w < t && At(b, w) == At(a, w) + n
    requires forall k :: 0 <= k < t && k != w ==> At(a, k) == At(b, k)
    ensures V(b, 0, t) == V(a, 0, t) + Sh(n, w)
  {
    if t == w + 1 {
      Frame(a, b, 0, w);
      ShAdd(At(a, w), n, w);
    } else {
      assert At(a, t - 1) == At(b, t - 1);
      Bump(a, b, w, n, t - 1);
    }
  }

  /** Moving B up as 1, possibly into a new digit. */
  lemma CarryUp(a: Store, b: Store, w: nat, t: nat, t': nat)
    requires w < t && (t' == t || t' == t + 1) && w + 1 < t'
    requires At(b, w) == At(a, w) - B
    requires At(b, w + 1) == (if w + 1 < t then At(a, w + 1) else 0) + 1
    requires forall k :: 0 <= k < t && k != w && k != w + 1 ==> At(a, k) == At(b, k)
    requires t' == t + 1 ==> w + 1 == t
    ensures V(b, 0, t') == V(a, 0, t)
  {
    if t' == t {
      var c := a[w := At(a, w) - B];
      Bump(a, c, w, -B, t);
      Bump(c, b, w + 1, 1, t);
    } else {
      Frame(a, b, 0, w);
      ShAdd(At(a, w), -B, w);
    }
    ShSucc(-1, w);
    ShOne(w + 1);
  }

  /** Row i of the upper product: r gains a_i times the digits of self from place k - i up. */
  method UpperRow(self: BigInteger, r: BigInteger, k: int, i: int, ai: int)
    requires self.Valid() && r != self && 0 <= k - i <= self.t && 0 <= ai < B
    requires Window(r.a, 0, self.t + i - k)
    modifies r`a
    ensures Window(r.a, 0, self.t + i - k + 1)
    ensures var n := self.t + i - k;
      V(r.a, 0, n + 1) == V(old(r.a), 0, n) + ai * V(self.a, k - i, n)
  {
    var n := self.t + i - k;
    var c := self.Am3(k - i, ai, r, 0, 0, n);
    r.PutAbove(n, c);
  }

  /** What the rows leave out: the product of the low digits of self with a_i. */
  lemma UpperRowSum(s: Store, t: nat, av: int, ai: int, i: nat, k: nat, v: int, d: int) returns (d': int)
    requires i <= k && k - i <= t && Window(s, 0, t) && 0 <= ai < B
    requires Upper(s, t, av, k, v, d)
    ensures Upper(s, t, av + Sh(ai, i), k, v + ai * V(s, k - i, t - (k - i)), d')
    ensures d <= d' <= d + Pow(k + 1)
    ensures i == k ==> d' == d
  {
    var m := k - i;
    var lo, hi := V(s, 0, m), V(s, m, t - m);
    Bound(s, 0, m);
    d' := d + lo * Sh(ai, i);
    RowSplits(s, t, m, av, ai, i);
    ShAdd(v, ai * hi, k);
    DroppedRow(lo, ai, m, i, k);
    assert Unlock(0);
  }

  ghost predicate Unlock(u: int) { true }

  /** v from place k up, with d left out, is the number in s times av. */
  ghost predicate Upper(s: Store, t: nat, av: int, k: nat, v: int, d: int) {
    forall u {:trigger Unlock(u)} :: Unlock(u) ==> Sh(v, k) + d == V(s, 0, t) * av
  }

  /** A row of the product, the low m digits of s apart. */
  lemma RowSplits(s: Store, t: nat, m: nat, av: int, ai: int, i: nat)
    requires m <= t
    ensures V(s, 0, t) * (av + Sh(ai, i)) == V(s, 0, t) * av + V(s, 0, m) * Sh(ai, i) + Sh(ai * V(s, m, t - m), m + i)
    ensures V(s, 0, m) * Sh(ai, i) == Sh(ai * V(s, 0, m), i)
  {
    var lo, hi := V(s, 0, m), V(s, m, t - m);
    Split(s, 0, m, t - m);
    ShMulSh(hi, m, ai, i);
    ShMul(lo, ai, i);
    RowParts(V(s, 0, t), lo, Sh(hi, m), av, Sh(ai, i));
  }

  lemma RowParts(x: int, lo: int, hi: int, av: int, row: int)
    requires x == lo + hi
    ensures x * (av + row) == x * av + lo * row + hi * row
  {
    MulDistr(x, av, row);
    MulDistr(row, lo, hi);
  }

  lemma DroppedRow(lo: int, ai: int, m: nat, i: nat, k: nat)
    requires m + i == k && 0 <= lo < Pow(m) && 0 <= ai < B
    ensures 0 <= lo * Sh(ai, i) <= Pow(k + 1)
    ensures m == 0 ==> lo * Sh(ai, i) == 0
  {
    ShPow(ai, i);
    MulBounds(ai, Pow(i), B, Pow(i));
    MulBounds(lo, ai * Pow(i), Pow(m), Pow(i + 1));
    PowAdd(m, i + 1);
  }

  /** n * p, by addition. */
  ghost function Times(n: nat, p: int): int {
    if n == 0 then 0 else Times(n - 1, p) + p
  }

  lemma {:induction false} TimesIs(n: nat, p: int)
    ensures Times(n, p) == n * p
  {
    if n > 0 { TimesIs(n - 1, p); }
  }

  /** Row i, and what it leaves out. */
  method NextUpperRow(self: BigInteger, x: BigInteger, k: nat, r: BigInteger, i: nat, ghost lost0: int)
      returns (ghost lost: int)
    requires self.Valid() && x.Valid() && r != self && r != x
    requires i < x.t && i <= k && self.t >= k && Window(r.a, 0, self.t + i - k)
    requires Upper(self.a, self.t, V(x.a, 0, i), k, V(r.a, 0, self.t + i - k), lost0)
    modifies r`a
    ensures Window(r.a, 0, self.t + i + 1 - k) && lost0 <= lost <= lost0 + (if i < k then Pow(k + 1) else 0)
    ensures Upper(self.a, self.t, V(x.a, 0, i + 1), k, V(r.a, 0, self.t + i + 1 - k), lost)
  {
    ghost var v := V(r.a, 0, self.t + i - k);
    UpperRow(self, r, k, i, x.a[i]);
    lost := UpperRowSum(self.a, self.t, V(x.a, 0, i), x.a[i], i, k, v, lost0);
  }

  /** The rows of the upper product. */
  method UpperRows(self: BigInteger, x: BigInteger, k: nat, r: BigInteger) returns (ghost lost: int)
    requires self.Valid() && x.Valid() && r != self && r != x
    requires x.t <= k + 1 && self.t >= k && r.t == self.t + x.t - k
    modifies r`a
    ensures Window(r.a, 0, r.t) && 0 <= lost <= Times(k, Pow(k + 1))
    ensures Upper(self.a, self.t, V(x.a, 0, x.t), k, V(r.a, 0, r.t), lost)
  {
    ghost var p := Pow(k + 1);
    r.ZeroBelow(r.t);
    Zero(r.a, 0, self.t - k);
    ShOne(k);
    var i := 0;
    lost := 0;
    while i < x.t
      invariant 0 <= i <= x.t && Window(r.a, 0, self.t + i - k)
      invariant 0 <= lost <= Times(if i < k then i else k, p)
      invariant Upper(self.a, self.t, V(x.a, 0, i), k, V(r.a, 0, self.t + i - k), lost)
    {
      lost := NextUpperRow(self, x, k, r, i, lost);
      i := i + 1;
    }
    TimesGrows(if x.t < k then x.t else k, k, p);
  }

  lemma {:induction false} TimesGrows(m: nat, n: nat, p: int)
    requires m <= n && p >= 0
    ensures Times(m, p) <= Times(n, p)
  {
    if m < n { TimesGrows(m, n - 1, p); }
  }

  /**
    The upper words of self * x: the product divided by B^n with the digit products below place
    n - 1 left out.  `lost` is what was left out, at most n - 1 products' worth.
   */
  method MultiplyUpperTo(self: BigInteger, x: BigInteger, n: nat, r: BigInteger)
      returns (ghost lost: int, ghost upper: int)
    requires self.Valid() && self.s == 0 && x.Valid() && x.s == 0 && r != self && r != x
    requires n > 0 && x.t <= n && self.t >= n - 1
    modifies r
    ensures r.Valid() && r.Clamped() && r.s == 0
    ensures 0 <= lost <= Times(n - 1, Pow(n)) && Sh(upper, n - 1) + lost == self.Value() * x.Value()
    ensures upper >= 0 && r.Value() == upper / B
  {
    SignOfValue(self);
    SignOfValue(x);
    r.t := self.t + x.t - (n - 1);
    r.s := 0;
    lost := UpperRows(self, x, n - 1, r);
    assert Unlock(0);
    upper := V(r.a, 0, r.t);
    Bound(r.a, 0, r.t);
    SignOfValue(r);
    r.Clamp();
    assert Pow(1) == B * Pow(0);
    r.DrShiftTo(1, r);
  }

  /** Row i of the lower product, all of self. */
  lemma LowerRowSum(s: Store, t: nat, av: int, ai: int, i: nat, n: nat, v: int, v': int, c: int, e: int)
      returns (e': int)
    requires i <= n && n - i <= t
    requires v' + Sh(c, n) == v + Sh(ai * V(s, 0, n - i), i)
    requires v + Sh(e, n) == V(s, 0, t) * av
    ensures v' + Sh(e', n) == V(s, 0, t) * (av + Sh(ai, i))
  {
    var m := n - i;
    var hi := V(s, m, t - m);
    RowSplits(s, t, m, av, ai, i);
    e' := e + c + ai * hi;
    ShAdd(e + c, ai * hi, n);
    ShAdd(e, c, n);
  }

  /** this.am(0, a_i, r, i, 0, n - i), the carry dropped. */
  method LowerRow(self: BigInteger, r: BigInteger, i: int, n: nat, ai: int) returns (ghost c: int)
    requires self.Valid() && r != self && 0 <= i <= n && n - i <= self.t && 0 <= ai < B
    requires Window(r.a, 0, n)
    modifies r`a
    ensures Window(r.a, 0, n)
    ensures V(r.a, 0, n) + Sh(c, n) == V(old(r.a), 0, n) + Sh(ai * V(self.a, 0, n - i), i)
  {
    ghost var R, m := r.a, n - i;
    c := self.Am3(0, ai, r, i, 0, n - i);
    Frame(R, r.a, 0, i);
    Split(R, 0, i, m);
    Split(r.a, 0, i, m);
    ShAdd(V(r.a, i, m), Sh(c, m), i);
    ShAddExp(c, m, i);
    ShAdd(V(R, i, m), ai * V(self.a, 0, m), i);
  }

  /** The lower n words of self * x. */
  method MultiplyLowerTo(self: BigInteger, x: BigInteger, n: nat, r: BigInteger)
    requires self.Valid() && self.s == 0 && x.Valid() && x.s == 0 && r != self && r != x
    requires x.t <= n
    modifies r
    ensures r.Valid() && r.Clamped() && r.s == 0
    ensures r.Value() == self.Value() * x.Value() % Pow(n)
  {
    SignOfValue(self);
    SignOfValue(x);
    ghost var X := V(self.a, 0, self.t);
    var len := if self.t + x.t < n then self.t + x.t else n;
    r.s := 0;
    r.t := len;
    r.ZeroBelow(len);
    Zero(r.a, 0, len);
    var i := FullRows(self, x, r, len);
    ghost var e := LowerRows(self, x, r, len, n, i);
    Bound(r.a, 0, len);
    PowMono(len, n);
    ShPow(e, n);
    DivIs(X * V(x.a, 0, x.t), Pow(n), e, V(r.a, 0, len));
    SignOfValue(r);
    r.Clamp();
    SignOfValue(r);
  }

  /** The rows that fit below place n whole, with their carry. */
  method FullRows(self: BigInteger, x: BigInteger, r: BigInteger, len: nat) returns (i: int)
    requires self.Valid() && x.Valid() && r != self && r != x && len <= self.t + x.t
    requires forall k :: 0 <= k < len ==> k in r.a && r.a[k] == 0
    modifies r`a
    ensures Window(r.a, 0, len) && i == if len > self.t then len - self.t else 0
    ensures V(r.a, 0, len) == V(self.a, 0, self.t) * V(x.a, 0, i)
  {
    ghost var X := V(self.a, 0, self.t);
    Zero(r.a, 0, len);
    if len >= self.t { Zero(r.a, 0, self.t); }
    i := 0;
    while i < len - self.t
      invariant 0 <= i && (i <= len - self.t || i == 0) && Window(r.a, 0, len)
      invariant i == 0 ==> V(r.a, 0, len) == 0
      invariant len >= self.t ==> V(r.a, 0, i + self.t) == X * V(x.a, 0, i)
    {
      self.AddRow(r, i, x.a[i]);
      MulDistr(X, V(x.a, 0, i), Sh(x.a[i], i));
      i := i + 1;
    }
  }

  /** The rows cut off at place n. */
  method LowerRows(self: BigInteger, x: BigInteger, r: BigInteger, len: nat, n: nat, i0: int) returns (ghost e: int)
    requires self.Valid() && x.Valid() && r != self && r != x && x.t <= n
    requires len == (if self.t + x.t < n then self.t + x.t else n)
    requires i0 == (if len > self.t then len - self.t else 0) && Window(r.a, 0, len)
    requires V(r.a, 0, len) == V(self.a, 0, self.t) * V(x.a, 0, i0)
    modifies r`a
    ensures Window(r.a, 0, len)
    ensures V(r.a, 0, len) + Sh(e, n) == V(self.a, 0, self.t) * V(x.a, 0, x.t)
  {
    ghost var X := V(self.a, 0, self.t);
    var i, j := i0, if x.t < n then x.t else n;
    e := 0;
    ShOne(n);
    while i < j
      invariant i0 <= i <= j && Window(r.a, 0, len)
      invariant V(r.a, 0, len) + Sh(e, n) == X * V(x.a, 0, i)
    {
      ghost var v := V(r.a, 0, len);
      ghost var c := LowerRow(self, r, i, n, x.a[i]);
      e := LowerRowSum(self.a, self.t, V(x.a, 0, i), x.a[i], i, n, v, V(r.a, 0, n), c, e);
      i := i + 1;
    }
  }

  /** What goes into a quotient estimate for x by m of k digits. */
  ghost predicate Estimated(x: int, m: int, k: nat, mu: int, r2: int, upper: int, lost: int, q3: int) {
    && k > 0 && Pow(k - 1) <= m < Pow(k) && 0 <= x < Pow(2 * k)
    && 0 <= mu && mu * m <= Pow(2 * k) < (mu + 1) * m
    && 0 <= r2 && r2 * Pow(k - 1) <= x < (r2 + 1) * Pow(k - 1)
    && 0 <= lost <= k * Pow(k + 1) && upper * Pow(k) + lost == mu * r2
    && 0 <= upper && q3 == upper / B
  }

  lemma CancelLe(x: int, y: int, t: int)
    requires t > 0 && x * t <= y * t
    ensures x <= y
  {
    if x > y { MulMono(y + 1, x, t); }
  }

  lemma CancelLt(x: int, y: int, t: int)
    requires t > 0 && x * t < y * t
    ensures x < y
  {
    if x >= y { MulMono(y, x, t); }
  }

  lemma FourFactors(a: int, b: int, c: int, d: int)
    ensures a * b * (c * d) == a * c * (b * d)
  {
    MulAssoc(a, b, c * d);
    MulAssoc(a, c, b * d);
    assert b * (c * d) == c * (b * d);
  }

  /** The estimate is never too large. */
  lemma NeverTooLarge(x: int, m: int, k: nat, mu: int, r2: int, upper: int, lost: int, q3: int)
    requires Estimated(x, m, k, mu, r2, upper, lost, q3)
    ensures 0 <= q3 * m <= x
  {
    var n, p, t := Pow(k + 1), Pow(k - 1), Pow(2 * k);
    PowAdd(k + 1, k - 1);
    MulAssoc(q3, B, Pow(k));
    MulMono(q3 * B, upper, Pow(k));
    assert q3 * n <= mu * r2;
    MulBounds(1, 1, m, p);
    MulMono(q3 * n, mu * r2, m * p);
    FourFactors(q3, n, m, p);
    FourFactors(mu, r2, m, p);
    MulMono(mu * m, t, r2 * p);
    MulMono(r2 * p, x, t);
    assert q3 * m * t <= x * t;
    CancelLe(q3 * m, x, t);
    MulMono(0, q3, m);
  }

  /** It falls short by less than k + 3. */
  lemma FallsShortBy(x: int, m: int, k: nat, mu: int, r2: int, upper: int, lost: int, q3: int)
    requires Estimated(x, m, k, mu, r2, upper, lost, q3)
    ensures x < (q3 + k + 3) * m
  {
    var n, p, t := Pow(k + 1), Pow(k - 1), Pow(2 * k);
    PowAdd(k + 1, k - 1);
    FactorsSmall(x, m, k, mu, r2);
    UpperOfEstimate(q3, upper, k, lost, mu * r2);
    var e := q3 + k + 3;
    assert (mu + 1) * (r2 + 1) == mu * r2 + mu + r2 + 1;
    assert e * n == (q3 + k + 1) * n + 2 * n;
    ScaleUp((mu + 1) * (r2 + 1), e, n, m, p);
    FourFactors(e, n, m, p);
    FourFactors(mu + 1, r2 + 1, m, p);
    ProductBelow(x, t, (r2 + 1) * p, (mu + 1) * m, e * m * t);
    CancelLt(x, e * m, t);
  }

  lemma ProductBelow(x: int, t: int, a: int, b: int, g: int)
    requires 0 <= x < a && 0 < t < b && b * a < g
    ensures x * t < g
  {
    MulMono(x, a, t);
    MulMono(t, b, a);
  }

  lemma ScaleUp(f: int, e: int, n: int, m: int, p: int)
    requires f < e * n && m > 0 && p > 0
    ensures f * (m * p) < e * n * (m * p)
  {
    MulBounds(1, 1, m, p);
    MulMono(1, m, p);
    MulMono(f + 1, e * n, m * p);
  }

  /** mu and r2 + 1 are at most B^(k+1). */
  lemma FactorsSmall(x: int, m: int, k: nat, mu: int, r2: int)
    requires k > 0 && Pow(k - 1) <= m && x < Pow(2 * k)
    requires mu * m <= Pow(2 * k) && r2 * Pow(k - 1) <= x
    ensures mu <= Pow(k + 1) && r2 < Pow(k + 1)
  {
    var n, p := Pow(k + 1), Pow(k - 1);
    PowAdd(k + 1, k - 1);
    MulMono(p, m, n);
    CancelLe(mu, n, m);
    CancelLt(r2, n, p);
  }

  lemma UpperOfEstimate(q3: int, upper: int, k: nat, lost: int, product: int)
    requires q3 == upper / B && 0 <= lost <= k * Pow(k + 1) && upper * Pow(k) + lost == product
    ensures product < (q3 + k + 1) * Pow(k + 1)
  {
    MulMono(upper + 1, (q3 + 1) * B, Pow(k));
    MulAssoc(q3 + 1, B, Pow(k));
    assert (q3 + k + 1) * Pow(k + 1) == (q3 + 1) * Pow(k + 1) + k * Pow(k + 1);
  }

  /** Differences modulo n, of which the true one lies in [0, n). */
  lemma ModularDifference(x: int, y: int, n: nat)
    requires n > 0 && 0 <= x - y < n
    ensures x % n - y % n == x - y || x % n + n - y % n == x - y
    ensures x % n >= y % n <==> x % n - y % n == x - y
  {
    var d := x / n - y / n;
    assert x == x / n * n + x % n && y == y / n * n + y % n;
    assert d * n == (x - y) - (x % n - y % n);
    if d >= 2 { MulMono(2, d, n); }
    if d <= -1 { MulMono(d, -1, n); }
  }

  /** To mention it makes the definition of IsQuotient available, which keeps it out of proofs that have no use for
      it. */
  ghost predicate Look(u: int) { true }

  /** q is the whole part of x / m. */
  ghost predicate IsQuotient(q: int, m: int, x: int) {
    forall u {:trigger Look(u)} :: Look(u) ==> q * m <= x < (q + 1) * m
  }

  class Reducer {
    const m: BigInteger
    const mu: BigInteger
    const r2: BigInteger
    const q3: BigInteger

    ghost predicate Ready()
      reads m, mu
    {
      && m.Valid() && m.Clamped() && m.s == 0 && m.t > 0
      && mu.Valid() && mu.Clamped() && mu.s == 0
      && IsQuotient(mu.Value(), m.Value(), Pow(2 * m.t))
      && m != mu && m != r2 && m != q3 && mu != r2 && mu != q3 && r2 != q3
    }

    /** Precomputes mu, the quotient of B^(2t) by m. */
    constructor (modulus: BigInteger)
      requires modulus.Valid() && modulus.Clamped() && modulus.s == 0 && modulus.t > 0
      ensures m == modulus && Ready() && fresh(mu) && fresh(r2) && fresh(q3)
    {
      var power := new BigInteger();
      var quotient := new BigInteger();
      var scratch := new BigInteger();
      var one := new BigInteger();
      var ok := one.FromInt(1);
      SignOfValue(modulus);
      Magnitude(modulus);
      one.DlShiftTo(2 * modulus.t, power);
      Division.DivRemTo(power, modulus, quotient, null);
      QuotientBounds(quotient.Value(), Pow(2 * modulus.t), modulus.Value());
      SignOfValue(quotient);
      m, mu, r2, q3 := modulus, quotient, power, scratch;
    }

    /** x = x mod m, in place, for 0 <= x of at most 2 * m.t digits. */
    method Reduce(x: BigInteger)
      requires Ready() && x != m && x != mu && x != r2 && x != q3
      requires x.Valid() && x.Clamped() && x.s == 0 && x.t <= 2 * m.t
      requires m.t + 3 <= B
      modifies x, r2, q3
      ensures x.Valid() && x.Clamped() && x.s == 0
      ensures m.Value() > 0 && x.Value() == old(x.Value()) % m.Value()
    {
      ghost var X, M := x.Value(), m.Value();
      ghost var q := EstimateQuotient(x, X);
      SignOfValue(m);
      Magnitude(m);
      RemainderFits(X, M, m.t, q);
      LowDifference(x, q);
      FirstFixUp(x, X - q * M);
      SameRemainder(X, q, M);
      SecondFixUp(x);
    }

    /** The low words of x, and of the product of m and the estimate. */
    method LowDifference(x: BigInteger, ghost q: int)
      requires Ready() && x != m && x != r2 && x != q3
      requires x.Valid() && x.Clamped() && x.s == 0
      requires q3.Valid() && q3.s == 0 && q3.t <= m.t + 1 && q == q3.Value()
      requires 0 <= x.Value() - q * m.Value() < Pow(m.t + 1)
      modifies x, r2
      ensures x.Valid() && x.Clamped() && x.s == 0 && r2.Valid() && r2.Clamped() && r2.s == 0
      ensures var r := old(x.Value()) - q * m.Value();
        && (x.Value() >= r2.Value() <==> x.Value() - r2.Value() == r)
        && (x.Value() - r2.Value() == r || x.Value() + Pow(m.t + 1) - r2.Value() == r)
    {
      ghost var X, Y := x.Value(), q * m.Value();
      assert m.Value() * q == Y;
      KeepLow(x, m.t + 1);
      MultiplyLowerTo(m, q3, m.t + 1, r2);
      ModularDifference(X, Y, Pow(m.t + 1));
    }

    /** q3 = an estimate of x / m from above the low words. */
    method EstimateQuotient(x: BigInteger, ghost X: int) returns (ghost q: int)
      requires Ready() && x != m && x != mu && x != r2 && x != q3
      requires x.Valid() && x.Clamped() && x.s == 0 && x.t <= 2 * m.t && X == x.Value()
      modifies r2, q3
      ensures q3.Valid() && q3.Clamped() && q3.s == 0 && q3.t <= m.t + 1 && q == q3.Value() >= 0
      ensures q * m.Value() <= X < (q + m.t + 3) * m.Value()
    {
      ghost var M, k, U := m.Value(), m.t, mu.Value();
      assert Look(0);
      MuLong(mu, m, k);
      SizesFor(m, x, mu, k);
      x.DrShiftTo(m.t - 1, r2);
      SignOfValue(r2);
      ghost var r := r2.Value();
      ghost var lost, upper := MultiplyUpperTo(mu, r2, m.t + 1, q3);
      SignOfValue(q3);
      q := q3.Value();
      EstimateBounds(X, M, k, U, r, upper, lost);
      QuotientLength(q3, X, M, k);
    }

    /** The first loop and the subtraction after it: x becomes r. */
    method FirstFixUp(x: BigInteger, ghost r: int)
      requires Ready() && x != m && x != mu && x != r2
      requires x.Valid() && x.Clamped() && x.s == 0
      requires r2.Valid() && r2.Clamped() && r2.s == 0 && r >= 0
      requires x.Value() >= r2.Value() <==> x.Value() - r2.Value() == r
      requires x.Value() - r2.Value() == r || x.Value() + Pow(m.t + 1) - r2.Value() == r
      modifies x
      ensures x.Valid() && x.Clamped() && x.s == 0 && x.Value() == r
    {
      ghost var start := x.Value();
      ghost var rounds := 0;
      var c := x.CompareTo(r2);
      while c < 0
        invariant x.Valid() && x.Clamped() && x.s == 0
        invariant c < 0 <==> x.Value() < r2.Value()
        invariant rounds == 0 ==> x.Value() == start
        invariant rounds != 0 ==> rounds == 1 && x.Value() - r2.Value() == r
        decreases 1 - rounds
      {
        DAddOffset(x, 1, m.t + 1);
        ShOne(m.t + 1);
        rounds := rounds + 1;
        c := x.CompareTo(r2);
      }
      x.SubTo(r2, x);
      SignOfValue(x);
    }

    /** while(x >= m) x.subTo(m, x) */
    method SecondFixUp(x: BigInteger)
      requires Ready() && x != m && x.Valid() && x.Clamped() && x.s == 0
      modifies x
      ensures x.Valid() && x.Clamped() && x.s == 0
      ensures m.Value() > 0 && x.Value() == old(x.Value()) % m.Value()
    {
      SignOfValue(m);
      Magnitude(m);
      SignOfValue(x);
      var c := x.CompareTo(m);
      while c >= 0
        invariant x.Valid() && x.Clamped() && x.s == 0 && x.Value() >= 0
        invariant c >= 0 <==> x.Value() >= m.Value()
        invariant x.Value() % m.Value() == old(x.Value()) % m.Value()
        decreases x.Value()
      {
        OneLess(x.Value(), m.Value());
        x.SubTo(m, x);
        SignOfValue(x);
        c := x.CompareTo(m);
      }
      DivIs(x.Value(), m.Value(), 0, x.Value());
    }
  }

  /** if(x.t > n) { x.t = n; x.clamp(); } */
  method KeepLow(x: BigInteger, n: nat)
    requires x.Valid() && x.Clamped() && x.s == 0
    modifies x`t
    ensures x.Valid() && x.Clamped() && x.Value() == old(x.Value()) % Pow(n)
  {
    SignOfValue(x);
    Bound(x.a, 0, x.t);
    if x.t > n {
      Split(x.a, 0, n, x.t - n);
      ShPow(V(x.a, n, x.t - n), n);
      Bound(x.a, 0, n);
      DivIs(x.Value(), Pow(n), V(x.a, n, x.t - n), V(x.a, 0, n));
      x.t := n;
      SignOfValue(x);
      x.Clamp();
    } else {
      PowMono(x.t, n);
      DivIs(x.Value(), Pow(n), 0, x.Value());
    }
  }

  lemma EstimateBounds(x: int, m: int, k: nat, mu: int, r2: int, upper: int, lost: int)
    requires k > 0 && Pow(k - 1) <= m < Pow(k) && 0 <= x < Pow(2 * k)
    requires 0 <= mu && mu * m <= Pow(2 * k) < (mu + 1) * m
    requires r2 == x / Pow(k - 1)
    requires 0 <= lost <= Times(k, Pow(k + 1)) && Sh(upper, k) + lost == mu * r2 && upper >= 0
    ensures var q := upper / B; 0 <= q && q * m <= x < (q + k + 3) * m
  {
    ShPow(upper, k);
    TimesIs(k, Pow(k + 1));
    FloorBounds(x, Pow(k - 1));
    NeverTooLarge(x, m, k, mu, r2, upper, lost, upper / B);
    FallsShortBy(x, m, k, mu, r2, upper, lost, upper / B);
  }

  lemma FloorBounds(x: int, p: int)
    requires x >= 0 && p > 0
    ensures x / p >= 0 && x / p * p <= x < (x / p + 1) * p
  {
  }

  lemma SizesFor(m: BigInteger, x: BigInteger, mu: BigInteger, k: nat)
    requires m.Valid() && m.Clamped() && m.s == 0 && m.t == k > 0
    requires x.Valid() && x.Clamped() && x.s == 0 && x.t <= 2 * k && mu.Valid() && mu.s == 0
    ensures Pow(k - 1) <= m.Value() < Pow(k) && 0 <= x.Value() < Pow(2 * k) && mu.Value() >= 0
  {
    SignOfValue(mu);
    SignOfValue(m);
    Magnitude(m);
    SignOfValue(x);
    Magnitude(x);
    PowMono(x.t, 2 * k);
  }

  lemma MuLong(mu: BigInteger, m: BigInteger, k: nat)
    requires mu.Valid() && mu.Clamped() && mu.s == 0
    requires m.Valid() && m.Clamped() && m.s == 0 && m.t == k > 0
    requires Pow(2 * k) < (mu.Value() + 1) * m.Value()
    ensures mu.t > k
  {
    Magnitude(m);
    Magnitude(mu);
    if mu.t <= k {
      PowMono(mu.t, k);
      PowAdd(k, k);
      MulMono(mu.Value() + 1, Pow(k), m.Value());
      MulMono(m.Value(), Pow(k), Pow(k));
    }
  }

  lemma QuotientLength(q: BigInteger, x: int, m: int, k: nat)
    requires q.Valid() && q.Clamped() && q.s == 0 && k > 0 && Pow(k - 1) <= m
    requires q.Value() * m <= x < Pow(2 * k)
    ensures q.t <= k + 1
  {
    SignOfValue(q);
    Magnitude(q);
    if q.t > k + 1 {
      PowMono(k + 1, q.t - 1);
      PowAdd(k + 1, k - 1);
      MulMono(Pow(k + 1), q.Value(), m);
      MulMono(Pow(k - 1), m, Pow(k + 1));
    }
  }

  /** The estimate's remainder is below B^(k+1), so that k + 1 words hold it. */
  lemma RemainderFits(x: int, m: int, k: nat, q: int)
    requires 0 <= m <= Pow(k) && k + 3 <= B && q * m <= x < (q + k + 3) * m
    ensures 0 <= x - q * m < Pow(k + 1)
  {
    assert (q + k + 3) * m == q * m + (k + 3) * m;
    MulMono(k + 3, B, m);
  }

  lemma SameRemainder(x: int, q: int, m: int)
    requires m > 0
    ensures (x - q * m) % m == x % m
  {
    var d := x / m;
    assert x == d * m + x % m;
    DivIs(x - q * m, m, d - q, x % m);
  }

  lemma OneLess(x: int, m: int)
    requires m > 0
    ensures (x - m) % m == x % m
  {
    SameRemainder(x, 1, m);
  }

  lemma QuotientBounds(q: int, x: int, m: int)
    requires x >= 0 && m > 0 && q == Division.Quot(x, m)
    ensures q >= 0 && IsQuotient(q, m, x)
  {
    QuotientOf(x / m, x % m, x, m);
  }

  lemma QuotientOf(q: int, r: int, x: int, m: int)
    requires x >= 0 && m > 0 && q == x / m && r == x % m
    ensures q >= 0 && IsQuotient(q, m, x)
  {
    assert x == q * m + r && 0 <= r < m;
    assert (q + 1) * m == q * m + m;
  }
}
