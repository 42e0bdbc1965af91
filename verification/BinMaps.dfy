/** The bit tricks of malloc.c on the maps of non-empty bins, which are 32-bit words. */
module BinMaps {
  import opened Digits

  const BINS := 32

  /** Bit i of a word. */
  predicate On(m: nat, i: nat) {
    if i == 0 then m % 2 == 1 else On(m / 2, i - 1)
  }

  function And(x: nat, y: nat): nat {
    if x == 0 then 0 else 2 * And(x / 2, y / 2) + if x % 2 == 1 && y % 2 == 1 then 1 else 0
  }

  function Or(x: nat, y: nat): nat {
    if x == 0 then y else 2 * Or(x / 2, y / 2) + if x % 2 == 1 || y % 2 == 1 then 1 else 0
  }

  /** ~x in n bits */
  function Not(x: nat, n: nat): nat
    requires x < Pow2(n)
  {
    Pow2(n) - 1 - x
  }

  /** -x in n bits */
  function Neg(x: nat, n: nat): nat
    requires x < Pow2(n)
  {
    if x == 0 then 0 else Pow2(n) - x
  }

  /** idx2bit */
  function BitAt(i: nat): (b: nat)
    requires i < BINS
    ensures b < Pow2(BINS)
  {
    Pow2Mono(i + 1, BINS);
    Pow2(i)
  }

  /** mark_smallmap, mark_treemap */
  function Mark(m: nat, i: nat): nat
    requires i < BINS
  {
    Or(m, BitAt(i))
  }

  /** clear_smallmap, clear_treemap */
  function Unmark(m: nat, i: nat): nat
    requires i < BINS
  {
    And(m, Not(BitAt(i), BINS))
  }

  /** least_bit in n bits */
  function LeastBit(x: nat, n: nat): nat
    requires x < Pow2(n)
  {
    And(x, Neg(x, n))
  }

  /** x << 1 in n bits */
  function Twice(x: nat, n: nat): nat
    requires x < Pow2(n)
  {
    if 2 * x < Pow2(n) then 2 * x else 2 * x - Pow2(n)
  }

  /** left_bits in n bits */
  function LeftBits(x: nat, n: nat): nat
    requires x < Pow2(n)
  {
    Or(Twice(x, n), Neg(Twice(x, n), n))
  }

  lemma {:induction false} AndOn(x: nat, y: nat, i: nat)
    ensures On(And(x, y), i) <==> On(x, i) && On(y, i)
  {
    if i == 0 {
    } else if x == 0 {
      ZeroOn(i);
    } else {
      AndOn(x / 2, y / 2, i - 1);
    }
  }

  lemma {:induction false} OrOn(x: nat, y: nat, i: nat)
    ensures On(Or(x, y), i) <==> On(x, i) || On(y, i)
  {
    if x == 0 {
      ZeroOn(i);
    } else if i > 0 {
      OrOn(x / 2, y / 2, i - 1);
    }
  }

  lemma {:induction false} ZeroOn(i: nat)
    ensures !On(0, i)
  {
    if i > 0 { ZeroOn(i - 1); }
  }

  lemma {:induction false} BitOn(i: nat, j: nat)
    ensures On(Pow2(i), j) <==> i == j
  {
    if i == 0 {
      if j > 0 { ZeroOn(j - 1); }
    } else if j > 0 {
      BitOn(i - 1, j - 1);
    }
  }

  lemma HalfNot(x: nat, n: nat)
    requires x < Pow2(n) && n > 0
    ensures x / 2 < Pow2(n - 1) && Not(x, n) / 2 == Not(x / 2, n - 1) && Not(x, n) % 2 == 1 - x % 2
  {
    assert Pow2(n) == 2 * Pow2(n - 1);
  }

  lemma {:induction false} NotOn(x: nat, n: nat, i: nat)
    requires x < Pow2(n) && i < n
    ensures On(Not(x, n), i) <==> !On(x, i)
  {
    HalfNot(x, n);
    if i > 0 { NotOn(x / 2, n - 1, i - 1); }
  }

  /** Only the bits there are can be set. */
  lemma {:induction false} Bounded(m: nat, n: nat, i: nat)
    requires m < Pow2(n) && On(m, i)
    ensures i < n
  {
    if n == 0 {
      ZeroOn(i);
    } else if i > 0 {
      Bounded(m / 2, n - 1, i - 1);
    }
  }

  lemma {:induction false} SomeOn(m: nat) returns (i: nat)
    requires m > 0
    ensures On(m, i)
  {
    if m % 2 == 1 {
      i := 0;
    } else {
      var j := SomeOn(m / 2);
      i := j + 1;
    }
  }

  lemma Marked(m: nat, i: nat, j: nat)
    requires i < BINS
    ensures On(Mark(m, i), j) <==> i == j || On(m, j)
  {
    OrOn(m, Pow2(i), j);
    BitOn(i, j);
  }

  lemma Unmarked(m: nat, i: nat, j: nat)
    requires m < Pow2(BINS) && i < BINS
    ensures On(Unmark(m, i), j) <==> i != j && On(m, j)
  {
    AndOn(m, Not(BitAt(i), BINS), j);
    if On(m, j) {
      Bounded(m, BINS, j);
      NotOn(BitAt(i), BINS, j);
      BitOn(i, j);
    }
  }

  /** The position of the lowest set bit. */
  ghost function Lowest(m: nat): (k: nat)
    requires m > 0
    ensures On(m, k) && forall j :: On(m, j) ==> k <= j
  {
    if m % 2 == 1 then 0 else Lowest(m / 2) + 1
  }

  lemma {:induction false} AndNot(x: nat, n: nat)
    requires x < Pow2(n)
    ensures And(x, Not(x, n)) == 0
  {
    if x > 0 { AndNot(x / 2, n - 1); }
  }

  lemma {:induction false} LeastIsLowest(x: nat, n: nat)
    requires 0 < x < Pow2(n)
    ensures LeastBit(x, n) == Pow2(Lowest(x))
  {
    if x % 2 == 1 {
      AndNot(x / 2, n - 1);
      assert Neg(x, n) / 2 == Not(x / 2, n - 1);
    } else {
      LeastIsLowest(x / 2, n - 1);
      assert Neg(x, n) == 2 * Neg(x / 2, n - 1);
    }
  }

  lemma {:induction false} OnesOn(r: nat, j: nat)
    ensures On(Pow2(r) - 1, j) <==> j < r
  {
    if r == 0 {
      ZeroOn(j);
    } else if j > 0 {
      OnesOn(r - 1, j - 1);
    }
  }

  lemma LeftOn(i: nat, n: nat, j: nat)
    requires i < n && j < n && Pow2(i) < Pow2(n)
    ensures On(LeftBits(Pow2(i), n), j) <==> i < j
  {
    if i + 1 == n {
      ZeroOn(j);
    } else {
      var y := Pow2(i + 1);
      Pow2Mono(i + 2, n);
      assert LeftBits(Pow2(i), n) == Or(y, Not(y - 1, n));
      OrOn(y, Not(y - 1, n), j);
      BitOn(i + 1, j);
      NotOn(y - 1, n, j);
      OnesOn(i + 1, j);
    }
  }

  /** m >> i */
  function Down(m: nat, i: nat): nat {
    if i == 0 then m else Down(m / 2, i - 1)
  }

  /** m << i, of a word with nothing to lose */
  function Up(m: nat, i: nat): nat {
    if i == 0 then m else 2 * Up(m, i - 1)
  }

  lemma {:induction false} DownOn(m: nat, i: nat, j: nat)
    ensures On(Down(m, i), j) <==> On(m, i + j)
  {
    if i > 0 { DownOn(m / 2, i - 1, j); }
  }

  lemma {:induction false} UpOn(m: nat, i: nat, j: nat)
    ensures On(Up(m, i), j) <==> i <= j && On(m, j - i)
  {
    if i > 0 && j > 0 { UpOn(m, i - 1, j - 1); }
  }

  lemma {:induction false} Roomy(n: nat)
    ensures n < Pow2(n)
  {
    if n > 0 { Roomy(n - 1); }
  }

  lemma {:induction false} AndBit(z: nat, i: nat)
    ensures And(z, Pow2(i)) == if On(z, i) then Pow2(i) else 0
  {
    if z == 0 {
      ZeroOn(i);
    } else if i == 0 {
      AndZero(z / 2);
    } else {
      AndBit(z / 2, i - 1);
    }
  }

  lemma {:induction false} AndZero(z: nat)
    ensures And(z, 0) == 0
  {
    if z > 0 { AndZero(z / 2); }
  }

  lemma {:induction false} DownOnes(r: nat, k: nat)
    requires k <= r
    ensures Down(Pow2(r) - 1, k) == Pow2(r - k) - 1
  {
    if k > 0 { DownOnes(r - 1, k - 1); }
  }

  /** A step takes off 2^lg when that is less than r. */
  lemma ProbeOnes(r: nat, lg: nat)
    requires lg < Pow2(lg)
    ensures And(Down(Pow2(r) - 1, Pow2(lg) - lg), Pow2(lg)) == if Pow2(lg) < r then Pow2(lg) else 0
  {
    var w := Pow2(lg);
    AndBit(Down(Pow2(r) - 1, w - lg), lg);
    DownOn(Pow2(r) - 1, w - lg, lg);
    OnesOn(r, w);
  }

  /** One step of compute_bit2idx on a word of ones: y >> (2^lg - lg) & 2^lg, and y shifted by that. */
  method Probe(y: nat, lg: nat, ghost r: nat) returns (k: nat, y': nat)
    requires lg < 5 && r <= 2 * Pow2(lg) && y == Pow2(r) - 1
    ensures k <= r && r - k <= Pow2(lg) && y' == Pow2(r - k) - 1
  {
    Roomy(lg);
    k := And(Down(y, Pow2(lg) - lg), Pow2(lg));
    y' := Down(y, k);
    ProbeOnes(r, lg);
    DownOnes(r, k);
  }

  /** compute_bit2idx, without a machine instruction for it: the index of the only bit of x */
  method BitIndex(x: nat, ghost r: nat) returns (i: nat)
    requires r < BINS && x == Pow2(r)
    ensures i == r
  {
    ghost var w := Pow2(0) == 1 && Pow2(1) == 2 && Pow2(2) == 4 && Pow2(3) == 8 && Pow2(4) == 16;
    assert w;
    var k4, y4 := Probe(x - 1, 4, r);
    var k3, y3 := Probe(y4, 3, r - k4);
    var k2, y2 := Probe(y3, 2, r - k4 - k3);
    var k1, y1 := Probe(y2, 1, r - k4 - k3 - k2);
    var k0, y0 := Probe(y1, 0, r - k4 - k3 - k2 - k1);
    i := k4 + k3 + k2 + k1 + k0 + y0;
    AtMostOne(r - k4 - k3 - k2 - k1 - k0, y0);
  }

  lemma AtMostOne(r: nat, y: nat)
    requires r <= 1 && y == Pow2(r) - 1
    ensures y == r
  {
  }

  /** least_bit and compute_bit2idx: the first bin marked in a map that is not empty */
  method FirstBin(m: nat) returns (i: nat)
    requires 0 < m < Pow2(BINS)
    ensures i < BINS && On(m, i) && forall j: nat :: On(m, j) ==> i <= j
  {
    LeastIsLowest(m, BINS);
    Bounded(m, BINS, Lowest(m));
    i := BitIndex(LeastBit(m, BINS), Lowest(m));
  }

  /** Masking with left_bits of bin i keeps the bins after it. */
  lemma LaterBins(m: nat, i: nat, j: nat)
    requires m < Pow2(BINS) && i < BINS
    ensures On(And(LeftBits(BitAt(i), BINS), m), j) <==> i < j && On(m, j)
  {
    AndOn(LeftBits(BitAt(i), BINS), m, j);
    if On(m, j) {
      Bounded(m, BINS, j);
      LeftOn(i, BINS, j);
    }
  }

  /** dlmalloc shifts the map down, and up again for the bins after i. */
  lemma ShiftedBins(m: nat, i: nat, j: nat)
    requires m < Pow2(BINS) && i < BINS
    ensures On(And(Up(Down(m, i), i), LeftBits(BitAt(i), BINS)), j) <==> i < j && On(m, j)
  {
    AndOn(Up(Down(m, i), i), LeftBits(BitAt(i), BINS), j);
    UpOn(Down(m, i), i, j);
    if i <= j { DownOn(m, i, j - i); }
    if On(m, j) {
      Bounded(m, BINS, j);
      LeftOn(i, BINS, j);
    }
  }

  /** The tests of the two lowest bits. */
  lemma LowTwo(d: nat)
    ensures And(d, 3) != 0 <==> On(d, 0) || On(d, 1)
    ensures d < Pow2(BINS) ==> And(Not(d, BINS), 1) == if On(d, 0) then 0 else 1
  {
    assert And(d, 3) == 2 * And(d / 2, 1) + d % 2;
    if d > 0 {
      AndBit(d / 2, 0);
    }
    assert On(d, 1) == On(d / 2, 0);
    if d < Pow2(BINS) {
      AndBit(Not(d, BINS), 0);
      NotOn(d, BINS, 0);
    }
  }

  lemma {:induction false} OrBelow(x: nat, y: nat, n: nat)
    requires x < Pow2(n) && y < Pow2(n)
    ensures Or(x, y) < Pow2(n)
  {
    if x > 0 { OrBelow(x / 2, y / 2, n - 1); }
  }

  lemma {:induction false} AndAtMost(x: nat, y: nat)
    ensures And(x, y) <= y
  {
    if x > 0 { AndAtMost(x / 2, y / 2); }
  }

  lemma {:induction false} AndBelow(x: nat, y: nat)
    ensures And(x, y) <= x
  {
    if x > 0 { AndBelow(x / 2, y / 2); }
  }

  /** A word shifted right by 16 and masked with one bit, k = 2^lg. */
  function TakeBit(x: int, k: nat): nat
    requires k > 0
  {
    x % 0x1_0000_0000 / 0x1_0000 / k % 2 * k
  }

  lemma Borrow(x: nat, lim: nat, k: nat)
    requires 0 < k && x < 0x1_0000 && lim <= 0x1_0000 && (k == 8 || k == 4 || k == 2)
    ensures TakeBit(x - lim, k) == if x < lim then k else 0
  {
  }

  /** Shifts by 8, 4 and 2 bring the word's highest bit to position 14 or 15. */
  lemma Aligned(x: nat, n: nat, z: nat)
    requires n <= 14 && z == Dbl(x, n) && 0x4000 <= z < 0x1_0000
    ensures var h := 14 - n + z / 0x8000; Pow2(h) <= x < 2 * Pow2(h)
  {
    var h := 14 - n + z / 0x8000;
    DblPow2(h, n);
    DblPow2(h + 1, n);
    Powers();
    if x < Pow2(h) { DblMono(x + 1, Pow2(h), n); DblAdd(x, 1, n); DblOne(n); }
    if x >= Pow2(h + 1) { DblMono(Pow2(h + 1), x, n); }
  }

  lemma DblOne(n: nat)
    ensures Dbl(1, n) > 0
  {
    DblPow2(0, n);
  }

  lemma Powers()
    ensures Pow2(14) == 0x4000 && Pow2(15) == 0x8000 && Pow2(16) == 0x1_0000
  {
    assert Pow2(4) == 0x10;
    Pow2Add(4, 4);
    Pow2Add(8, 6);
    assert Pow2(6) == 0x40;
  }

  lemma {:induction false} DblDbl(x: int, m: nat, n: nat)
    ensures Dbl(Dbl(x, m), n) == Dbl(x, m + n)
  {
    if n > 0 { DblDbl(x, m, n - 1); }
  }

  lemma {:induction false} UpIsDbl(m: nat, n: nat)
    ensures Up(m, n) == Dbl(m, n)
  {
    if n > 0 { UpIsDbl(m, n - 1); }
  }

  /** The constants of the steps: 2^16 shifted down by k. */
  function Limit(k: nat): nat {
    if k == 8 then 0x100 else if k == 4 then 0x1000 else 0x4000
  }

  lemma Shifts(x: int)
    ensures Dbl(x, 2) == 4 * x && Dbl(x, 4) == 0x10 * x && Dbl(x, 8) == 0x100 * x
  {
    assert Dbl(x, 2) == 2 * Dbl(x, 1) && Dbl(x, 1) == 2 * Dbl(x, 0);
    assert Dbl(x, 4) == 2 * Dbl(x, 3) && Dbl(x, 3) == 2 * Dbl(x, 2);
    assert Dbl(x, 6) == 2 * Dbl(x, 5) && Dbl(x, 5) == 2 * Dbl(x, 4);
    assert Dbl(x, 8) == 2 * Dbl(x, 7) && Dbl(x, 7) == 2 * Dbl(x, 6);
  }

  /** One step of compute_tree_index: y is shifted left by k if that leaves it a 16-bit number. */
  method Raise(x: nat, y: nat, k: nat, ghost n: nat) returns (t: nat, y': nat)
    requires (k == 8 && y > 0) || (k == 4 && y >= 0x100) || (k == 2 && y >= 0x1000)
    requires y < 0x1_0000 && y == Dbl(x, n)
    ensures t <= k && Limit(k) <= y' < 0x1_0000 && y' == Dbl(x, n + t)
  {
    t := TakeBit(y - Limit(k), k);
    y' := Up(y, t);
    Borrow(y, Limit(k), k);
    Shifts(y);
    UpIsDbl(y, t);
    DblDbl(x, n, t);
  }

  /** The position of the highest bit of a 16-bit number, found without a machine instruction. */
  method HighBit(x: nat) returns (h: nat)
    requires 0 < x < 0x1_0000
    ensures h < 16 && Pow2(h) <= x < 2 * Pow2(h)
  {
    var n, y := Raise(x, x, 8, 0);
    var k, y1 := Raise(x, y, 4, n);
    var k1, y2 := Raise(x, y1, 2, n + k);
    Aligned(x, n + k + k1, y2);
    h := 14 - (n + k + k1) + y2 / 0x8000;
  }

  /** do_check_tree: bin i is the one for size s. */
  predicate OfIndex(s: nat, i: nat) {
    i < BINS && MinSize(i) <= s && (i < BINS - 1 ==> s < MinSize(i + 1))
  }

  /** The index of the tree bin for a size. */
  ghost function TreeIndex(s: nat): nat {
    if i: nat :| OfIndex(s, i) then i else 0
  }

  /** minsize_for_tree_index */
  function MinSize(i: nat): nat {
    Pow2(i / 2 + 8) + if i % 2 == 1 then Pow2(i / 2 + 7) else 0
  }

  lemma {:induction false} SomeIndex(s: nat, j: nat) returns (i: nat)
    requires 0x100 <= s && j < BINS && MinSize(j) <= s
    ensures OfIndex(s, i)
    decreases BINS - j
  {
    if j < BINS - 1 && MinSize(j + 1) <= s { i := SomeIndex(s, j + 1); } else { i := j; }
  }

  lemma RangeOf(i: nat)
    ensures MinSize(i + 1) == MinSize(i) + Pow2(i / 2 + 7)
  {
    if i % 2 == 0 {
      assert (i + 1) / 2 == i / 2;
    } else {
      assert (i + 1) / 2 == i / 2 + 1;
      assert Pow2(i / 2 + 9) == 2 * Pow2(i / 2 + 8) && Pow2(i / 2 + 8) == 2 * Pow2(i / 2 + 7);
    }
  }

  /** Larger sizes are in later bins. */
  lemma {:induction false} SizesRise(i: nat, j: nat)
    requires i <= j
    ensures MinSize(i) <= MinSize(j)
    decreases j - i
  {
    if i < j {
      RangeOf(i);
      SizesRise(i + 1, j);
    }
  }

  lemma IndexUnique(s: nat, i: nat, j: nat)
    requires OfIndex(s, i) && OfIndex(s, j)
    ensures i == j
  {
    if i < j { SizesRise(i + 1, j); }
    if j < i { SizesRise(j + 1, i); }
  }

  lemma IndexIs(s: nat)
    requires 0x100 <= s
    ensures OfIndex(s, TreeIndex(s))
  {
    assert MinSize(0) == 0x100 by { assert Pow2(4) == 0x10; Pow2Add(4, 4); }
    var i := SomeIndex(s, 0);
  }

  /** compute_tree_index */
  method ComputeTreeIndex(s: nat) returns (i: nat)
    requires 0x100 <= s
    ensures i == TreeIndex(s) && i < BINS
  {
    var x := s / 0x100;
    if x > 0xFFFF {
      i := BINS - 1;
      LastBin();
    } else {
      var h := HighBit(x);
      i := 2 * h + if On(s, h + 7) then 1 else 0;
      InRange(s, x, h);
    }
    IndexIs(s);
    IndexUnique(s, i, TreeIndex(s));
  }

  lemma InRange(s: nat, x: nat, h: nat)
    requires x == s / 0x100 && Pow2(h) <= x < 2 * Pow2(h) && h < 16
    ensures var i := 2 * h + if On(s, h + 7) then 1 else 0;
      i < BINS && MinSize(i) <= s < MinSize(i + 1)
  {
    Seven(h);
    InBytes(s, x, Pow2(h));
    UpperHalf(s, h + 7);
    if On(s, h + 7) { HalfBin(s, h, 1); } else { HalfBin(s, h, 0); }
  }

  lemma Seven(h: nat)
    ensures Pow2(h + 7) == 0x80 * Pow2(h)
  {
    Pow2Add(7, h);
    assert Pow2(7) == 0x80;
  }

  lemma InBytes(s: nat, x: nat, p: nat)
    requires x == s / 0x100 && p <= x < 2 * p
    ensures 0x100 * p <= s < 0x200 * p
  {
  }

  lemma HalfBin(s: nat, h: nat, b: nat)
    requires 2 * Pow2(h + 7) <= s < 4 * Pow2(h + 7) && b == if s < 3 * Pow2(h + 7) then 0 else 1
    ensures MinSize(2 * h + b) <= s < MinSize(2 * h + b + 1)
  {
    assert (2 * h + b) / 2 == h && (2 * h + b) % 2 == b;
    assert (2 * h + b + 1) / 2 == h + b && (2 * h + b + 1) % 2 == 1 - b;
    assert Pow2(h + 8) == 2 * Pow2(h + 7) && Pow2(h + 9) == 2 * Pow2(h + 8);
  }

  lemma LastBin()
    ensures MinSize(BINS - 1) == 0xC0_0000
  {
    Powers();
    assert Pow2(8) == 0x100 && Pow2(7) == 0x80;
    Pow2Add(15, 8);
    Pow2Add(15, 7);
  }

  /** s lies in the upper or the lower half of its range. */
  lemma {:induction false} UpperHalf(s: nat, k: nat)
    requires 2 * Pow2(k) <= s < 4 * Pow2(k)
    ensures On(s, k) <==> s >= 3 * Pow2(k)
  {
    if k > 0 { UpperHalf(s / 2, k - 1); }
  }
}
