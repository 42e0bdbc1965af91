/** internal_memalign of malloc.c. */
module Memaligns {
  import opened Tiling
  import opened Words
  import opened Segments
  import opened Steps
  import opened Moves
  import opened Mapping
  import opened Regions
  import opened Heaps
  import opened Freeing
  import opened Resizing
  import opened SystemMemory
  import opened SystemAllocation
  import opened Mallocs
  import opened Frees
  import opened Reallocs
  import opened BinMaps
  import opened Digits

  ghost predicate PowerOfTwo(a: int) {
    exists k: nat :: a == Pow2(k)
  }

  /** a & (a - 1) is zero only for powers of two. */
  lemma {:induction false} OneBit(a: nat) returns (k: nat)
    requires a > 0 && And(a, a - 1) == 0
    ensures a == Pow2(k)
  {
    if a % 2 == 1 {
      AndSame(a / 2);
      k := 0;
    } else {
      var j := OneBit(a / 2);
      k := j + 1;
    }
  }

  lemma {:induction false} AndSame(x: nat)
    ensures And(x, x) == x
  {
    if x > 0 { AndSame(x / 2); }
  }

  /** The multiple of 2^k at or below x. */
  function Floor(x: nat, k: nat): nat { Up(Down(x, k), k) }

  lemma {:induction false} FloorNear(x: nat, k: nat)
    ensures Floor(x, k) <= x < Floor(x, k) + Pow2(k)
  {
    if k > 0 { FloorNear(x / 2, k - 1); }
  }

  lemma {:induction false} UpIs(q: nat, k: nat)
    ensures Up(q, k) == q * Pow2(k)
  {
    if k > 0 { UpIs(q, k - 1); }
  }

  lemma FloorMultiple(x: nat, k: nat)
    ensures Pow2(k) > 0 && Floor(x, k) % Pow2(k) == 0
  {
    var q := Down(x, k);
    UpIs(q, k);
    DivIs(Floor(x, k), Pow2(k), q, 0);
  }

  lemma {:induction false} AndOnes(x: nat, n: nat)
    requires x < Pow2(n)
    ensures And(x, Pow2(n) - 1) == x
  {
    if x > 0 {
      OnesHalved(x, n);
      AndOnes(x / 2, n - 1);
    }
  }

  lemma OnesHalved(x: nat, n: nat)
    requires 0 < x < Pow2(n)
    ensures n > 0 && x / 2 < Pow2(n - 1) && (Pow2(n) - 1) / 2 == Pow2(n - 1) - 1 && (Pow2(n) - 1) % 2 == 1
  {
  }

  /** x & -a for a = 2^k. */
  lemma {:induction false} AndHigh(x: nat, k: nat, n: nat)
    requires x < Pow2(n) && k <= n && Pow2(k) <= Pow2(n)
    ensures And(x, Pow2(n) - Pow2(k)) == Floor(x, k)
  {
    if k == 0 {
      AndOnes(x, n);
    } else if x == 0 {
      DownZero(k);
      UpZero(k);
    } else {
      AndHigh(x / 2, k - 1, n - 1);
    }
  }

  lemma {:induction false} DownZero(k: nat)
    ensures Down(0, k) == 0
  {
    if k > 0 { DownZero(k - 1); }
  }

  lemma {:induction false} UpZero(k: nat)
    ensures Up(0, k) == 0
  {
    if k > 0 { UpZero(k - 1); }
  }

  /** x & (a - 1) for a = 2^k. */
  lemma {:induction false} AndLow(x: nat, k: nat)
    ensures And(x, Pow2(k) - 1) == x - Floor(x, k)
  {
    if k == 0 {
      AndZero(x);
    } else if x == 0 {
      DownZero(k);
      UpZero(k);
    } else {
      AndLow(x / 2, k - 1);
    }
  }

  /** The alignment made a power of two; beyond 2^31 the loop would never end. */
  method RoundUp(alignment0: int) returns (alignment: int, ghost k: nat)
    requires 0 <= alignment0 <= 0x8000_0000
    ensures alignment == Pow2(k) && 4 <= k <= 31 && alignment >= alignment0
    ensures PowerOfTwo(alignment0) && alignment0 >= MIN_CHUNK ==> alignment == alignment0
    ensures alignment < 2 * alignment0 || alignment == MIN_CHUNK
  {
    alignment := if alignment0 < MIN_CHUNK then MIN_CHUNK else alignment0;
    if And(alignment, alignment - 1) != 0 {
      NotPower(alignment);
      var a := 16;
      k := 4;
      assert Pow2(4) == 16;
      while a < alignment
        invariant a == Pow2(k) && 4 <= k <= 31 && a <= 0x8000_0000 && (a < 2 * alignment)
        decreases 31 - k
      {
        BelowTop(k, alignment);
        a := 2 * a % SPACE;
        k := k + 1;
      }
      alignment := a;
    } else {
      k := OneBit(alignment);
      AtLeastFour(k);
    }
  }

  lemma NotPower(a: nat)
    requires a > 0 && And(a, a - 1) != 0
    ensures !PowerOfTwo(a)
  {
    forall k: nat ensures a != Pow2(k) {
      if a == Pow2(k) {
        AndLow(a, k);
        FloorSelf(k);
      }
    }
  }

  lemma {:induction false} FloorSelf(k: nat)
    ensures Floor(Pow2(k), k) == Pow2(k)
  {
    if k > 0 { FloorSelf(k - 1); }
  }

  lemma BelowTop(k: nat, alignment: int)
    requires Pow2(k) < alignment <= 0x8000_0000 && k <= 31
    ensures k < 31 && Pow2(k + 1) == 2 * Pow2(k) <= 0x8000_0000
  {
    if k == 31 { TopPower(k); } else { PowerBelow(k + 1); }
  }

  lemma TopPower(k: nat)
    requires k == 31
    ensures Pow2(k) == 0x8000_0000
  {
    Eight();
    Pow2Add(8, 8);
    Pow2Add(16, 8);
    Pow2Add(24, 7);
  }

  lemma Eight()
    ensures Pow2(4) == 16 && Pow2(7) == 128 && Pow2(8) == 256
  {
  }

  lemma PowerBelow(k: nat)
    requires 0 < k <= 31
    ensures Pow2(k) == 2 * Pow2(k - 1) <= 0x8000_0000
  {
    var top: nat := 31;
    TopPower(top);
    Pow2Mono(k, top);
  }

  lemma AtLeastFour(k: nat)
    requires 16 <= Pow2(k) <= 0x8000_0000
    ensures 4 <= k <= 31
  {
    Eight();
    if k < 4 { Pow2Mono(k + 1, 4); }
    if k > 31 {
      var top: nat := 31;
      TopPower(top);
      Pow2Mono(top + 1, k);
    }
  }

  /** What the loop's variable is after n doublings in 32 bits. */
  function Doubled(n: nat): int {
    if n == 0 then 16 else 2 * Doubled(n - 1) % SPACE
  }

  /** No number of doublings in 32 bits reaches an alignment beyond 2^31. */
  lemma {:induction false} NeverReached(alignment: int, n: nat)
    requires 0x8000_0000 < alignment < SPACE
    ensures Doubled(n) < alignment && Doubled(n) == if n < 28 then Pow2(n + 4) else 0
  {
    if n == 0 {
      Eight();
    } else {
      NeverReached(alignment, n - 1);
      Wrap(Doubled(n - 1));
      if n < 28 { PowerBelow(n + 4); } else if n == 28 { TopPower(n + 3); }
    }
  }

  lemma Wrap(x: int)
    ensures 0 <= x < 0x8000_0000 ==> 2 * x % SPACE == 2 * x
    ensures x == 0x8000_0000 ==> 2 * x % SPACE == 0
  {
  }

  /** A directly mapped chunk keeps its region, and remembers how far it starts from its beginning. */
  predicate ShiftedCell(T: Layout, T': Layout, p: int, q: int) {
    p in T && T[p].Mapped? ==> q in T' && T'[q] == Mapped(T[p].size - (q - p), T[p].offset + (q - p))
  }

  /** The user's chunk starts lead bytes later, and ends where it did. */
  ghost predicate Shifted(h: Heap, s: State, p: int, lead: int)
    reads h, h.bins, h.bins.small, h.bins.large
  {
    && h.Valid() && Preserved(s, h.View(), p) && h.live == s.o.live - {p} + {p + lead} && p in s.T && p + lead in h.T
    && PayloadEnd(h.T, p + lead) == PayloadEnd(s.T, p) && p + lead !in s.T && h.T[p + lead].Mapped? == s.T[p].Mapped?
    && ShiftedCell(s.T, h.T, p, p + lead)
  }

  /** give back leader, use the rest */
  method ShiftChunk(h: Heap, p: int, lead: int)
    requires h.Valid() && p in h.live && p in h.T && h.T[p].Chunk?
    requires MIN_CHUNK <= lead && lead % ALIGN == 0 && h.T[p].size - lead >= MIN_CHUNK &&
      SizeBits(HeadOf(h.m, p)) == h.T[p].size
    modifies h`m, h`dv, h`dvsize, h`top, h`topsize, h`T, h`live, h.bins, h.bins.small, h.bins.large
    ensures Shifted(h, old(h.View()), p, lead)
  {
    ghost var s := h.View();
    ghost var g0 := LetUserGo(h, p);
    ghost var foot, n := h.top + h.topsize, h.T[p].size;
    NoneInside(s, p, p + lead);
    var newp, newsize := p + lead, SizeBits(HeadOf(h.m, p)) - lead;
    h.m := UseHead(UseHead(h.m, newp, newsize), p, lead);
    h.live := h.live - {p};
    ghost var s' := SettleTwo(h, p, p + n, lead, g0, g0, foot);
    DisposeIn(h, p, lead, s');
    ShiftedChunk(h, s, g0, s', p, lead);
  }

  lemma ShiftedChunk(h: Heap, s: State, g0: State, s': State, p: int, lead: int)
    requires LetGo(s, g0, p) && Local(g0, s', 0) && Sound(s) && s'.o.live == g0.o.live + {p} + {p + lead} &&
      p + lead !in s.T
    requires p + lead in s'.T && s'.T[p + lead].Chunk? && s'.T[p + lead].size == s.T[p].size - lead > 0 && lead > 0
    requires h.Valid() && Local(s', h.View(), p) && h.live == s'.o.live - {p}
    ensures Shifted(h, s, p, lead)
  {
    NoZero(s);
    LocalTrans(s, g0, s', p, 0);
    PreservedTrans(s, s', h.View(), p, p);
    assert Intact(s', h.View(), p + lead);
    assert SameMap(s'.T, h.T, p + lead);
  }

  /** For mmapped chunks, just adjust offset */
  method ShiftMapped(h: Heap, p: int, lead: int)
    requires h.Valid() && p in h.live && p in h.T && h.T[p].Mapped?
    requires MIN_CHUNK <= lead && lead % ALIGN == 0 && h.T[p].size - lead >= MIN_CHUNK
    requires SizeBits(HeadOf(h.m, p)) == h.T[p].size && Get(h.m, p) == h.T[p].offset
    modifies h`m, h`T, h`live
    ensures Shifted(h, old(h.View()), p, lead)
  {
    ghost var s := h.View();
    ghost var s' := ShiftedState(s, h.maps, h.footprint, h.maxFootprint, p, lead);
    var newp, newsize := p + lead, SizeBits(HeadOf(h.m, p)) - lead;
    h.m := PutHead(PutFoot(h.m, newp, Get(h.m, p) + lead), newp, newsize);
    h.T, h.live := s'.T, s'.o.live;
    h.Is(s');
  }

  /** The region of a directly mapped chunk, with the chunk shifted. */
  lemma ShiftedState(s: State, maps: Maps, footprint: int, peak: int, p: int, lead: int) returns (s': State)
    requires Sound(s) && Accounted(s.T, s.segs, maps, footprint, peak) && p in s.o.live && p in s.T && s.T[p].Mapped?
    requires MIN_CHUNK <= lead && lead % ALIGN == 0 && s.T[p].size - lead >= MIN_CHUNK
    ensures var q, offset, size := p + lead, s.T[p].offset + lead, s.T[p].size - lead;
      && s'.m == PutHead(PutFoot(s.m, q, offset), q, size) && s'.segs == s.segs
      && s'.o == s.o.(live := s.o.live - {p} + {q}) && q in s'.T && s'.T[q] == Mapped(size, offset) && q !in s.T
      && Sound(s') && Preserved(s, s', p) && Accounted(s'.T, s.segs, maps, footprint, peak)
  {
    var q, offset, size := p + lead, s.T[p].offset + lead, s.T[p].size - lead;
    var start, len := RegionStart(s.T, p), RegionSize(s.T, p);
    var m' := PutHead(PutFoot(s.m, q, offset), q, size);
    OffsetAligned(s, maps, footprint, peak, p);
    AlignedEnd(s.T[p].offset, lead);
    Difference(s.T[p].size, lead);
    UnmappedAccounted(s.T, p, s.segs, maps, footprint, peak);
    OwnRegion(s, maps, footprint, peak, p);
    var s1 := DropMap(s, p);
    UnmappedVacant(s1.T, s.segs, maps - {start}, footprint - len, peak, start, len);
    s' := AddMap(s1, m', q, size, offset, start, len);
    SoundShape(s);
    MappedAccounted(s1.T, s'.T, s.segs, maps - {start}, q, size, offset, start, len, footprint - len, peak);
    assert (maps - {start})[start := len] == maps;
    NoZero(s);
    PreservedTrans(s, s1, s', p, 0);
  }

  /** The region of a directly mapped chunk is vacant but for the chunk. */
  lemma OwnRegion(s: State, maps: Maps, footprint: int, peak: int, p: int)
    requires Sound(s) && Accounted(s.T, s.segs, maps, footprint, peak) && p in s.T && s.T[p].Mapped?
    ensures Unmapped(RegionStart(s.T, p), RegionSize(s.T, p), s.segs, maps - {RegionStart(s.T, p)}) && footprint <= peak
    ensures forall q {:trigger q in s.T} :: p < q < p + s.T[p].size ==> q !in s.T
  {
    assert Look(0);
    CellAt(s.T, p);
    assert Homed(s.T, maps, p) && MapOk(RegionStart(s.T, p), s.segs, maps);
  }

  lemma {:induction false} UpEight(q: nat, k: nat)
    requires k >= 3
    ensures Up(q, k) % ALIGN == 0
  {
    assert Up(q, 1) == 2 * Up(q, 0) && Up(q, 2) == 2 * Up(q, 1) && Up(q, 3) == 2 * Up(q, 2);
    if k > 3 { UpEight(q, k - 1); }
  }

  /** (x + a) % a, for a multiple x of a = 2^k. */
  lemma NextMultiple(x: nat, k: nat)
    ensures Pow2(k) > 0 && (Floor(x, k) + Pow2(k)) % Pow2(k) == 0
  {
    var q := Down(x, k);
    UpIs(q, k);
    assert (q + 1) * Pow2(k) == q * Pow2(k) + Pow2(k);
    DivIs(Floor(x, k) + Pow2(k), Pow2(k), q + 1, 0);
  }

  /** mem & (alignment - 1) tells whether mem is aligned. */
  lemma Misaligned(mem: nat, k: nat)
    ensures And(mem, Pow2(k) - 1) == 0 ==> Pow2(k) > 0 && mem % Pow2(k) == 0
    ensures And(mem, Pow2(k) - 1) != 0 ==> Floor(mem, k) != mem
  {
    AndLow(mem, k);
    FloorMultiple(mem, k);
  }

  /** The multiple of the alignment at or above mem, as malloc.c computes it. */
  lemma AlignedAbove(mem: nat, alignment: nat, k: nat, n: nat)
    requires alignment == Pow2(k) && 4 <= k <= 31 && Floor(mem, k) != mem && mem % ALIGN == 0 &&
      mem + alignment <= SPACE
    requires n == BINS && alignment < Pow2(n) == SPACE
    ensures var t := And(mem + alignment - 1, Neg(alignment, n));
      && mem + ALIGN <= t <= mem + alignment - ALIGN && (t - mem) % ALIGN == 0 && t % alignment == 0 &&
        (t + alignment) % alignment == 0
      && alignment % ALIGN == 0
  {
    var x := mem + alignment - 1;
    AndHigh(x, k, n);
    FloorAbove(mem, alignment, k, Floor(x, k));
    FloorMultiple(x, k);
    NextMultiple(x, k);
  }

  lemma FloorAbove(mem: nat, alignment: nat, k: nat, t: nat)
    requires alignment == Pow2(k) && 4 <= k && Floor(mem, k) != mem && mem % ALIGN == 0 && alignment > 0
    requires t == Floor(mem + alignment - 1, k)
    ensures mem + ALIGN <= t <= mem + alignment - ALIGN && (t - mem) % ALIGN == 0 && alignment % ALIGN == 0
  {
    FloorNear(mem + alignment - 1, k);
    NotItself(mem, alignment, k);
    UpEight(Down(mem + alignment - 1, k), k);
    PowerEight(k);
    Reallocs.Difference(t, mem);
    LeadSize(t - mem, alignment);
  }

  /** The next aligned spot that leaves a chunk in front of it. */
  method Spot(p: int, alignment: int, ghost k: nat) returns (pos: int)
    requires p > 0 && p % ALIGN == 0 && alignment == Pow2(k) && 4 <= k <= 31 && Floor(p + 2 * WORD, k) != p + 2 * WORD
    requires p + 2 * WORD + alignment <= SPACE
    ensures pos >= p + MIN_CHUNK && (pos - p) % ALIGN == 0 && pos - p <= alignment + ALIGN
    ensures Pow2(k) > 0 && (pos + 2 * WORD) % Pow2(k) == 0
  {
    var mem := p + 2 * WORD;
    WordPower(k);
    AlignedAbove(mem, alignment, k, BINS);
    var br := And(mem + alignment - 1, Neg(alignment, BINS)) - 2 * WORD;
    LeadSteps(br - p, alignment);
    pos := if br - p >= MIN_CHUNK then br else br + alignment;
  }

  lemma LeadSteps(d: int, alignment: int)
    requires ALIGN <= d <= alignment - ALIGN && d % ALIGN == 0 && alignment % ALIGN == 0 && alignment >= MIN_CHUNK
    ensures d < MIN_CHUNK ==>
      d + alignment >= MIN_CHUNK && d + alignment <= alignment + ALIGN && (d + alignment) % ALIGN == 0
  {
  }

  lemma WordPower(k: nat)
    requires 4 <= k <= 31
    ensures 16 <= Pow2(k) <= 0x8000_0000 && Pow2(BINS) == SPACE
  {
    Eight();
    Pow2Mono(4, k);
    var top: nat := 31;
    TopPower(top);
    Pow2Mono(k, top);
    assert Pow2(BINS) == 2 * Pow2(top);
  }

  lemma NotItself(mem: nat, alignment: nat, k: nat)
    requires alignment == Pow2(k) && Floor(mem, k) != mem
    ensures Floor(mem + alignment - 1, k) != mem
  {
    if Floor(mem + alignment - 1, k) == mem {
      UpThenDown(Down(mem + alignment - 1, k), k);
    }
  }

  lemma {:induction false} UpThenDown(q: nat, k: nat)
    ensures Down(Up(q, k), k) == q
  {
    if k > 0 { UpThenDown(q, k - 1); }
  }

  lemma PowerEight(k: nat)
    requires 4 <= k
    ensures Pow2(k) % ALIGN == 0
  {
    UpIs(1, k);
    UpEight(1, k);
  }

  lemma LeadSize(d: int, alignment: int)
    requires 0 < d < alignment && d % ALIGN == 0 && alignment % ALIGN == 0
    ensures ALIGN <= d <= alignment - ALIGN
  {
  }

  /** The tail beyond nb bytes is given back, if it makes a chunk and more. */
  method GiveTail(h: Heap, p: int, nb: int)
    requires h.Valid() && p in h.live && p in h.T && nb >= MIN_CHUNK && nb % ALIGN == 0 &&
      PayloadEnd(h.T, p) >= p + nb + WORD
    modifies h`m, h`dv, h`dvsize, h`top, h`topsize, h`T, h`live, h.bins, h.bins.small, h.bins.large
    ensures h.Valid() && Preserved(old(h.View()), h.View(), p) && h.live == old(h.live) && p in h.T &&
      PayloadEnd(h.T, p) >= p + nb + WORD
    ensures ShiftedCell(old(h.T), h.T, p, p) && Trimmed(h.T, p, nb)
  {
    ghost var s := h.View();
    UserHead(s, h.maps, h.footprint, h.maxFootprint, p);
    NoZero(s);
    Unchanged(s);
    if HeadOf(h.m, p) % 4 != 0 {
      var size := SizeBits(HeadOf(h.m, p));
      if size > nb + MIN_CHUNK {
        ghost var g0 := LetUserGo(h, p);
        ghost var foot := h.top + h.topsize;
        NoneInside(s, p, p + nb);
        h.live := h.live - {p};
        SplitOff(h, p, size, nb, s, g0, g0, foot);
      }
    }
  }

  /** The chunk starts at the aligned spot from now on. */
  method GiveLead(h: Heap, p: int, lead: int)
    requires h.Valid() && p in h.live && p in h.T && MIN_CHUNK <= lead && lead % ALIGN == 0
    requires PayloadEnd(h.T, p) >= p + lead + MIN_CHUNK + 2 * WORD
    modifies h`m, h`dv, h`dvsize, h`top, h`topsize, h`T, h`live, h.bins, h.bins.small, h.bins.large
    ensures Shifted(h, old(h.View()), p, lead)
  {
    UserHead(h.View(), h.maps, h.footprint, h.maxFootprint, p);
    if HeadOf(h.m, p) % 4 == 0 {
      MappedBits(h.View(), h.maps, h.footprint, h.maxFootprint, p);
      ShiftMapped(h, p, lead);
    } else {
      ShiftChunk(h, p, lead);
    }
  }

  /** Nobody had a chunk where the shifted one starts. */
  lemma NewSpot(s: State, s1: State, q: int)
    requires Sound(s) && Preserved(s, s1, 0) && q !in s1.T
    ensures q !in s.o.live
  {
    NoZero(s);
    forall c | c in s.o.live ensures c in s1.T { assert Intact(s, s1, c); }
  }

  /** What internal_memalign asks malloc for, to have room for an aligned spot with a chunk in front of it. */
  function Asked(bytes: int, alignment: int): int { RequestSize(bytes) + alignment + MIN_CHUNK - WORD }

  lemma ZeroAligned(n: int)
    requires n > 0
    ensures 0 % n == 0
  {
  }

  /** Room for an aligned spot, if malloc has it. */
  method AskRoom(h: Heap, bytes: int, alignment: int) returns (mem: int, ghost kernel: Kernel)
    requires h.Valid() && 0 <= bytes && 0 <= Asked(bytes, alignment) < SPACE
    modifies h, h.bins, h.bins.small, h.bins.large
    ensures mem != 0 ==> Given(h, old(h.View()), mem, Asked(bytes, alignment))
    ensures mem == 0 ==> Refused(h, old(h.View())) && Exhausted(old(h.View()), Asked(bytes, alignment), kernel)
  {
    mem, kernel := Malloc(h, RequestSize(bytes) + alignment + MIN_CHUNK - WORD);
  }

  /** The second part of internal_memalign: malloc has room for an aligned spot, or answers 0. */
  method AskAligned(h: Heap, alignment: int, bytes: int, ghost k: nat) returns (mem: int, ghost kernel: Kernel)
    requires h.Valid() && alignment == Pow2(k) && 4 <= k <= 31 && 0 <= bytes < MAX_REQUEST - alignment
    modifies h, h.bins, h.bins.small, h.bins.large
    ensures if mem != 0 then Given(h, old(h.View()), mem, bytes) else Refused(h, old(h.View()))
    ensures Pow2(k) > 0 && mem % Pow2(k) == 0
    ensures mem == 0 ==> Exhausted(old(h.View()), Asked(bytes, Pow2(k)), kernel)
    ensures mem != 0 ==> Trimmed(h.T, mem - 2 * WORD, RequestSize(bytes))
  {
    ghost var s := h.View();
    WordPower(k);
    ZeroAligned(Pow2(k));
    var nb := RequestSize(bytes);
    RequestFits(bytes);
    mem, kernel := AskRoom(h, bytes, alignment);
    if mem != 0 {
      mem := AlignMem(h, mem, alignment, nb, k, s, bytes);
    }
  }

  /** internal_memalign; it answers 0 only if the request is too big, or malloc has no room for what it asks for */
  method Memalign(h: Heap, alignment0: int, bytes: int) returns (mem: int, ghost k: nat, ghost kernel: Kernel)
    requires h.Valid() && 0 <= alignment0 <= 0x8000_0000 && 0 <= bytes < SPACE
    modifies h, h.bins, h.bins.small, h.bins.large
    ensures if mem != 0 then Given(h, old(h.View()), mem, bytes) else Refused(h, old(h.View()))
    ensures Pow2(k) >= alignment0 && Pow2(k) > 0 && mem % Pow2(k) == 0
    ensures PowerOfTwo(alignment0) && alignment0 >= MIN_CHUNK ==> Pow2(k) == alignment0
    ensures Pow2(k) < 2 * alignment0 || Pow2(k) == MIN_CHUNK
    ensures bytes >= MAX_REQUEST - Pow2(k) ==> mem == 0
    ensures mem == 0 && bytes < MAX_REQUEST - Pow2(k) ==> Exhausted(old(h.View()), Asked(bytes, Pow2(k)), kernel)
    ensures mem != 0 ==> Trimmed(h.T, mem - 2 * WORD, RequestSize(bytes))
  {
    ghost var s := h.View();
    var alignment;
    alignment, k := RoundUp(alignment0);
    WordPower(k);
    ZeroAligned(Pow2(k));
    if bytes >= MAX_REQUEST - alignment {
      Unchanged(s);
      mem, kernel := 0, Kernel(false, false, 0);
    } else {
      mem, kernel := AskAligned(h, alignment, bytes, k);
    }
  }

  /** The user's new chunk is at p. */
  ghost predicate Has(h: Heap, s: State, p: int, nb: int)
    reads h, h.bins, h.bins.small, h.bins.large
  {
    && h.Valid() && Preserved(s, h.View(), 0) && p !in s.o.live && h.live == s.o.live + {p} && p in h.T
    && PayloadEnd(h.T, p) >= p + nb + WORD
  }

  /** The tail of a chunk in a segment has been given back, but for one that makes no more than a chunk. */
  ghost predicate Trimmed(T: Layout, p: int, nb: int) {
    p in T && (T[p].Mapped? || (T[p].Chunk? && T[p].size <= nb + MIN_CHUNK))
  }

  /** An aligned spot is no further away than the one behind the next. */
  predicate Near(p: int, q: int, alignment: int) {
    q == p || p + MIN_CHUNK <= q <= p + alignment + ALIGN
  }

  /** The chunk is moved to an aligned spot inside it. */
  method Realign(h: Heap, p0: int, alignment: int, nb: int, ghost k: nat, ghost s: State) returns (p: int)
    requires Sound(s) && Has(h, s, p0, nb + alignment + MIN_CHUNK) && alignment == Pow2(k) && 4 <= k <= 31 &&
      nb >= MIN_CHUNK
    requires p0 > 0 && p0 % ALIGN == 0 && p0 + 2 * WORD + alignment <= SPACE && alignment >= MIN_CHUNK
    modifies h`m, h`dv, h`dvsize, h`top, h`topsize, h`T, h`live, h.bins, h.bins.small, h.bins.large
    ensures Has(h, s, p, nb) && Pow2(k) > 0 && (p + 2 * WORD) % Pow2(k) == 0
    ensures Near(p0, p, alignment) && ShiftedCell(old(h.T), h.T, p0, p)
  {
    ghost var s1 := h.View();
    p := p0;
    Misaligned(p + 2 * WORD, k);
    if And(p + 2 * WORD, alignment - 1) != 0 {
      p := Spot(p0, alignment, k);
      GiveLead(h, p0, p - p0);
      NewSpot(s, s1, p);
      NoZero(s);
      OnlyMoved(s, s1, h.View(), p0);
    }
  }

  /** The chunk is moved to an aligned spot inside it, and trimmed. */
  method AlignMem(h: Heap, mem0: int, alignment: int, nb: int, ghost k: nat, ghost s: State, ghost bytes: int)
      returns (mem: int)
    requires Sound(s) && Given(h, s, mem0, nb + alignment + MIN_CHUNK - WORD) && alignment == Pow2(k) && 4 <= k <= 31
    requires MIN_CHUNK <= nb && nb % ALIGN == 0 && bytes + WORD <= nb
    modifies h`m, h`dv, h`dvsize, h`top, h`topsize, h`T, h`live, h.bins, h.bins.small, h.bins.large
    ensures mem != 0 && Given(h, s, mem, bytes) && Pow2(k) > 0 && mem % Pow2(k) == 0
    ensures Near(mem0, mem, alignment) && ShiftedCell(old(h.T), h.T, mem0 - 2 * WORD, mem - 2 * WORD)
    ensures Trimmed(h.T, mem - 2 * WORD, nb)
  {
    LiveAligned(h, mem0 - 2 * WORD);
    EndsBelow(h.View(), h.maps, h.footprint, h.maxFootprint, mem0 - 2 * WORD);
    WordPower(k);
    var p := Realign(h, mem0 - 2 * WORD, alignment, nb, k, s);
    ghost var s2 := h.View();
    GiveTail(h, p, nb);
    OnlyOne(s, s2, h.View(), p);
    LiveAligned(h, p);
    HasGiven(h, s, p, nb, bytes);
    mem := p + 2 * WORD;
  }

  lemma HasGiven(h: Heap, s: State, p: int, nb: int, bytes: int)
    requires Has(h, s, p, nb) && p % ALIGN == 0 && bytes + WORD <= nb
    ensures Given(h, s, p + 2 * WORD, bytes)
  {
  }

  lemma OnlyMoved(s: State, s1: State, s2: State, p: int)
    requires Preserved(s, s1, 0) && Preserved(s1, s2, p) && p !in s.o.live && 0 !in s.o.live
    ensures Preserved(s, s2, 0)
  {
    OnlyOne(s, s1, s2, p);
  }

  /** Memory ends below the end of the address space. */
  lemma EndsBelow(s: State, maps: Maps, footprint: int, peak: int, p: int)
    requires Sound(s) && Accounted(s.T, s.segs, maps, footprint, peak) && p in s.o.live
    ensures p in s.T && PayloadEnd(s.T, p) <= SPACE
  {
    UserHead(s, maps, footprint, peak, p);
    if s.T[p].Mapped? {
      assert Look(0);
      CellAt(s.T, p);
      assert Homed(s.T, maps, p) && MapOk(RegionStart(s.T, p), s.segs, maps);
    } else {
      BehindUsed(s, p);
      NextBelow(s, p);
    }
  }

  lemma NextBelow(s: State, p: int)
    requires Sound(s) && p in s.T && s.T[p].Chunk? && p + s.T[p].size in s.T && s.T[p + s.T[p].size].Chunk?
    ensures p + s.T[p].size + WORD <= SPACE
  {
    var n := p + s.T[p].size;
    SoundPlaced(s, n);
    var i :| 0 <= i < |s.segs| && InSegment(s.segs[i], n, n + Reach(s.T[n]));
    assert Shape(s.segs[i]);
  }

  lemma SoundPlaced(s: State, n: int)
    requires Sound(s) && n in s.T && s.T[n].Chunk?
    ensures Placed(s.T, s.segs, n) && Shaped(s.segs) && s.T[n].size >= WORD
  {
    assert Look(0);
    CellAt(s.T, n);
    SizeAtLeast(s.T[n].size);
  }
}
