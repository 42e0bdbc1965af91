/**
  Any run of malloc, free, realloc and memalign of malloc.c, with users who write to what they hold,
  against an ideal store: for each address handed out the number of bytes asked for and the words
  written there.
*/
module Sessions {
  import opened Tiling
  import opened Words
  import opened Segments
  import opened Steps
  import opened Moves
  import opened Swapping
  import opened Heaps
  import opened SystemMemory
  import opened SystemAllocation
  import opened Mallocs
  import opened Frees
  import opened Reallocs
  import opened Memaligns
  import opened Digits
  import opened Payloads
  import opened WholeMemories

  /** What a user asked for and has written, by offset. */
  datatype Loan = Loan(bytes: int, words: map<int, int>)

  type Store = map<int, Loan>

  /** A word that lies within n bytes. */
  predicate WordWithin(i: int, n: int) {
    0 <= i && i + WORD <= n
  }

  /** After realloc to n bytes, the words that still fit. */
  function Cut(words: map<int, int>, n: int): map<int, int> {
    map i | i in words && WordWithin(i, n) :: words[i]
  }

  /** The memory keeps what was lent at mem. */
  ghost predicate Honoured(T: Layout, m: Memory, mem: int, loan: Loan) {
    && mem - 2 * WORD in T && loan.bytes >= 0 && PayloadEnd(T, mem - 2 * WORD) >= mem + loan.bytes
    && forall i :: i in loan.words ==> WordWithin(i, loan.bytes) && Get(m, mem + i) == loan.words[i]
  }

  ghost predicate Keeps(s: State, store: Store) {
    && (forall p :: p in s.o.live <==> p + 2 * WORD in store)
    && forall mem :: mem in store ==> Honoured(s.T, s.m, mem, store[mem])
  }

  /** The others' loans are honoured after a step that preserves them. */
  lemma OthersKept(s: State, s': State, store: Store, p: int, mem: int)
    requires Keeps(s, store) && Preserved(s, s', p) && mem in store && mem != p + 2 * WORD
    ensures Honoured(s'.T, s'.m, mem, store[mem])
  {
    var c := mem - 2 * WORD;
    assert c in s.o.live && Intact(s, s', c);
    assert Honoured(s.T, s.m, mem, store[mem]);
    assert Kept(s.m, s'.m, c, PayloadEnd(s.T, c));
  }

  /** A new loan. */
  lemma Lent(s: State, s': State, store: Store, mem: int, bytes: int)
    requires Keeps(s, store) && Preserved(s, s', 0) && 0 !in s.o.live && bytes >= 0
    requires mem - 2 * WORD in s'.T && s'.o.live == s.o.live + {mem - 2 * WORD} && mem - 2 * WORD !in s.o.live
    requires PayloadEnd(s'.T, mem - 2 * WORD) >= mem + bytes
    ensures Keeps(s', store[mem := Loan(bytes, map[])])
  {
    forall d | d in store ensures Honoured(s'.T, s'.m, d, store[d]) {
      OthersKept(s, s', store, 0, d);
    }
  }

  /** A loan given back. */
  lemma Returned(s: State, s': State, store: Store, mem: int)
    requires Keeps(s, store) && Preserved(s, s', mem - 2 * WORD) && mem in store
    requires s'.o.live == s.o.live - {mem - 2 * WORD}
    ensures Keeps(s', store - {mem})
  {
    forall d | d in store && d != mem ensures Honoured(s'.T, s'.m, d, store[d]) {
      OthersKept(s, s', store, mem - 2 * WORD, d);
    }
  }

  /** Nothing lent and nothing given back. */
  lemma Declined(s: State, s': State, store: Store)
    requires Keeps(s, store) && Preserved(s, s', 0) && s'.o.live == s.o.live && 0 !in s.o.live
    ensures Keeps(s', store)
  {
    forall d | d in store ensures Honoured(s'.T, s'.m, d, store[d]) {
      OthersKept(s, s', store, 0, d);
    }
  }

  /** A loan moved and resized: what still fits is where it was, from the start of the memory. */
  lemma Exchanged(h: Heap, s: State, store: Store, was: int, mem: int, bytes: int)
    requires Keeps(s, store) && was in store && bytes >= 0
    requires Reallocated(h, s, was - 2 * WORD, mem - 2 * WORD, bytes)
    ensures Keeps(h.View(), (store - {was})[mem := Loan(bytes, Cut(store[was].words, bytes))])
  {
    var s', p, q := h.View(), was - 2 * WORD, mem - 2 * WORD;
    var words := store[was].words;
    forall d | d in store && d != was && d != mem ensures Honoured(s'.T, s'.m, d, store[d]) {
      OthersKept(s, s', store, p, d);
    }
    assert Honoured(s.T, s.m, was, store[was]);
    forall i | i in Cut(words, bytes) ensures Get(s'.m, mem + i) == words[i] {
      assert SameWord(s.m, s'.m, p, q, 2 * WORD + i);
    }
  }

  /** A word written by its user. */
  lemma WordPut(s: State, store: Store, mem: int, i: int, v: int)
    requires Sound(s) && Keeps(s, store) && mem in store && WordWithin(i, store[mem].bytes)
    ensures Sound(s.(m := s.m[mem + i := v]))
    ensures Keeps(s.(m := s.m[mem + i := v]), store[mem := store[mem].(words := store[mem].words[i := v])])
  {
    var c, m' := mem - 2 * WORD, s.m[mem + i := v];
    assert Honoured(s.T, s.m, mem, store[mem]) && c in s.o.live;
    UserWrites(s, m', c);
    forall d | d in store && d != mem ensures Honoured(s.T, m', d, store[d]) {
      OthersKept(s, s.(m := m'), store, c, d);
    }
  }

  /** What a user may ask of the allocator, or do with what it holds. */
  datatype Request =
    | Acquire(bytes: int)
    | AcquireAligned(alignment: int, bytes: int)
    | Resize(mem: int, bytes: int)
    | GiveUp(mem: int)
    | Put(mem: int, i: int, v: int)

  /** What the allocator answered, what the kernel did, and the power of two an alignment became. */
  datatype Answer = Answer(mem: int, kernel: Kernel, k: nat)

  /** The heap and the store at a moment of a run. */
  datatype Moment = Moment(s: State, store: Store)

  /** A new loan at an address that nobody had, or none. */
  ghost predicate Lends(store: Store, store': Store, mem: int, bytes: int) {
    store' == (if mem == 0 then store else store[mem := Loan(bytes, map[])]) && (mem != 0 ==> mem !in store)
  }

  /** Whether realloc may be asked for. */
  ghost predicate Allowed(m: Moment, mem: int, bytes: int) {
    && (mem == 0 || mem in m.store) && 0 <= bytes < SPACE
    && (mem != 0 && 0 < bytes < MAX_REQUEST ==> RoomBehind(m.s.T, mem - 2 * WORD, RequestSize(bytes), bytes))
  }

  /**
    * What a request does: a user that asks gets what it asks for, or nothing, if the heap has no room and the kernel
    * refuses; what was lent is resized where it is if it can be; what is given up is gone, and what is put is there.
    * Requests a user may not make do nothing.
    */
  ghost predicate Follows(m: Moment, r: Request, a: Answer, m': Moment) {
    match r
    case Acquire(bytes) =>
      if 0 <= bytes < SPACE then
        Lends(m.store, m'.store, a.mem, bytes) && (a.mem == 0 ==> Exhausted(m.s, bytes, a.kernel))
      else m' == m
    case AcquireAligned(alignment, bytes) =>
      if 0 <= alignment <= 0x8000_0000 && 0 <= bytes < SPACE then
        && Lends(m.store, m'.store, a.mem, bytes) && LeastPower(alignment, a.k) && a.mem % Pow2(a.k) == 0
        && (a.mem == 0 ==>
          bytes >= MAX_REQUEST - Pow2(a.k) || Exhausted(m.s, Asked(bytes, Pow2(a.k)), a.kernel))
      else m' == m
    case Resize(mem, bytes) =>
      if Allowed(m, mem, bytes) then
        && m'.store == StoreAfter(m.store, mem, bytes, a.mem)
        && (a.mem != 0 && a.mem != mem ==> a.mem !in m.store)
        && (a.mem == 0 && (mem == 0 || 0 < bytes < MAX_REQUEST) ==> Exhausted(m.s, bytes, a.kernel))
        && (mem != 0 && 0 < bytes < MAX_REQUEST && Stays(m.s, mem - 2 * WORD, RequestSize(bytes)) ==> a.mem == mem)
      else m' == m
    case GiveUp(mem) => m'.store == m.store - {mem}
    case Put(mem, i, v) =>
      if mem in m.store && WordWithin(i, m.store[mem].bytes) then
        m'.store == m.store[mem := m.store[mem].(words := m.store[mem].words[i := v])]
      else m' == m
  }

  /** 2^k is at least the alignment and 16, and less would not do. */
  ghost predicate LeastPower(alignment: int, k: nat) {
    Pow2(k) > 0 && alignment <= Pow2(k) && (Pow2(k) < 2 * alignment || Pow2(k) == MIN_CHUNK)
  }

  /** A heap with its users. */
  class Session {
    const h: Heap
    var store: Store

    ghost predicate Valid()
      reads this, h, h.bins, h.bins.small, h.bins.large
    {
      h.Valid() && Keeps(h.View(), store)
    }

    constructor ()
      ensures Valid() && store == map[] && fresh(h) && fresh(h.bins) && fresh(h.bins.small) && fresh(h.bins.large)
    {
      h := new Heap();
      store := map[];
    }

    /** What the user of mem can rely on: aligned memory that is nobody else's, with the words it
        wrote, in the memory as a whole with the allocator's own lists. */
    ghost predicate Reliable(mem: int)
      requires mem in store
      reads this, h, h.bins, h.bins.small, h.bins.large
    {
      && mem % ALIGN == 0
      && (forall i :: i in store[mem].words ==> WordAt(h, mem + i) == store[mem].words[i])
      && forall d :: d in store && d != mem ==> mem + store[mem].bytes <= d || d + store[d].bytes <= mem
    }

    lemma AllReliable(mem: int)
      requires Valid() && mem in store
      ensures Reliable(mem)
    {
      var s, c := h.View(), mem - 2 * WORD;
      assert Honoured(s.T, s.m, mem, store[mem]) && c in s.o.live;
      LiveAlone(h, c);
      forall i | i in store[mem].words ensures WordAt(h, mem + i) == store[mem].words[i] {
        UserWordAt(h, c, mem + i);
      }
      forall d | d in store && d != mem ensures mem + store[mem].bytes <= d || d + store[d].bytes <= mem {
        assert Honoured(s.T, s.m, d, store[d]) && d - 2 * WORD in s.o.live;
        PayloadsApart(s, c, d - 2 * WORD);
      }
    }

    /** malloc; it answers 0 only if the heap has no room and the kernel refuses */
    method Acquire(bytes: int) returns (mem: int, ghost kernel: Kernel)
      requires Valid() && 0 <= bytes < SPACE
      modifies this, h, h.bins, h.bins.small, h.bins.large
      ensures Valid()
      ensures store == if mem == 0 then old(store) else old(store)[mem := Loan(bytes, map[])]
      ensures mem != 0 ==> mem !in old(store)
      ensures mem == 0 ==> Exhausted(old(h.View()), bytes, kernel)
    {
      ghost var s := h.View();
      NoZero(s);
      mem, kernel := Mallocs.Malloc(h, bytes);
      Answered(mem, bytes, s);
    }

    /** What an answer of malloc or memalign means for the store. */
    method Answered(mem: int, bytes: int, ghost s: State)
      requires Keeps(s, store) && 0 !in s.o.live && bytes >= 0
      requires if mem != 0 then Given(h, s, mem, bytes) else Refused(h, s)
      modifies this
      ensures Valid() && store == if mem == 0 then old(store) else old(store)[mem := Loan(bytes, map[])]
      ensures mem != 0 ==> mem !in old(store)
    {
      if mem == 0 {
        Declined(s, h.View(), store);
      } else {
        Lent(s, h.View(), store, mem, bytes);
        store := store[mem := Loan(bytes, map[])];
      }
    }

    /** memalign, for the power of two from alignment on */
    method AcquireAligned(alignment: int, bytes: int) returns (mem: int, ghost k: nat, ghost kernel: Kernel)
      requires Valid() && 0 <= alignment <= 0x8000_0000 && 0 <= bytes < SPACE
      modifies this, h, h.bins, h.bins.small, h.bins.large
      ensures Valid()
      ensures store == if mem == 0 then old(store) else old(store)[mem := Loan(bytes, map[])]
      ensures mem != 0 ==> mem !in old(store)
      ensures alignment <= Pow2(k) && Pow2(k) > 0 && mem % Pow2(k) == 0
      ensures Pow2(k) < 2 * alignment || Pow2(k) == MIN_CHUNK
      ensures mem == 0 ==>
        bytes >= MAX_REQUEST - Pow2(k) || Exhausted(old(h.View()), Asked(bytes, Pow2(k)), kernel)
    {
      ghost var s := h.View();
      NoZero(s);
      mem, k, kernel := Memaligns.Memalign(h, alignment, bytes);
      Answered(mem, bytes, s);
    }

    /** free */
    method GiveUp(mem: int)
      requires Valid() && (mem == 0 || mem in store)
      modifies this, h, h.bins, h.bins.small, h.bins.large
      ensures Valid() && store == old(store) - {mem}
    {
      ghost var s := h.View();
      NoZero(s);
      assert mem != 0 ==> mem - 2 * WORD in h.live;
      var _, _, _ := Frees.Free(h, mem);
      if mem == 0 {
        assert 0 - 2 * WORD !in h.live by { NegativeDead(h); }
      } else {
        Returned(s, h.View(), store, mem);
      }
      store := store - {mem};
    }

    /** A word written by the user of mem. */
    method Put(mem: int, i: int, v: int)
      requires Valid() && mem in store && WordWithin(i, store[mem].bytes)
      modifies this, h`m
      ensures Valid() && store == old(store)[mem := old(store)[mem].(words := old(store)[mem].words[i := v])]
    {
      ghost var s := h.View();
      WordPut(s, store, mem, i, v);
      h.m := h.m[mem + i := v];
      store := store[mem := store[mem].(words := store[mem].words[i := v])];
    }

    /** Whether realloc may be asked for so many bytes at mem: not where the kernel would resize a
        region whose chunk memalign has shifted too far. */
    method MayResize(mem: int, bytes: int) returns (r: bool)
      requires Valid() && mem in store && 0 <= bytes < MAX_REQUEST
      ensures r <==> RoomBehind(h.T, mem - 2 * WORD, RequestSize(bytes), bytes)
    {
      var p, nb := mem - 2 * WORD, RequestSize(bytes);
      UserHead(h.View(), h.maps, h.footprint, h.maxFootprint, p);
      if HeadOf(h.m, p) % 4 == 0 && nb >= 256 && !GoodAsIs(HeadOf(h.m, p), nb) {
        r := RemapLegal(Get(h.m, p), nb) && RemapRoom(Get(h.m, p), nb, bytes);
      } else {
        r := true;
      }
    }

    /** realloc; it answers 0 only to give back, for too many bytes, or if the heap has no room and the kernel
        refuses */
    method Resize(mem0: int, bytes: int) returns (mem: int, ghost kernel: Kernel)
      requires Valid() && 0 <= bytes < SPACE && (mem0 == 0 || mem0 in store)
      requires mem0 != 0 && 0 < bytes < MAX_REQUEST ==> RoomBehind(h.T, mem0 - 2 * WORD, RequestSize(bytes), bytes)
      modifies this, h, h.bins, h.bins.small, h.bins.large
      ensures Valid()
      ensures store == StoreAfter(old(store), mem0, bytes, mem)
      ensures mem == 0 && (mem0 == 0 || 0 < bytes < MAX_REQUEST) ==> Exhausted(old(h.View()), bytes, kernel)
      ensures mem0 != 0 && 0 < bytes < MAX_REQUEST && Stays(old(h.View()), mem0 - 2 * WORD, RequestSize(bytes)) ==>
        mem == mem0
      ensures mem != 0 && mem != mem0 ==> mem !in old(store)
    {
      ghost var s, moved, unmoved := h.View(), false, false;
      NoZero(s);
      assert mem0 != 0 ==> mem0 - 2 * WORD in h.live;
      mem, moved, unmoved, kernel := Reallocs.Realloc(h, mem0, bytes);
      AfterRealloc(h, s, store, mem0, bytes, mem);
      store := StoreAfter(store, mem0, bytes, mem);
    }

    ghost function Now(): Moment
      reads this, h, h.bins, h.bins.small, h.bins.large
    {
      Moment(h.View(), store)
    }

    /** Any requests, one after the other; those a user may not make are passed over. */
    method Run(requests: seq<Request>) returns (ghost moments: seq<Moment>, ghost answers: seq<Answer>)
      requires Valid()
      modifies this, h, h.bins, h.bins.small, h.bins.large
      ensures Valid() && forall mem :: mem in store ==> Reliable(mem)
      ensures |answers| == |requests| && |moments| == |requests| + 1
      ensures moments[0] == old(Now()) && moments[|requests|] == Now()
      ensures forall n :: 0 <= n < |requests| ==> Follows(moments[n], requests[n], answers[n], moments[n + 1])
    {
      moments, answers := [Now()], [];
      var n := 0;
      while n < |requests|
        invariant Valid() && 0 <= n <= |requests| && |answers| == n && |moments| == n + 1
        invariant moments[0] == old(Now()) && moments[n] == Now()
        invariant forall l :: 0 <= l < n ==> Follows(moments[l], requests[l], answers[l], moments[l + 1])
      {
        ghost var a := Serve(requests[n]);
        moments, answers := moments + [Now()], answers + [a];
        n := n + 1;
      }
      forall mem | mem in store ensures Reliable(mem) { AllReliable(mem); }
    }

    method Serve(r: Request) returns (ghost a: Answer)
      requires Valid()
      modifies this, h, h.bins, h.bins.small, h.bins.large
      ensures Valid() && Follows(old(Now()), r, a, Now())
    {
      var mem1;
      ghost var kernel, k := Kernel(false, false, 0), 0;
      a := Answer(0, kernel, k);
      match r
      case Acquire(bytes) =>
        if 0 <= bytes < SPACE {
          mem1, kernel := Acquire(bytes);
          a := Answer(mem1, kernel, k);
        }
      case AcquireAligned(alignment, bytes) =>
        if 0 <= alignment <= 0x8000_0000 && 0 <= bytes < SPACE {
          mem1, k, kernel := AcquireAligned(alignment, bytes);
          a := Answer(mem1, kernel, k);
        }
      case Resize(mem, bytes) =>
        if (mem == 0 || mem in store) && 0 <= bytes < SPACE {
          var may := true;
          if mem != 0 && 0 < bytes < MAX_REQUEST { may := MayResize(mem, bytes); }
          if may {
            mem1, kernel := Resize(mem, bytes);
            a := Answer(mem1, kernel, k);
          }
        }
      case GiveUp(mem) =>
        if mem == 0 || mem in store { GiveUp(mem); }
      case Put(mem, i, v) =>
        if mem in store && WordWithin(i, store[mem].bytes) { Put(mem, i, v); }
    }
  }

  /** What realloc makes of the store. */
  function StoreAfter(store: Store, mem0: int, bytes: int, mem: int): Store
    requires mem0 == 0 || mem0 in store
  {
    if mem0 == 0 then if mem == 0 then store else store[mem := Loan(bytes, map[])]
    else if bytes == 0 then store - {mem0}
    else if mem == 0 then store
    else (store - {mem0})[mem := Loan(bytes, Cut(store[mem0].words, bytes))]
  }

  lemma AfterRealloc(h: Heap, s: State, store: Store, mem0: int, bytes: int, mem: int)
    requires Keeps(s, store) && 0 !in s.o.live && bytes >= 0 && (mem0 == 0 || mem0 in store)
    requires mem0 == 0 && mem != 0 ==> Given(h, s, mem, bytes)
    requires mem0 != 0 && bytes == 0 ==> TakenBack(h, s, mem0 - 2 * WORD)
    requires mem == 0 && (mem0 == 0 || bytes > 0) ==> Refused(h, s)
    requires mem0 != 0 && bytes > 0 && mem != 0 ==> Reallocated(h, s, mem0 - 2 * WORD, mem - 2 * WORD, bytes)
    ensures h.Valid() && Keeps(h.View(), StoreAfter(store, mem0, bytes, mem))
  {
    if mem0 == 0 {
      if mem == 0 { Declined(s, h.View(), store); } else { Lent(s, h.View(), store, mem, bytes); }
    } else if bytes == 0 {
      Returned(s, h.View(), store, mem0);
    } else if mem == 0 {
      Declined(s, h.View(), store);
    } else {
      Exchanged(h, s, store, mem0, mem, bytes);
    }
  }

  lemma NegativeDead(h: Heap)
    requires h.Valid()
    ensures forall c :: c in h.live ==> c > 0
  {
    forall c | c in h.live ensures c > 0 { LiveAligned(h, c); }
  }

  lemma LiveAlone(h: Heap, c: int)
    requires h.Valid() && c in h.live
    ensures c in h.T && (c + 2 * WORD) % ALIGN == 0
  {
    LiveAligned(h, c);
  }

  /** Of two users' chunks one ends before the other's payload begins. */
  lemma PayloadsApart(s: State, c: int, d: int)
    requires Sound(s) && c in s.o.live && d in s.o.live && c != d
    ensures c in s.T && d in s.T && (PayloadEnd(s.T, c) <= d + 2 * WORD || PayloadEnd(s.T, d) <= c + 2 * WORD)
  {
    assert Look(0);
    CellAt(s.T, c);
    CellAt(s.T, d);
    if c < d { Before(c, d); } else { Before(d, c); }
  }
}
