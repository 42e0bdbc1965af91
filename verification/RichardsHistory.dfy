/**
  What the tasks of jni/v8core/v8/benchmarks/richards.js do over a run, in terms of the packets that go from task
  to task and the devices that are released, and how the blocks follow from that.
*/
module RichardsHistories {
  import opened RichardsTasks

  /** What a task has done when it gives up control. */
  datatype Event = Freed(id: nat) | Held(id: nat) | Suspended(id: nat) | Sent(from: nat, to: nat, packet: Packet)

  /** The idle count and the worklists of a start. */
  datatype Setup = Setup(count: nat, queues: seq<seq<Packet>>)

  /** A packet as it is sent, with the task it goes to. */
  datatype Sending = Sending(to: nat, packet: Packet)

  ghost function Arrivals(log: seq<Event>, c: nat): seq<Packet> {
    if log == [] then []
    else
      var e, before := log[|log| - 1], Arrivals(log[..|log| - 1], c);
      if e.Sent? && e.to == c then before + [e.packet] else before
  }

  ghost function Departures(log: seq<Event>, c: nat): seq<Sending> {
    if log == [] then []
    else
      var e, before := log[|log| - 1], Departures(log[..|log| - 1], c);
      if e.Sent? && e.from == c then before + [Sending(e.to, e.packet)] else before
  }

  ghost function Releases(log: seq<Event>): seq<nat> {
    if log == [] then []
    else
      var e, before := log[|log| - 1], Releases(log[..|log| - 1]);
      if e.Freed? then before + [e.id] else before
  }

  /** All packets that have been in the worklist of a task, in their order. */
  ghost function In(start: Setup, log: seq<Event>, c: nat): seq<Packet>
    requires c < |start.queues|
  {
    start.queues[c] + Arrivals(log, c)
  }

  /** How often a packet has been queued, and a task held. */
  ghost function CountSent(log: seq<Event>): nat {
    if log == [] then 0 else CountSent(log[..|log| - 1]) + if log[|log| - 1].Sent? then 1 else 0
  }

  ghost function CountHeld(log: seq<Event>): nat {
    if log == [] then 0 else CountHeld(log[..|log| - 1]) + if log[|log| - 1].Held? then 1 else 0
  }

  lemma LogMore(log: seq<Event>, e: Event, c: nat)
    ensures Arrivals(log + [e], c) == Arrivals(log, c) + if e.Sent? && e.to == c then [e.packet] else []
    ensures Departures(log + [e], c) ==
      Departures(log, c) + if e.Sent? && e.from == c then [Sending(e.to, e.packet)] else []
    ensures Releases(log + [e]) == Releases(log) + if e.Freed? then [e.id] else []
    ensures CountSent(log + [e]) == CountSent(log) + if e.Sent? then 1 else 0
    ensures CountHeld(log + [e]) == CountHeld(log) + if e.Held? then 1 else 0
  {
    assert (log + [e])[..|log|] == log;
  }

  // The idle task

  /** The value that decides turn k. */
  ghost function Seed(k: nat): bv16 {
    if k == 0 then 1
    else
      var v := Seed(k - 1);
      (v >> 1) ^ if v & 1 == 1 then 0xD008 else 0
  }

  /** Turn k releases device B. */
  ghost predicate TurnB(k: int) {
    k >= 0 && Seed(k) & 1 == 1
  }

  ghost predicate IdleDone(count0: nat, releases: seq<nat>, v1: bv16, count: nat) {
    && (forall k :: 0 <= k < |releases| ==> releases[k] == if TurnB(k) then ID_DEVICE_B else ID_DEVICE_A)
    && v1 == Seed(|releases|)
    && if count > 0 then |releases| + count == count0 else |releases| + 1 == count0
  }

  // The worker

  /** The letters of work packet k: the letters from 1 to 26 in turn, four to a packet. */
  ghost function Letters(k: nat): (a2: seq<nat>) {
    seq(DATA_SIZE, i => (DATA_SIZE * k + i) % 26 + 1)
  }

  /** Every packet is sent on, with new letters, to handler B and handler A in turn. */
  ghost predicate WorkerOut(taken: seq<Packet>, out: seq<Sending>) {
    && |out| == |taken|
    && forall k :: 0 <= k < |out| ==> out[k] == Sending(if k % 2 == 0 then ID_HANDLER_B else ID_HANDLER_A,
      taken[k].(id := ID_WORKER, a1 := 0, a2 := Letters(k)))
  }

  ghost predicate WorkerDone(taken: seq<Packet>, out: seq<Sending>, last: nat, letter: nat) {
    && WorkerOut(taken, out) && letter == (if out == [] then 0 else (DATA_SIZE * |out| - 1) % 26 + 1)
    && last == if |out| % 2 == 0 then ID_HANDLER_A else ID_HANDLER_B
  }

  // A device

  /** Every packet is sent back where it came from. */
  ghost predicate DeviceOut(c: nat, taken: seq<Packet>, out: seq<Sending>) {
    && |out| <= |taken|
    && forall k :: 0 <= k < |out| ==> out[k] == Sending(taken[k].id, taken[k].(id := c))
  }

  ghost predicate DeviceDone(c: nat, taken: seq<Packet>, out: seq<Sending>, slot: Option<Packet>) {
    && DeviceOut(c, taken, out)
    && if slot.None? then |out| == |taken| else |out| + 1 == |taken| && slot.value == taken[|out|]
  }

  // A handler

  ghost function OfKind(s: seq<Packet>, kind: Kind): seq<Packet> {
    if s == [] then []
    else OfKind(s[..|s| - 1], kind) + if s[|s| - 1].kind == kind then [s[|s| - 1]] else []
  }

  ghost function SentOf(out: seq<Sending>, kind: Kind): seq<Sending> {
    if out == [] then []
    else SentOf(out[..|out| - 1], kind) + if out[|out| - 1].packet.kind == kind then [out[|out| - 1]] else []
  }

  lemma KindMore(s: seq<Packet>, p: Packet, kind: Kind)
    ensures OfKind(s + [p], kind) == OfKind(s, kind) + if p.kind == kind then [p] else []
  {
    assert (s + [p])[..|s|] == s;
  }

  lemma SentMore(out: seq<Sending>, x: Sending, kind: Kind)
    ensures SentOf(out + [x], kind) == SentOf(out, kind) + if x.packet.kind == kind then [x] else []
  {
    assert (out + [x])[..|out|] == out;
  }

  /** The device packets leave in the order in which they came, with the letters of the work packets in their order;
      and each work packet goes back to the worker, in its turn, once all its letters have gone. */
  ghost predicate HandlerOut(c: nat, work: seq<Packet>, devices: seq<Packet>, back: seq<Sending>, sent: seq<Sending>) {
    && |back| <= |work| && |sent| <= |devices|
    && DATA_SIZE * |back| <= |sent| <= DATA_SIZE * |back| + DATA_SIZE && |sent| <= DATA_SIZE * |work|
    && (forall k :: 0 <= k < |work| ==> |work[k].a2| == DATA_SIZE)
    && (forall k :: 0 <= k < |back| ==> back[k] == Sending(ID_WORKER, work[k].(id := c, a1 := DATA_SIZE)))
    && forall k :: 0 <= k < |sent| ==>
      sent[k] == Sending(devices[k].id, devices[k].(id := c, a1 := work[k / DATA_SIZE].a2[k % DATA_SIZE]))
  }

  /** The packets that a handler has kept, against those it has taken and sent. */
  ghost predicate HandlerKept(all: seq<Packet>, devices: seq<Packet>, back: nat, sent: nat, work: seq<Packet>,
      left: seq<Packet>) {
    && |all| == back + |work| && |devices| == sent + |left|
    && sent == DATA_SIZE * back + (if work == [] then 0 else work[0].a1)
    && (forall k :: 0 <= k < |work| ==> work[k] == all[back + k].(a1 := work[k].a1) && (k > 0 ==> work[k].a1 == 0))
    && (forall k :: 0 <= k < |all| ==> all[k].id == ID_WORKER)
    && forall k :: 0 <= k < |left| ==> left[k] == devices[sent + k]
  }

  ghost predicate HandlerDone(c: nat, taken: seq<Packet>, out: seq<Sending>, work: seq<Packet>, left: seq<Packet>) {
    var all, devices := OfKind(taken, KindWork), OfKind(taken, KindDevice);
    var back, sent := SentOf(out, KindWork), SentOf(out, KindDevice);
    HandlerOut(c, all, devices, back, sent) && HandlerKept(all, devices, |back|, |sent|, work, left)
  }

  // All tasks

  ghost predicate Done(count0: nat, log: seq<Event>, c: nat, taken: seq<Packet>, task: Task) {
    var out := Departures(log, c);
    match task
    case Idle(v1, count) => IdleDone(count0, Releases(log), v1, count)
    case Worker(last, letter) => WorkerDone(taken, out, last, letter)
    case Handler(work, devices) => HandlerDone(c, taken, out, work, devices)
    case Device(slot) => DeviceDone(c, taken, out, slot)
  }

  /** The block is where the log has brought it: what is in its worklist came last, and all before has been dealt
      with. */
  ghost predicate Follows(start: Setup, log: seq<Event>, c: nat, b: Tcb)
    requires c < |start.queues|
  {
    var all := In(start, log, c);
    && |b.queue| <= |all| && b.queue == all[|all| - |b.queue|..]
    && Done(start.count, log, c, all[..|all| - |b.queue|], b.task)
  }

  ghost predicate AllFollow(start: Setup, log: seq<Event>, bs: seq<Tcb>) {
    |start.queues| == |bs| && forall c: nat {:trigger Follows(start, log, c, bs[c])} :: c < |bs| ==>
      Follows(start, log, c, bs[c])
  }

  /** To mention it makes the definition of Traced available. */
  ghost predicate LookBack(u: int) { true }

  ghost predicate Traced(start: Setup, log: seq<Event>, bs: seq<Tcb>) {
    forall u {:trigger LookBack(u)} :: LookBack(u) ==> AllFollow(start, log, bs)
  }

  /** An event in which neither the block nor its packets have a part. */
  lemma NotConcerned(start: Setup, log: seq<Event>, e: Event, c: nat, b: Tcb)
    requires c < |start.queues| && Follows(start, log, c, b)
    requires e.Sent? ==> e.from != c && e.to != c
    requires e.Freed? ==> !b.task.Idle?
    ensures Follows(start, log + [e], c, b)
  {
    LogMore(log, e, c);
  }

  /** A packet arrives. */
  lemma Arrived(start: Setup, log: seq<Event>, e: Event, c: nat, b: Tcb, b': Tcb)
    requires c < |start.queues| && Follows(start, log, c, b) && e.Sent? && e.to == c && e.from != c
    requires b'.queue == b.queue + [e.packet] && b'.task == b.task
    ensures Follows(start, log + [e], c, b')
  {
    LogMore(log, e, c);
    var all, more := In(start, log, c), In(start, log + [e], c);
    assert more == all + [e.packet];
    var n := |all| - |b.queue|;
    assert more[..n] == all[..n] && more[n..] == all[n..] + [e.packet];
  }

  /** What the task has taken from its worklist so far. */
  ghost function TakenBy(start: Setup, log: seq<Event>, c: nat, b: Tcb): seq<Packet>
    requires c < |start.queues| && |b.queue| <= |In(start, log, c)|
  {
    In(start, log, c)[..|In(start, log, c)| - |b.queue|]
  }

  /** The task has run, with its first packet or without one. */
  lemma StillFollows(start: Setup, log: seq<Event>, e: Event, c: nat, b: Tcb, b': Tcb, packet: Option<Packet>)
    requires c < |start.queues| && Follows(start, log, c, b) && !(e.Sent? && e.to == c)
    requires if packet.Some? then b.queue != [] && packet.value == b.queue[0] && b'.queue == b.queue[1..]
      else b'.queue == b.queue
    requires var taken := TakenBy(start, log, c, b) + if packet.Some? then [packet.value] else [];
      Done(start.count, log + [e], c, taken, b'.task)
    ensures Follows(start, log + [e], c, b')
  {
    LogMore(log, e, c);
    var all := In(start, log, c);
    var n := |all| - |b.queue|;
    if packet.Some? {
      assert all[..n + 1] == all[..n] + [packet.value] && all[n + 1..] == b.queue[1..];
    } else {
      assert all[..n] + [] == all[..n];
    }
  }

  /** What the tasks make of a packet, or of none. */
  lemma WorkerSends(taken: seq<Packet>, out: seq<Sending>, last: nat, letter: nat, p: Packet, q: Packet)
    requires WorkerDone(taken, out, last, letter)
    requires var to := if last == ID_HANDLER_A then ID_HANDLER_B else ID_HANDLER_A;
      |q.a2| == DATA_SIZE && (forall i :: 0 <= i < DATA_SIZE ==> q.a2[i] == (letter + i) % 26 + 1) &&
      q == p.(id := ID_WORKER, a1 := 0, a2 := q.a2)
    ensures var to := if last == ID_HANDLER_A then ID_HANDLER_B else ID_HANDLER_A;
      WorkerDone(taken + [p], out + [Sending(to, q)], to, (letter + 3) % 26 + 1)
  {
    LettersNext(|out|, letter);
    assert q.a2 == Letters(|out|);
  }

  /** The worker's letter after n packets, and what follows it. */
  lemma LettersNext(n: nat, letter: nat)
    requires letter == if n == 0 then 0 else (DATA_SIZE * n - 1) % 26 + 1
    ensures (letter + 3) % 26 + 1 == (DATA_SIZE * (n + 1) - 1) % 26 + 1
    ensures forall i {:trigger Letters(n)[i]} :: 0 <= i < DATA_SIZE ==> (letter + i) % 26 + 1 == Letters(n)[i]
  {
    forall i {:trigger Letters(n)[i]} | 0 <= i < DATA_SIZE ensures (letter + i) % 26 == (DATA_SIZE * n + i) % 26 {
      if n > 0 { NextLetter(DATA_SIZE * n - 1, i); }
    }
    if n > 0 { NextLetter(DATA_SIZE * n - 1, 3); }
  }

  lemma NextLetter(m: nat, i: nat)
    ensures (m % 26 + 1 + i) % 26 == (m + 1 + i) % 26
  {
    SameMod(m / 26, m % 26 + 1 + i);
    assert m + 1 + i == 26 * (m / 26) + (m % 26 + 1 + i);
  }

  lemma SameMod(q: int, r: int)
    ensures (26 * q + r) % 26 == r % 26
  {
  }

  /** A handler takes a packet. */
  lemma HandlerTakes(c: nat, taken: seq<Packet>, out: seq<Sending>, work: seq<Packet>, left: seq<Packet>, p: Packet)
    requires HandlerDone(c, taken, out, work, left) && AtHandler(p)
    ensures p.kind == KindWork ==> HandlerDone(c, taken + [p], out, work + [p], left)
    ensures p.kind == KindDevice ==> HandlerDone(c, taken + [p], out, work, left + [p])
  {
    KindMore(taken, p, KindWork);
    KindMore(taken, p, KindDevice);
  }

  /** A handler sends a device packet, with the next letter of its first work packet. */
  lemma HandlerSendsDevice(c: nat, taken: seq<Packet>, out: seq<Sending>, work: seq<Packet>, left: seq<Packet>)
    requires HandlerDone(c, taken, out, work, left) && work != [] && work[0].a1 < DATA_SIZE && left != []
    requires left[0].kind == KindDevice && |work[0].a2| == DATA_SIZE
    ensures var w, q := work[0], left[0].(id := c, a1 := work[0].a2[work[0].a1]);
      HandlerDone(c, taken, out + [Sending(left[0].id, q)], [w.(a1 := w.a1 + 1)] + work[1..], left[1..])
  {
    var q := left[0].(id := c, a1 := work[0].a2[work[0].a1]);
    var x := Sending(left[0].id, q);
    SentMore(out, x, KindWork);
    SentMore(out, x, KindDevice);
    var all, devices := OfKind(taken, KindWork), OfKind(taken, KindDevice);
    LetterOut(c, all, devices, SentOf(out, KindWork), SentOf(out, KindDevice), work, left);
  }

  lemma LetterOut(c: nat, all: seq<Packet>, devices: seq<Packet>, back: seq<Sending>, sent: seq<Sending>,
      work: seq<Packet>, left: seq<Packet>)
    requires HandlerOut(c, all, devices, back, sent) && HandlerKept(all, devices, |back|, |sent|, work, left)
    requires work != [] && work[0].a1 < DATA_SIZE && left != [] && |work[0].a2| == DATA_SIZE
    ensures var w, q := work[0], left[0].(id := c, a1 := work[0].a2[work[0].a1]);
      && HandlerOut(c, all, devices, back, sent + [Sending(left[0].id, q)])
      && HandlerKept(all, devices, |back|, |sent| + 1, [w.(a1 := w.a1 + 1)] + work[1..], left[1..])
  {
    InFours(|back|, work[0].a1);
  }

  lemma InFours(n: nat, r: nat)
    requires r < DATA_SIZE
    ensures (DATA_SIZE * n + r) / DATA_SIZE == n && (DATA_SIZE * n + r) % DATA_SIZE == r
  {
  }

  /** A handler sends its first work packet back. */
  lemma HandlerSendsWork(c: nat, taken: seq<Packet>, out: seq<Sending>, work: seq<Packet>, left: seq<Packet>)
    requires HandlerDone(c, taken, out, work, left) && work != [] && work[0].a1 == DATA_SIZE &&
      work[0].kind == KindWork
    ensures HandlerDone(c, taken, out + [Sending(work[0].id, work[0].(id := c))], work[1..], left)
  {
    var x := Sending(work[0].id, work[0].(id := c));
    SentMore(out, x, KindWork);
    SentMore(out, x, KindDevice);
  }

  /** The device that the idle task releases for a value, and its next value. */
  ghost predicate Turns(v1: bv16, d: nat, next: bv16) {
    if v1 & 1 == 0 then d == ID_DEVICE_A && next == v1 >> 1 else d == ID_DEVICE_B && next == (v1 >> 1) ^ 0xD008
  }

  lemma IdleReleases(count0: nat, releases: seq<nat>, v1: bv16, count: nat, d: nat, next: bv16)
    requires IdleDone(count0, releases, v1, count) && count > 1 && Turns(v1, d, next)
    ensures IdleDone(count0, releases + [d], next, count - 1)
  {
    OneBit(v1);
  }

  lemma OneBit(v: bv16)
    ensures v & 1 == 0 || v & 1 == 1
    ensures v & 1 == 0 ==> (v >> 1) ^ 0 == v >> 1
  {
  }

  // The devices that are released

  /** The exclusive or of the turns 4, 13, 15 and 16 before turn k. */
  ghost predicate Feedback(k: int) {
    (TurnB(k - 4) != TurnB(k - 13)) != (TurnB(k - 15) != TurnB(k - 16))
  }

  /** The bits of the value, the lowest first. */
  ghost function Bits(v: bv16): seq<bool> {
    [v & 0x1 != 0, v & 0x2 != 0, v & 0x4 != 0, v & 0x8 != 0, v & 0x10 != 0, v & 0x20 != 0, v & 0x40 != 0,
     v & 0x80 != 0, v & 0x100 != 0, v & 0x200 != 0, v & 0x400 != 0, v & 0x800 != 0, v & 0x1000 != 0, v & 0x2000 != 0,
     v & 0x4000 != 0, v & 0x8000 != 0]
  }

  /** A turn shifts the bits down, and the lowest turns over those that come to 3, 12, 14 and 15. */
  lemma Shifted(v: bv16)
    ensures var b, w := Bits(v), (v >> 1) ^ if v & 1 == 1 then 0xD008 else 0;
      Bits(w) == [b[1], b[2], b[3], b[4] != b[0], b[5], b[6], b[7], b[8], b[9], b[10], b[11], b[12], b[13] != b[0],
        b[14], b[15] != b[0], b[0]]
  {
  }

  /** Bit i before turn k: the turns that have turned it over on its way down. */
  ghost predicate BitAt(k: nat, i: nat) {
    (k == 0 && i == 0) !=
    ((i <= 3 && TurnB(k - 4 + i)) !=
    ((i <= 12 && TurnB(k - 13 + i)) != ((i <= 14 && TurnB(k - 15 + i)) != TurnB(k - 16 + i))))
  }

  predicate Tap(i: nat) { i == 3 || i == 12 || i == 14 || i == 15 }

  lemma ShiftedAt(b: seq<bool>, w: seq<bool>, i: nat)
    requires |b| == 16 && i < 16
    requires w == [b[1], b[2], b[3], b[4] != b[0], b[5], b[6], b[7], b[8], b[9], b[10], b[11], b[12], b[13] != b[0],
        b[14], b[15] != b[0], b[0]]
    ensures w[i] <==> (i < 15 && b[i + 1]) != (b[0] && Tap(i))
  {
  }

  ghost predicate OpenBits(u: int) { true }

  /** b are the bits before turn k. */
  ghost predicate HasBits(k: nat, b: seq<bool>) {
    forall u {:trigger OpenBits(u)} :: OpenBits(u) ==> b == Bits(Seed(k))
  }

  lemma LowestBit(k: nat, b: seq<bool>)
    requires HasBits(k, b) && |b| == 16
    ensures b[0] <==> TurnB(k)
  {
    assert OpenBits(0);
  }

  lemma ShiftedTo(v: bv16, x: bv16, b: seq<bool>) returns (w: seq<bool>)
    requires b == Bits(v) && x == (v >> 1) ^ if v & 1 == 1 then 0xD008 else 0
    ensures w == Bits(x)
    ensures w == [b[1], b[2], b[3], b[4] != b[0], b[5], b[6], b[7], b[8], b[9], b[10], b[11], b[12], b[13] != b[0],
        b[14], b[15] != b[0], b[0]]
  {
    Shifted(v);
    w := Bits(x);
  }

  lemma NextBits(k: nat, b: seq<bool>) returns (w: seq<bool>)
    requires k > 0 && HasBits(k - 1, b) && |b| == 16
    ensures HasBits(k, w)
    ensures w == [b[1], b[2], b[3], b[4] != b[0], b[5], b[6], b[7], b[8], b[9], b[10], b[11], b[12], b[13] != b[0],
        b[14], b[15] != b[0], b[0]]
  {
    assert OpenBits(0);
    w := ShiftedTo(Seed(k - 1), Seed(k), b);
  }

  lemma BitAtNext(k: nat, i: nat)
    requires k > 0 && i < 16
    ensures BitAt(k, i) <==> (i < 15 && BitAt(k - 1, i + 1)) != (TurnB(k - 1) && Tap(i))
  {
  }

  lemma FirstBits() returns (b: seq<bool>)
    ensures HasBits(0, b) && b == [true] + seq(15, _ => false)
  {
    b := Bits(Seed(0));
  }

  lemma {:induction false} SeedBits(k: nat) returns (b: seq<bool>)
    ensures HasBits(k, b) && |b| == 16 && forall i :: 0 <= i < 16 ==> (b[i] <==> BitAt(k, i))
    decreases k
  {
    if k == 0 {
      b := FirstBits();
    } else {
      var before := SeedBits(k - 1);
      b := NextBits(k, before);
      LowestBit(k - 1, before);
      forall i | 0 <= i < 16 ensures b[i] <==> BitAt(k, i) {
        ShiftedAt(before, b, i);
        BitAtNext(k, i);
      }
    }
  }

  /** Turn 0 releases device B, and any later turn does exactly if of the turns 4, 13, 15 and 16 before it an odd
      number did. */
  lemma TurnsRecur(k: nat)
    ensures TurnB(k) <==> k == 0 || Feedback(k)
  {
    var b := SeedBits(k);
    LowestBit(k, b);
  }
}
