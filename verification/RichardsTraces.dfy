/** The steps of the scheduler in jni/v8core/v8/benchmarks/richards.js keep the blocks where the log has brought
    them. */
module RichardsTraces {
  import opened RichardsTasks
  import opened RichardsHistories

  /** A step of one block, which sends nothing and releases nothing. */
  lemma AloneTrace(start: Setup, log: seq<Event>, e: Event, bs0: seq<Tcb>, c: nat, b: Tcb)
    requires Traced(start, log, bs0) && c < |bs0| && (e.Held? || e.Suspended?)
    requires |start.queues| == |bs0| ==> Follows(start, log + [e], c, b)
    ensures Traced(start, log + [e], bs0[c := b])
    ensures CountSent(log + [e]) == CountSent(log) && CountHeld(log + [e]) == CountHeld(log) + if e.Held? then 1 else 0
  {
    assert LookBack(0);
    LogMore(log, e, c);
    var bs := bs0[c := b];
    forall d: nat | d < |bs0| ensures Follows(start, log + [e], d, bs[d]) {
      if d != c {
        assert Follows(start, log, d, bs0[d]);
        NotConcerned(start, log, e, d, bs0[d]);
      }
    }
  }

  /** A step of one block that sends a packet to another. */
  lemma SentTrace(start: Setup, log: seq<Event>, bs0: seq<Tcb>, c: nat, b: Tcb, p: Packet, t: nat)
    requires Traced(start, log, bs0) && c < |bs0| && t < |bs0| && t != c
    requires |start.queues| == |bs0| ==> Follows(start, log + [Sent(c, t, p)], c, b)
    ensures Traced(start, log + [Sent(c, t, p)], bs0[c := b][t := Added(bs0[t], p)])
    ensures CountSent(log + [Sent(c, t, p)]) == CountSent(log) + 1 && CountHeld(log + [Sent(c, t, p)]) == CountHeld(log)
  {
    assert LookBack(0);
    var e, bs := Sent(c, t, p), bs0[c := b][t := Added(bs0[t], p)];
    LogMore(log, e, c);
    forall d: nat | d < |bs0| ensures Follows(start, log + [e], d, bs[d]) {
      assert Follows(start, log, d, bs0[d]);
      if d == t {
        Arrived(start, log, e, t, bs0[t], bs[t]);
      } else if d != c {
        NotConcerned(start, log, e, d, bs0[d]);
      }
    }
  }

  lemma FollowsAt(start: Setup, log: seq<Event>, bs0: seq<Tcb>, c: nat)
    requires Traced(start, log, bs0) && c < |bs0|
    ensures |start.queues| == |bs0| && Follows(start, log, c, bs0[c])
  {
    assert LookBack(0);
  }

  // The idle task

  lemma IdleHeldTrace(start: Setup, log: seq<Event>, bs0: seq<Tcb>, b: Tcb)
    requires Traced(start, log, bs0) && Ok(bs0) && bs0[0].task.count == 1
    requires b.queue == bs0[0].queue && b.task == bs0[0].task.(count := 0)
    ensures Traced(start, log + [Held(0)], bs0[0 := b])
    ensures CountSent(log + [Held(0)]) == CountSent(log) && CountHeld(log + [Held(0)]) == CountHeld(log) + 1
  {
    FollowsAt(start, log, bs0, 0);
    var e := Held(0);
    LogMore(log, e, 0);
    StillFollows(start, log, e, 0, bs0[0], b, None);
    AloneTrace(start, log, e, bs0, 0, b);
  }

  lemma IdleTrace(start: Setup, log: seq<Event>, bs0: seq<Tcb>, b: Tcb, d: nat, t: Tcb)
    requires Traced(start, log, bs0) && Ok(bs0) && bs0[0].task.count > 1
    requires b.task.Idle? && b.task.count == bs0[0].task.count - 1 && Turns(bs0[0].task.v1, d, b.task.v1)
    requires 0 < d < |bs0| && b.queue == bs0[0].queue && t.queue == bs0[d].queue && t.task == bs0[d].task
    ensures Traced(start, log + [Freed(d)], bs0[0 := b][d := t])
    ensures CountSent(log + [Freed(d)]) == CountSent(log) && CountHeld(log + [Freed(d)]) == CountHeld(log)
  {
    FollowsAt(start, log, bs0, 0);
    var e := Freed(d);
    LogMore(log, e, 0);
    IdleReleases(start.count, Releases(log), bs0[0].task.v1, bs0[0].task.count, d, b.task.v1);
    StillFollows(start, log, e, 0, bs0[0], b, None);
    ReleasedTrace(start, log, bs0, b, d, t);
  }

  lemma ReleasedTrace(start: Setup, log: seq<Event>, bs0: seq<Tcb>, b: Tcb, d: nat, t: Tcb)
    requires Traced(start, log, bs0) && Ok(bs0) && 0 < d < |bs0|
    requires |start.queues| == |bs0| && Follows(start, log + [Freed(d)], 0, b)
    requires t.queue == bs0[d].queue && t.task == bs0[d].task
    ensures Traced(start, log + [Freed(d)], bs0[0 := b][d := t])
  {
    assert LookBack(0);
    var e, bs := Freed(d), bs0[0 := b][d := t];
    forall c: nat | c < |bs0| ensures Follows(start, log + [e], c, bs[c]) {
      if c > 0 {
        assert TcbOk(bs0[c], c);
        ReleasedOther(start, log, d, c, bs0[c], bs[c]);
      }
    }
  }

  lemma ReleasedOther(start: Setup, log: seq<Event>, d: nat, c: nat, b: Tcb, b': Tcb)
    requires c < |start.queues| && Follows(start, log, c, b) && !b.task.Idle?
    requires b'.queue == b.queue && b'.task == b.task
    ensures Follows(start, log + [Freed(d)], c, b')
  {
    NotConcerned(start, log, Freed(d), c, b);
  }

  // A device and the worker

  /** A task suspends itself, without a packet. */
  lemma SuspendTrace(start: Setup, log: seq<Event>, bs0: seq<Tcb>, c: nat)
    requires Traced(start, log, bs0) && c < |bs0| && !bs0[c].task.Idle?
    ensures Traced(start, log + [Suspended(c)], bs0[c := bs0[c].(state := bs0[c].state.(suspended := true))])
    ensures CountSent(log + [Suspended(c)]) == CountSent(log) && CountHeld(log + [Suspended(c)]) == CountHeld(log)
  {
    FollowsAt(start, log, bs0, c);
    var e, b := Suspended(c), bs0[c].(state := bs0[c].state.(suspended := true));
    LogMore(log, e, c);
    assert TakenBy(start, log, c, bs0[c]) + [] == TakenBy(start, log, c, bs0[c]);
    StillFollows(start, log, e, c, bs0[c], b, None);
    AloneTrace(start, log, e, bs0, c, b);
  }

  lemma DeviceTrace(start: Setup, log: seq<Event>, bs0: seq<Tcb>, c: nat, v: Packet)
    requires Traced(start, log, bs0) && Ok(bs0) && c < |bs0| && bs0[c].task == Device(Some(v)) && v.id < |bs0| &&
      v.id != c
    ensures var e := Sent(c, v.id, v.(id := c));
      && Traced(start, log + [e], bs0[c := bs0[c].(task := Device(None))][v.id := Added(bs0[v.id], v.(id := c))])
      && CountSent(log + [e]) == CountSent(log) + 1 && CountHeld(log + [e]) == CountHeld(log)
  {
    FollowsAt(start, log, bs0, c);
    var e, b := Sent(c, v.id, v.(id := c)), bs0[c].(task := Device(None));
    LogMore(log, e, c);
    assert TakenBy(start, log, c, bs0[c]) + [] == TakenBy(start, log, c, bs0[c]);
    StillFollows(start, log, e, c, bs0[c], b, None);
    SentTrace(start, log, bs0, c, b, v.(id := c), v.id);
  }

  lemma HoldTrace(start: Setup, log: seq<Event>, bs0: seq<Tcb>, c: nat, b: Tcb)
    requires Traced(start, log, bs0) && c < |bs0| && bs0[c].task == Device(None) && bs0[c].queue != []
    requires b.queue == bs0[c].queue[1..] && b.task == Device(Some(bs0[c].queue[0]))
    ensures Traced(start, log + [Held(c)], bs0[c := b])
    ensures CountSent(log + [Held(c)]) == CountSent(log) && CountHeld(log + [Held(c)]) == CountHeld(log) + 1
  {
    FollowsAt(start, log, bs0, c);
    var e := Held(c);
    LogMore(log, e, c);
    StillFollows(start, log, e, c, bs0[c], b, Some(bs0[c].queue[0]));
    AloneTrace(start, log, e, bs0, c, b);
  }

  /** p is the packet with its new letters, on its way to a handler. */
  lemma WorkerTrace(start: Setup, log: seq<Event>, bs0: seq<Tcb>, p: Packet, letter: nat)
    requires Traced(start, log, bs0) && Ok(bs0) && bs0[1].task.Worker? && bs0[1].queue != []
    requires var last, letter0 := bs0[1].task.last, bs0[1].task.letter;
      && p == bs0[1].queue[0].(id := if last == ID_HANDLER_A then ID_HANDLER_B else ID_HANDLER_A, a1 := 0, a2 := p.a2)
      && letter == (letter0 + 3) % 26 + 1
      && |p.a2| == DATA_SIZE && forall i :: 0 <= i < DATA_SIZE ==> p.a2[i] == (letter0 + i) % 26 + 1
    ensures var e := Sent(1, p.id, p.(id := 1));
      && Traced(start, log + [e],
           bs0[1 := Taken(bs0[1]).(task := Worker(p.id, letter))][p.id := Added(bs0[p.id], p.(id := 1))])
      && CountSent(log + [e]) == CountSent(log) + 1 && CountHeld(log + [e]) == CountHeld(log)
  {
    FollowsAt(start, log, bs0, 1);
    var e, b := Sent(1, p.id, p.(id := 1)), Taken(bs0[1]).(task := Worker(p.id, letter));
    LogMore(log, e, 1);
    WorkerSends(TakenBy(start, log, 1, bs0[1]), Departures(log, 1), bs0[1].task.last, bs0[1].task.letter,
      bs0[1].queue[0], p.(id := 1));
    StillFollows(start, log, e, 1, bs0[1], b, Some(bs0[1].queue[0]));
    SentTrace(start, log, bs0, 1, b, p.(id := 1), p.id);
  }

  // A handler

  /** What a handler holds once it has taken its packet, if there is one; b is its block then. */
  ghost predicate Holding(start: Setup, log: seq<Event>, bs0: seq<Tcb>, c: nat, packet: Option<Packet>, b: Tcb) {
    && c < |bs0| == |start.queues| && Follows(start, log, c, bs0[c]) && b.task.Handler?
    && (if packet.Some? then bs0[c].queue != [] && packet.value == bs0[c].queue[0] && b.queue == bs0[c].queue[1..]
      else b.queue == bs0[c].queue)
    && HandlerDone(c, TakenBy(start, log, c, bs0[c]) + (if packet.Some? then [packet.value] else []),
      Departures(log, c), b.task.work, b.task.devices)
  }

  lemma ReceivedTrace(start: Setup, log: seq<Event>, bs0: seq<Tcb>, c: nat, packet: Option<Packet>, b: Tcb)
    requires Traced(start, log, bs0) && Ok(bs0) && c < |bs0| && bs0[c].task.Handler?
    requires exists b1 :: Given(bs0[c], b1, packet) && b == if packet.Some? then Kept(b1, packet.value) else b1
    ensures Holding(start, log, bs0, c, packet, b)
  {
    FollowsAt(start, log, bs0, c);
    var taken := TakenBy(start, log, c, bs0[c]);
    if packet.Some? {
      assert TcbOk(bs0[c], c) && AtHandler(bs0[c].queue[0]);
      HandlerTakes(c, taken, Departures(log, c), bs0[c].task.work, bs0[c].task.devices, packet.value);
    } else {
      assert taken + [] == taken;
    }
  }

  lemma HandlerSuspendedTrace(start: Setup, log: seq<Event>, bs0: seq<Tcb>, c: nat, packet: Option<Packet>, b: Tcb)
    requires Traced(start, log, bs0) && Holding(start, log, bs0, c, packet, b)
    ensures Traced(start, log + [Suspended(c)], bs0[c := b.(state := b.state.(suspended := true))])
    ensures CountSent(log + [Suspended(c)]) == CountSent(log) && CountHeld(log + [Suspended(c)]) == CountHeld(log)
  {
    var e, b' := Suspended(c), b.(state := b.state.(suspended := true));
    LogMore(log, e, c);
    StillFollows(start, log, e, c, bs0[c], b', packet);
    AloneTrace(start, log, e, bs0, c, b');
  }

  lemma DeviceSentTrace(start: Setup, log: seq<Event>, bs0: seq<Tcb>, c: nat, packet: Option<Packet>, b: Tcb)
    requires Traced(start, log, bs0) && Holding(start, log, bs0, c, packet, b) && TcbOk(b, c)
    requires b.task.work != [] && b.task.work[0].a1 < DATA_SIZE && b.task.devices != []
    requires b.task.devices[0].id < |bs0| && b.task.devices[0].id != c
    ensures var w, v := b.task.work, b.task.devices[0];
      var q := v.(id := c, a1 := w[0].a2[w[0].a1]);
      var task := Handler([w[0].(a1 := w[0].a1 + 1)] + w[1..], b.task.devices[1..]);
      && Traced(start, log + [Sent(c, v.id, q)], bs0[c := b.(task := task)][v.id := Added(bs0[v.id], q)])
      && CountSent(log + [Sent(c, v.id, q)]) == CountSent(log) + 1
      && CountHeld(log + [Sent(c, v.id, q)]) == CountHeld(log)
  {
    var w, v := b.task.work, b.task.devices[0];
    var q := v.(id := c, a1 := w[0].a2[w[0].a1]);
    var b' := b.(task := Handler([w[0].(a1 := w[0].a1 + 1)] + w[1..], b.task.devices[1..]));
    var e := Sent(c, v.id, q);
    LogMore(log, e, c);
    HandlerSendsDevice(c, TakenBy(start, log, c, bs0[c]) + (if packet.Some? then [packet.value] else []),
      Departures(log, c), w, b.task.devices);
    StillFollows(start, log, e, c, bs0[c], b', packet);
    SentTrace(start, log, bs0, c, b', q, v.id);
  }

  lemma WorkSentTrace(start: Setup, log: seq<Event>, bs0: seq<Tcb>, c: nat, packet: Option<Packet>, b: Tcb)
    requires Traced(start, log, bs0) && Holding(start, log, bs0, c, packet, b) && TcbOk(b, c)
    requires b.task.work != [] && b.task.work[0].a1 >= DATA_SIZE && b.task.work[0].id < |bs0| &&
      b.task.work[0].id != c
    ensures var v := b.task.work[0];
      var task := Handler(b.task.work[1..], b.task.devices);
      && Traced(start, log + [Sent(c, v.id, v.(id := c))],
           bs0[c := b.(task := task)][v.id := Added(bs0[v.id], v.(id := c))])
      && CountSent(log + [Sent(c, v.id, v.(id := c))]) == CountSent(log) + 1
      && CountHeld(log + [Sent(c, v.id, v.(id := c))]) == CountHeld(log)
  {
    var v := b.task.work[0];
    var b' := b.(task := Handler(b.task.work[1..], b.task.devices));
    var e := Sent(c, v.id, v.(id := c));
    LogMore(log, e, c);
    HandlerSendsWork(c, TakenBy(start, log, c, bs0[c]) + (if packet.Some? then [packet.value] else []),
      Departures(log, c), b.task.work, b.task.devices);
    StillFollows(start, log, e, c, bs0[c], b', packet);
    SentTrace(start, log, bs0, c, b', v.(id := c), v.id);
  }

  // The whole run

  /** What the tasks have done when the idle task has come to its end. */
  ghost predicate History(start: Setup, log: seq<Event>)
    requires |start.queues| == NUMBER_OF_IDS
  {
    && IdleHistory(start.count, Releases(log))
    && WorkerHistory(In(start, log, ID_WORKER), Departures(log, ID_WORKER))
    && HandlerHistory(ID_HANDLER_A, In(start, log, ID_HANDLER_A), Departures(log, ID_HANDLER_A))
    && HandlerHistory(ID_HANDLER_B, In(start, log, ID_HANDLER_B), Departures(log, ID_HANDLER_B))
    && DeviceOut(ID_DEVICE_A, In(start, log, ID_DEVICE_A), Departures(log, ID_DEVICE_A))
    && DeviceOut(ID_DEVICE_B, In(start, log, ID_DEVICE_B), Departures(log, ID_DEVICE_B))
  }

  /** One device is released on each turn but the last. */
  ghost predicate IdleHistory(count: nat, releases: seq<nat>) {
    && |releases| + 1 == count
    && forall k :: 0 <= k < |releases| ==> releases[k] == if TurnB(k) then ID_DEVICE_B else ID_DEVICE_A
  }

  ghost predicate WorkerHistory(all: seq<Packet>, out: seq<Sending>) {
    |out| <= |all| && WorkerOut(all[..|out|], out)
  }

  ghost predicate HandlerHistory(c: nat, all: seq<Packet>, out: seq<Sending>) {
    HandlerOut(c, OfKind(all, KindWork), OfKind(all, KindDevice), SentOf(out, KindWork), SentOf(out, KindDevice))
  }

  lemma {:induction false} KindPrefix(s: seq<Packet>, t: seq<Packet>, kind: Kind)
    ensures OfKind(s, kind) <= OfKind(s + t, kind)
    ensures forall k {:trigger OfKind(s + t, kind)[k]} :: |OfKind(s, kind)| <= k < |OfKind(s + t, kind)| ==>
      OfKind(s + t, kind)[k] in t && OfKind(s + t, kind)[k].kind == kind
    decreases |t|
  {
    if t == [] {
      assert s + t == s;
    } else {
      var n := |t| - 1;
      KindPrefix(s, t[..n], kind);
      assert s + t == (s + t[..n]) + [t[n]];
      KindMore(s + t[..n], t[n], kind);
      assert t[n] in t && forall p :: p in t[..n] ==> p in t;
    }
  }

  lemma HandlerAll(c: nat, taken: seq<Packet>, queue: seq<Packet>, out: seq<Sending>, work: seq<Packet>,
      left: seq<Packet>)
    requires HandlerDone(c, taken, out, work, left) && forall p :: p in queue ==> AtHandler(p)
    ensures HandlerHistory(c, taken + queue, out)
  {
    KindPrefix(taken, queue, KindWork);
    KindPrefix(taken, queue, KindDevice);
  }

  lemma HandlerFollows(start: Setup, log: seq<Event>, bs: seq<Tcb>, c: nat)
    requires Traced(start, log, bs) && Ok(bs) && IsHandler(c)
    ensures |start.queues| == |bs| && HandlerHistory(c, In(start, log, c), Departures(log, c))
  {
    FollowsAt(start, log, bs, c);
    assert TcbOk(bs[c], c);
    var b, all := bs[c], In(start, log, c);
    assert TakenBy(start, log, c, b) + b.queue == all;
    HandlerAll(c, TakenBy(start, log, c, b), b.queue, Departures(log, c), b.task.work, b.task.devices);
  }

  lemma DeviceFollows(start: Setup, log: seq<Event>, bs: seq<Tcb>, c: nat)
    requires Traced(start, log, bs) && Ok(bs) && IsDevice(c)
    ensures |start.queues| == |bs| && DeviceOut(c, In(start, log, c), Departures(log, c))
  {
    FollowsAt(start, log, bs, c);
    assert TcbOk(bs[c], c);
  }

  lemma AllHistory(start: Setup, log: seq<Event>, bs: seq<Tcb>)
    requires Traced(start, log, bs) && Ok(bs) && bs[0].task.count == 0
    ensures |start.queues| == NUMBER_OF_IDS && History(start, log)
  {
    FollowsAt(start, log, bs, 0);
    FollowsAt(start, log, bs, ID_WORKER);
    assert TcbOk(bs[1], 1);
    HandlerFollows(start, log, bs, ID_HANDLER_A);
    HandlerFollows(start, log, bs, ID_HANDLER_B);
    DeviceFollows(start, log, bs, ID_DEVICE_A);
    DeviceFollows(start, log, bs, ID_DEVICE_B);
  }

  /** Before anything has run. */
  lemma NothingYet(start: Setup, bs: seq<Tcb>)
    requires |start.queues| == |bs| == NUMBER_OF_IDS && forall c :: 0 <= c < |bs| ==> bs[c].queue == start.queues[c]
    requires start.count > 0 && bs[0].task == Idle(1, start.count) && bs[1].task == Worker(ID_HANDLER_A, 0)
    requires bs[2].task == bs[3].task == Handler([], []) && bs[4].task == bs[5].task == Device(None)
    ensures Traced(start, [], bs)
  {
    forall c: nat | c < |bs| ensures Follows(start, [], c, bs[c]) {
      var all := In(start, [], c);
      assert all == bs[c].queue && all[..|all| - |bs[c].queue|] == [];
    }
  }
}
