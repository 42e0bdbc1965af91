/** The scheduler of jni/v8core/v8/benchmarks/richards.js: its invariant, its packets, and that it stops. */
module Richards {
  import opened RichardsTasks
  import opened RichardsHistories
  import opened RichardsTraces

  ghost predicate SameNames(bs: seq<Tcb>, bs0: seq<Tcb>) {
    forall name: nat {:trigger Named(bs, name)} :: Named(bs, name) == Named(bs0, name)
  }

  /** To mention it makes the definition of Stepped available. */
  ghost predicate Look(u: int) { true }

  /** A step of the scheduler from bs0 keeps the invariant and the packets, and the measure goes down. */
  ghost predicate Stepped(bs0: seq<Tcb>, bs: seq<Tcb>, next: int) {
    forall u {:trigger Look(u)} :: Look(u) ==>
    && Ok(bs) && -1 <= next < NUMBER_OF_IDS && NothingBefore(bs, next)
    && SameNames(bs, bs0) && Below(MeasureOf(bs), MeasureOf(bs0))
  }

  /** A step that changes the running block only. */
  lemma OneBlock(bs0: seq<Tcb>, c: nat, b: Tcb, next: int)
    requires Ok(bs0) && c < NUMBER_OF_IDS && NothingBefore(bs0, c) && TcbOk(b, c)
    requires next == c || (next == c - 1 && HeldOrSuspended(b))
    requires forall name: nat {:trigger NamedAt(b, name)} :: NamedAt(b, name) == NamedAt(bs0[c], name)
    requires var m, n := MeasureOf(bs0[c := b]), MeasureOf(bs0); Below(m, n)
    ensures Stepped(bs0, bs0[c := b], next)
  {
    forall name: nat ensures Named(bs0[c := b], name) == Named(bs0, name) {
      NamedUpdate(bs0, c, b, name);
      assert NamedAt(b, name) == NamedAt(bs0[c], name);
    }
  }

  /** What two blocks contribute to the measure together goes down. */
  ghost predicate Drops(b0: Tcb, b: Tcb, t0: Tcb, t: Tcb) {
    Below(Measure(0, Released(b) + Released(t), DeviceStages(b) + DeviceStages(t), WorkStages(b) + WorkStages(t),
      Awake(b) + Awake(t)),
          Measure(0, Released(b0) + Released(t0), DeviceStages(b0) + DeviceStages(t0), WorkStages(b0) + WorkStages(t0),
                  Awake(b0) + Awake(t0)))
  }

  /** What the two blocks must be after a packet has gone from one to the other. */
  ghost predicate Sends(b0: Tcb, c: nat, b: Tcb, p: Packet, t0: Tcb, t: nat) {
    forall u {:trigger Look(u)} :: Look(u) ==>
      && TcbOk(b, c) && TcbOk(Added(t0, p), t) && Drops(b0, b, t0, Added(t0, p))
      && forall name: nat {:trigger NamedAt(b, name)} ::
        NamedAt(b, name) + (if p.name == name then 1 else 0) == NamedAt(b0, name)
  }

  /** A step in which the running block sends a packet to another one. */
  lemma TwoBlocks(bs0: seq<Tcb>, c: nat, b: Tcb, p: Packet, t: nat)
    requires Ok(bs0) && 0 < c < NUMBER_OF_IDS && NothingBefore(bs0, c)
    requires 0 < t < NUMBER_OF_IDS && t != c && Sends(bs0[c], c, b, p, bs0[t], t)
    ensures Stepped(bs0, bs0[c := b][t := Added(bs0[t], p)], if bs0[t].queue == [] && t > c then t else c)
  {
    assert Look(0);
    MeasureUpdate(bs0, c, b);
    MeasureUpdate(bs0[c := b], t, Added(bs0[t], p));
    SentNames(bs0, c, b, p, t);
    SentOk(bs0, c, b, p, t, if bs0[t].queue == [] && t > c then t else c);
  }

  lemma SentNames(bs0: seq<Tcb>, c: nat, b: Tcb, p: Packet, t: nat)
    requires c < |bs0| && t < |bs0| && t != c
    requires forall name: nat {:trigger NamedAt(b, name)} ::
      NamedAt(b, name) + (if p.name == name then 1 else 0) == NamedAt(bs0[c], name)
    ensures SameNames(bs0[c := b][t := Added(bs0[t], p)], bs0)
  {
    var bs1, d := bs0[c := b], Added(bs0[t], p);
    forall name: nat ensures Named(bs1[t := d], name) == Named(bs0, name) {
      NamedUpdate(bs0, c, b, name);
      NamedUpdate(bs1, t, d, name);
      NamedAdd(bs0[t].queue, p, name);
      assert NamedAt(b, name) + (if p.name == name then 1 else 0) == NamedAt(bs0[c], name);
    }
  }

  lemma SentOk(bs0: seq<Tcb>, c: nat, b: Tcb, p: Packet, t: nat, next: int)
    requires Ok(bs0) && c < NUMBER_OF_IDS && NothingBefore(bs0, c) && TcbOk(b, c)
    requires t < NUMBER_OF_IDS && t != c && TcbOk(Added(bs0[t], p), t)
    requires next == if bs0[t].queue == [] && t > c then t else c
    ensures var bs := bs0[c := b][t := Added(bs0[t], p)]; Ok(bs) && NothingBefore(bs, next)
  {
    var bs := bs0[c := b][t := Added(bs0[t], p)];
    if t > c {
      assert HeldOrSuspended(bs0[t]);
    }
  }

  class Scheduler {
    var queueCount: nat
    var holdCount: nat
    var blocks: seq<Tcb>
    var currentTcb: int
    var currentId: nat
    ghost var start: Setup
    ghost var log: seq<Event>

    /** The blocks before the current one ran are where the log has brought them, and the counters count. */
    ghost predicate Recorded(bs0: seq<Tcb>)
      reads this
    {
      Traced(start, log, bs0) && queueCount == CountSent(log) && holdCount == CountHeld(log)
    }

    ghost predicate Running(bs0: seq<Tcb>, packet: Option<Packet>)
      reads this
    {
      && Ok(bs0) && 0 <= currentTcb < NUMBER_OF_IDS && currentId == currentTcb && |blocks| == |bs0|
      && NothingBefore(bs0, currentTcb) && !HeldOrSuspended(bs0[currentTcb])
      && blocks == bs0[currentTcb := blocks[currentTcb]] && Given(bs0[currentTcb], blocks[currentTcb], packet)
    }

    /** `release` */
    method Release(id: nat) returns (next: int)
      requires id < |blocks| && 0 <= currentTcb < |blocks|
      modifies `blocks, `log
      ensures log == old(log) + [Freed(id)]
      ensures var b := old(blocks)[id]; blocks == old(blocks)[id := b.(state := b.state.(held := false))]
      ensures next == if old(blocks)[id].priority > old(blocks)[currentTcb].priority then id else currentTcb
    {
      next := if blocks[id].priority > blocks[currentTcb].priority then id else currentTcb;
      blocks := blocks[id := blocks[id].(state := blocks[id].state.(held := false))];
      log := log + [Freed(id)];
    }

    /** `holdCurrent` */
    method HoldCurrent() returns (next: int)
      requires 0 <= currentTcb < |blocks|
      modifies `blocks, `holdCount, `log
      ensures log == old(log) + [Held(currentId)] && holdCount == old(holdCount) + 1
      ensures var b := old(blocks)[currentTcb]; blocks == old(blocks)[currentTcb := b.(state := b.state.(held := true))]
      ensures next == currentTcb - 1
    {
      holdCount := holdCount + 1;
      log := log + [Held(currentId)];
      var b := blocks[currentTcb];
      blocks := blocks[currentTcb := b.(state := b.state.(held := true))];
      next := currentTcb - 1;
    }

    /** `suspendCurrent` */
    method SuspendCurrent() returns (next: int)
      requires 0 <= currentTcb < |blocks|
      modifies `blocks, `log
      ensures log == old(log) + [Suspended(currentId)]
      ensures var b := old(blocks)[currentTcb];
        blocks == old(blocks)[currentTcb := b.(state := b.state.(suspended := true))]
      ensures next == currentTcb
    {
      var b := blocks[currentTcb];
      blocks := blocks[currentTcb := b.(state := b.state.(suspended := true))];
      log := log + [Suspended(currentId)];
      next := currentTcb;
    }

    /** `queue`, with `checkPriorityAdd` */
    method Queue(packet: Packet) returns (next: int)
      requires packet.id < |blocks| && 0 <= currentTcb < |blocks|
      modifies `blocks, `queueCount, `log
      ensures log == old(log) + [Sent(currentId, packet.id, packet.(id := currentId))]
      ensures queueCount == old(queueCount) + 1
      ensures blocks == old(blocks)[packet.id := Added(old(blocks)[packet.id], packet.(id := currentId))]
      ensures var t := old(blocks)[packet.id];
        next == if t.queue == [] && t.priority > old(blocks)[currentTcb].priority then packet.id else currentTcb
    {
      var t := blocks[packet.id];
      queueCount := queueCount + 1;
      next := currentTcb;
      if t.queue == [] && t.priority > blocks[currentTcb].priority {
        next := packet.id;
      }
      blocks := blocks[packet.id := Added(t, packet.(id := currentId))];
      log := log + [Sent(currentId, packet.id, packet.(id := currentId))];
    }

    /** `IdleTask.run` */
    method RunIdle(ghost bs0: seq<Tcb>) returns (next: int)
      requires Running(bs0, None) && blocks[currentTcb].task.Idle? && Recorded(bs0)
      modifies `blocks, `holdCount, `log
      ensures Stepped(bs0, blocks, next) && Recorded(blocks)
    {
      var b := blocks[0];
      var task := b.task.(count := b.task.count - 1);
      blocks := blocks[0 := b.(task := task)];
      if task.count == 0 {
        next := HoldIdle(bs0);
      } else {
        var id, v1 := Turn(task.v1);
        next := ReleaseDevice(v1, id, bs0);
      }
    }

    /** Which device the idle task releases, and its next value. */
    static method Turn(v1: bv16) returns (id: nat, next: bv16)
      ensures Turns(v1, id, next) && IsDevice(id)
    {
      if v1 & 1 == 0 {
        id, next := ID_DEVICE_A, v1 >> 1;
      } else {
        id, next := ID_DEVICE_B, (v1 >> 1) ^ 0xD008;
      }
    }

    /** The idle task has come to its end. */
    method HoldIdle(ghost bs0: seq<Tcb>) returns (next: int)
      requires Ok(bs0) && currentTcb == currentId == 0 && NothingBefore(bs0, 0) && !HeldOrSuspended(bs0[0])
      requires Recorded(bs0) && bs0[0].task.count == 1
      requires blocks == bs0[0 := bs0[0].(task := bs0[0].task.(count := 0))]
      modifies `blocks, `holdCount, `log
      ensures Stepped(bs0, blocks, next) && Recorded(blocks)
    {
      ghost var log0 := log;
      next := HoldCurrent();
      assert blocks == bs0[0 := blocks[0]] && blocks == bs0[0 := blocks[0]][1 := bs0[1]];
      IdleStep(bs0, blocks[0], 1, bs0[1], next);
      IdleHeldTrace(start, log0, bs0, blocks[0]);
    }

    /** The idle task goes on to its next value and releases a device. */
    method ReleaseDevice(v1: bv16, id: nat, ghost bs0: seq<Tcb>) returns (next: int)
      requires Ok(bs0) && currentTcb == 0 && NothingBefore(bs0, 0) && !HeldOrSuspended(bs0[0]) && Recorded(bs0)
      requires blocks == bs0[0 := bs0[0].(task := bs0[0].task.(count := bs0[0].task.count - 1))]
      requires bs0[0].task.count > 1 && Turns(bs0[0].task.v1, id, v1) && IsDevice(id)
      modifies `blocks, `log
      ensures Stepped(bs0, blocks, next) && Recorded(blocks)
    {
      ghost var log0 := log;
      var b := blocks[0];
      blocks := blocks[0 := b.(task := b.task.(v1 := v1))];
      next := Release(id);
      IdleStep(bs0, blocks[0], id, blocks[id], next);
      assert blocks == bs0[0 := blocks[0]][id := blocks[id]];
      IdleTrace(start, log0, bs0, blocks[0], id, blocks[id]);
    }

    /** `DeviceTask.run` */
    method RunDevice(packet: Option<Packet>, ghost bs0: seq<Tcb>) returns (next: int)
      requires Running(bs0, packet) && blocks[currentTcb].task.Device? && Recorded(bs0)
      modifies `blocks, `holdCount, `queueCount, `log
      ensures Stepped(bs0, blocks, next) && Recorded(blocks)
    {
      ghost var log0 := log;
      var c := currentTcb;
      var b := blocks[c];
      if packet == None {
        if b.task.slot == None {
          next := SuspendCurrent();
          SuspendStep(bs0, c);
          assert blocks == bs0[c := bs0[c].(state := bs0[c].state.(suspended := true))];
          SuspendTrace(start, log0, bs0, c);
        } else {
          var v := b.task.slot.value;
          blocks := blocks[c := b.(task := Device(None))];
          next := Queue(v);
          SendStep(bs0, c, v);
          assert blocks == bs0[c := bs0[c].(task := Device(None))][v.id := Added(bs0[v.id], v.(id := c))];
          DeviceTrace(start, log0, bs0, c, v);
        }
      } else {
        blocks := blocks[c := b.(task := Device(packet))];
        next := HoldCurrent();
        HoldStep(bs0, c);
        assert blocks == bs0[c := blocks[c]];
        HoldTrace(start, log0, bs0, c, blocks[c]);
      }
    }

    /** The loop of `WorkerTask.run` over the data. */
    method Fill(letter0: nat) returns (a2: seq<nat>, letter: nat)
      requires letter0 <= 26
      ensures |a2| == DATA_SIZE && letter == (letter0 + 3) % 26 + 1
      ensures forall i :: 0 <= i < DATA_SIZE ==> a2[i] == (letter0 + i) % 26 + 1
    {
      a2, letter := [], letter0;
      while |a2| < DATA_SIZE
        invariant |a2| <= DATA_SIZE && letter == if |a2| == 0 then letter0 else (letter0 + |a2| - 1) % 26 + 1
        invariant forall i :: 0 <= i < |a2| ==> a2[i] == (letter0 + i) % 26 + 1
      {
        letter := letter + 1;
        if letter > 26 { letter := 1; }
        a2 := a2 + [letter];
      }
    }

    /** `WorkerTask.run` */
    method RunWorker(packet: Option<Packet>, ghost bs0: seq<Tcb>) returns (next: int)
      requires Running(bs0, packet) && blocks[currentTcb].task.Worker? && Recorded(bs0)
      modifies `blocks, `queueCount, `log
      ensures Stepped(bs0, blocks, next) && Recorded(blocks)
    {
      ghost var log0 := log;
      var c := currentTcb;
      var b := blocks[c];
      if packet == None {
        next := SuspendCurrent();
        SuspendStep(bs0, c);
        assert blocks == bs0[c := bs0[c].(state := bs0[c].state.(suspended := true))];
        SuspendTrace(start, log0, bs0, c);
        return;
      }
      var last := if b.task.last == ID_HANDLER_A then ID_HANDLER_B else ID_HANDLER_A;
      var a2, letter := Fill(b.task.letter);
      var p := packet.value.(id := last, a1 := 0, a2 := a2);
      blocks := blocks[c := b.(task := Worker(last, letter))];
      next := Queue(p);
      WorkerStep(bs0, c, p, letter);
      assert blocks == bs0[c := b.(task := Worker(last, letter))][last := Added(bs0[last], p.(id := c))];
      WorkerTrace(start, log0, bs0, p, letter);
    }

    /** `HandlerTask.run` */
    method RunHandler(packet: Option<Packet>, ghost bs0: seq<Tcb>) returns (next: int)
      requires Running(bs0, packet) && blocks[currentTcb].task.Handler? && Recorded(bs0)
      modifies `blocks, `queueCount, `log
      ensures Stepped(bs0, blocks, next) && Recorded(blocks)
    {
      var c := currentTcb;
      if packet.Some? {
        blocks := blocks[c := Kept(blocks[c], packet.value)];
      }
      Received(bs0[c], blocks[c], c, packet);
      ReceivedTrace(start, log, bs0, c, packet, blocks[c]);
      next := HandlerSends(bs0, packet);
    }

    /** What a handler does with the packets it holds. */
    method HandlerSends(ghost bs0: seq<Tcb>, ghost packet: Option<Packet>) returns (next: int)
      requires Ok(bs0) && 0 < currentTcb < NUMBER_OF_IDS && currentId == currentTcb && |blocks| == |bs0|
      requires NothingBefore(bs0, currentTcb) && blocks == bs0[currentTcb := blocks[currentTcb]]
      requires ReceivedFrom(bs0[currentTcb], blocks[currentTcb], currentTcb)
      requires Recorded(bs0) && Holding(start, log, bs0, currentTcb, packet, blocks[currentTcb])
      modifies `blocks, `queueCount, `log
      ensures Stepped(bs0, blocks, next) && Recorded(blocks)
    {
      var b := blocks[currentTcb];
      var work, devices := b.task.work, b.task.devices;
      if work != [] {
        var count := work[0].a1;
        if count < DATA_SIZE {
          if devices != [] {
            next := SendLetter(bs0, packet);
            return;
          }
        } else {
          next := SendBack(bs0, packet);
          return;
        }
      }
      ghost var log0 := log;
      next := SuspendCurrent();
      HandlerSuspended(bs0, currentTcb, b);
      assert blocks == bs0[currentTcb := b.(state := b.state.(suspended := true))];
      HandlerSuspendedTrace(start, log0, bs0, currentTcb, packet, b);
    }

    /** A device packet leaves with the next letter of the first work packet. */
    method SendLetter(ghost bs0: seq<Tcb>, ghost packet: Option<Packet>) returns (next: int)
      requires Ok(bs0) && 0 < currentTcb < NUMBER_OF_IDS && currentId == currentTcb && |blocks| == |bs0|
      requires NothingBefore(bs0, currentTcb) && blocks == bs0[currentTcb := blocks[currentTcb]]
      requires ReceivedFrom(bs0[currentTcb], blocks[currentTcb], currentTcb)
      requires Recorded(bs0) && Holding(start, log, bs0, currentTcb, packet, blocks[currentTcb])
      requires var task := blocks[currentTcb].task;
        task.work != [] && task.work[0].a1 < DATA_SIZE && task.devices != []
      modifies `blocks, `queueCount, `log
      ensures Stepped(bs0, blocks, next) && Recorded(blocks)
    {
      ghost var log0 := log;
      var c := currentTcb;
      var b := blocks[c];
      var work, devices := b.task.work, b.task.devices;
      var count := work[0].a1;
      var v := devices[0].(a1 := work[0].a2[count]);
      var task := Handler([work[0].(a1 := count + 1)] + work[1..], devices[1..]);
      blocks := blocks[c := b.(task := task)];
      next := Queue(v);
      DeviceSent(bs0, c, b, task, v);
      assert blocks == bs0[c := b.(task := task)][v.id := Added(bs0[v.id], v.(id := c))];
      DeviceSentTrace(start, log0, bs0, c, packet, b);
    }

    /** The first work packet goes back. */
    method SendBack(ghost bs0: seq<Tcb>, ghost packet: Option<Packet>) returns (next: int)
      requires Ok(bs0) && 0 < currentTcb < NUMBER_OF_IDS && currentId == currentTcb && |blocks| == |bs0|
      requires NothingBefore(bs0, currentTcb) && blocks == bs0[currentTcb := blocks[currentTcb]]
      requires ReceivedFrom(bs0[currentTcb], blocks[currentTcb], currentTcb)
      requires Recorded(bs0) && Holding(start, log, bs0, currentTcb, packet, blocks[currentTcb])
      requires var work := blocks[currentTcb].task.work; work != [] && work[0].a1 >= DATA_SIZE
      modifies `blocks, `queueCount, `log
      ensures Stepped(bs0, blocks, next) && Recorded(blocks)
    {
      ghost var log0 := log;
      var c := currentTcb;
      var b := blocks[c];
      var v := b.task.work[0];
      var task := Handler(b.task.work[1..], b.task.devices);
      blocks := blocks[c := b.(task := task)];
      next := Queue(v);
      WorkSent(bs0, c, b, task, v);
      assert blocks == bs0[c := b.(task := task)][v.id := Added(bs0[v.id], v.(id := c))];
      WorkSentTrace(start, log0, bs0, c, packet, b);
    }

    /** `TaskControlBlock.run` for the current block. */
    method Run() returns (next: int)
      requires Ok(blocks) && 0 <= currentTcb < NUMBER_OF_IDS && currentId == currentTcb
      requires NothingBefore(blocks, currentTcb) && !HeldOrSuspended(blocks[currentTcb]) && Recorded(blocks)
      modifies `blocks, `holdCount, `queueCount, `log
      ensures Stepped(old(blocks), blocks, next) && Recorded(blocks)
    {
      ghost var bs0 := blocks;
      var c, packet := currentTcb, None;
      assert TcbOk(blocks[c], c);
      if TakesPacket(blocks[c]) {
        packet := Some(blocks[c].queue[0]);
        blocks := blocks[c := Taken(blocks[c])];
      }
      assert blocks == bs0[c := blocks[c]];
      match blocks[c].task
      case Idle(_, _) => next := RunIdle(bs0);
      case Worker(_, _) => next := RunWorker(packet, bs0);
      case Handler(_, _) => next := RunHandler(packet, bs0);
      case Device(_) => next := RunDevice(packet, bs0);
    }

    /** `schedule`: it ends, with nothing to do for any task, the idle task held and all packets there. */
    method Schedule()
      requires Ok(blocks) && Recorded(blocks)
      modifies this
      ensures Ok(blocks) && SameNames(blocks, old(blocks)) && currentTcb == -1
      ensures Recorded(blocks) && start == old(start)
      ensures forall i :: 0 <= i < |blocks| ==> HeldOrSuspended(blocks[i])
      ensures blocks[0].state.held && blocks[0].task.count == 0
    {
      ghost var bs0 := blocks;
      currentTcb := NUMBER_OF_IDS - 1;
      while currentTcb != -1
        invariant Ok(blocks) && -1 <= currentTcb < NUMBER_OF_IDS
        invariant NothingBefore(blocks, currentTcb) && SameNames(blocks, bs0) && Recorded(blocks) && start == old(start)
        decreases MeasureOf(blocks).idle, MeasureOf(blocks).released, MeasureOf(blocks).devices,
          MeasureOf(blocks).work, MeasureOf(blocks).awake, currentTcb
      {
        if HeldOrSuspended(blocks[currentTcb]) {
          currentTcb := currentTcb - 1;
        } else {
          currentId := currentTcb;
          ghost var bs := blocks;
          currentTcb := Run();
          assert Look(0);
          ChainNames(blocks, bs, bs0);
        }
      }
    }

    constructor ()
      ensures blocks == [] && log == [] && queueCount == 0 && holdCount == 0
    {
      queueCount, holdCount, blocks, currentTcb, currentId := 0, 0, [], -1, 0;
      log := [];
    }

    /** `addTask`, for the ids in turn: the block is the new head of the list. */
    method AddTask(id: nat, priority: nat, queue: seq<Packet>, task: Task)
      requires id == |blocks|
      modifies `blocks, `currentTcb
      ensures blocks == old(blocks) + [Tcb(id, priority, State(queue != [], true, false), queue, task)] &&
        currentTcb == id
    {
      blocks := blocks + [Tcb(id, priority, State(queue != [], true, false), queue, task)];
      currentTcb := id;
    }

    /** `addIdleTask`, with `addRunningTask` */
    method AddIdleTask(count: nat)
      requires blocks == []
      modifies `blocks, `currentTcb
      ensures blocks == [Tcb(ID_IDLE, 0, State(false, false, false), [], Idle(1, count))]
    {
      AddTask(ID_IDLE, 0, [], Idle(1, count));
      blocks := blocks[currentTcb := blocks[currentTcb].(state := State(false, false, false))];
    }

    /** The tasks of `runRichards`. */
    method AddTasks(count: nat, work: seq<Packet>, a: seq<Packet>, b: seq<Packet>)
      requires blocks == [] && log == [] && queueCount == 0 && holdCount == 0
      requires count >= 1 && WorkMade(work) && DevicesMade(a) && DevicesMade(b)
      modifies `blocks, `currentTcb, `start
      ensures blocks == Start(count, work, a, b) && Recorded(blocks)
      ensures start == Setup(count, [[], work, a, b, [], []])
    {
      AddIdleTask(count);
      AddTask(ID_WORKER, 1000, work, Worker(ID_HANDLER_A, 0));
      AddTask(ID_HANDLER_A, 2000, a, Handler([], []));
      AddTask(ID_HANDLER_B, 3000, b, Handler([], []));
      AddTask(ID_DEVICE_A, 4000, [], Device(None));
      AddTask(ID_DEVICE_B, 5000, [], Device(None));
      start := Setup(count, [[], work, a, b, [], []]);
      StartTraced(count, work, a, b);
      assert blocks == Start(count, work, a, b);
    }
  }

  lemma ChainNames(bs: seq<Tcb>, bs1: seq<Tcb>, bs0: seq<Tcb>)
    requires SameNames(bs, bs1) && SameNames(bs1, bs0)
    ensures SameNames(bs, bs0)
  {
    forall name: nat ensures Named(bs, name) == Named(bs0, name) {
      assert Named(bs1, name) == Named(bs0, name);
    }
  }

  /** Work packets as they are made, and device packets for a handler. */
  predicate WorkMade(s: seq<Packet>) {
    forall i :: 0 <= i < |s| ==> s[i].kind == KindWork
  }

  predicate DevicesMade(s: seq<Packet>) {
    forall i :: 0 <= i < |s| ==> s[i].kind == KindDevice && IsDevice(s[i].id)
  }

  /**
    `runRichards`, for any idle count but 0, any work packets and any device packets: it ends, and
    every packet is still in exactly one place if it was so at the start.
   */
  method RunRichards(count: nat, work: seq<Packet>, a: seq<Packet>, b: seq<Packet>) returns (s: Scheduler)
    requires count >= 1 && WorkMade(work) && DevicesMade(a) && DevicesMade(b)
    ensures Ok(s.blocks) && s.currentTcb == -1 && s.blocks[0].task.count == 0
    ensures forall i :: 0 <= i < |s.blocks| ==> HeldOrSuspended(s.blocks[i])
    ensures forall name: nat :: Named(s.blocks, name) == NamedIn(work, name) + NamedIn(a, name) + NamedIn(b, name)
    ensures History(Setup(count, [[], work, a, b, [], []]), s.log)
    ensures s.queueCount == CountSent(s.log) && s.holdCount == CountHeld(s.log)
  {
    s := new Scheduler();
    s.AddTasks(count, work, a, b);
    ghost var bs := s.blocks;
    s.Schedule();
    AllHistory(s.start, s.log, s.blocks);
    forall name: nat ensures Named(s.blocks, name) == NamedIn(work, name) + NamedIn(a, name) + NamedIn(b, name) {
      StartNames(count, work, a, b, name);
      assert Named(s.blocks, name) == Named(bs, name);
    }
  }

  /** The blocks of `runRichards` before scheduling. */
  function Start(count: nat, work: seq<Packet>, a: seq<Packet>, b: seq<Packet>): (bs: seq<Tcb>)
    requires count >= 1 && WorkMade(work) && DevicesMade(a) && DevicesMade(b)
    ensures Ok(bs)
  {
    [Tcb(ID_IDLE, 0, State(false, false, false), [], Idle(1, count)),
     Tcb(ID_WORKER, 1000, State(work != [], true, false), work, Worker(ID_HANDLER_A, 0)),
     Tcb(ID_HANDLER_A, 2000, State(a != [], true, false), a, Handler([], [])),
     Tcb(ID_HANDLER_B, 3000, State(b != [], true, false), b, Handler([], [])),
     Tcb(ID_DEVICE_A, 4000, State(false, true, false), [], Device(None)),
     Tcb(ID_DEVICE_B, 5000, State(false, true, false), [], Device(None))]
  }

  lemma StartTraced(count: nat, work: seq<Packet>, a: seq<Packet>, b: seq<Packet>)
    requires count >= 1 && WorkMade(work) && DevicesMade(a) && DevicesMade(b)
    ensures Traced(Setup(count, [[], work, a, b, [], []]), [], Start(count, work, a, b))
  {
    NothingYet(Setup(count, [[], work, a, b, [], []]), Start(count, work, a, b));
  }

  lemma StartNames(count: nat, work: seq<Packet>, a: seq<Packet>, b: seq<Packet>, name: nat)
    requires count >= 1 && WorkMade(work) && DevicesMade(a) && DevicesMade(b)
    ensures Named(Start(count, work, a, b), name) == NamedIn(work, name) + NamedIn(a, name) + NamedIn(b, name)
  {
    var bs := Start(count, work, a, b);
    SumOfSix(bs[0], bs[1], bs[2], bs[3], bs[4], bs[5], NamedHere(name));
    assert bs == [] + [bs[0]] + [bs[1]] + [bs[2]] + [bs[3]] + [bs[4]] + [bs[5]];
  }

  /** A handler's block after it has taken its packet, against the one before. */
  ghost predicate ReceivedFrom(b0: Tcb, b: Tcb, c: nat) {
    && TcbOk(b, c) && b.task.Handler? && !b.state.held && !b.state.suspended
    && DeviceStages(b) <= DeviceStages(b0) && WorkStages(b) <= WorkStages(b0)
    && (DeviceStages(b) < DeviceStages(b0) || WorkStages(b) < WorkStages(b0) || !b0.state.suspended)
    && forall name: nat {:trigger NamedAt(b, name)} :: NamedAt(b, name) == NamedAt(b0, name)
  }

  lemma Received(b0: Tcb, b: Tcb, c: nat, packet: Option<Packet>)
    requires TcbOk(b0, c) && b0.task.Handler? && !HeldOrSuspended(b0)
    requires exists b1 :: Given(b0, b1, packet) && b == if packet.Some? then Kept(b1, packet.value) else b1
    ensures ReceivedFrom(b0, b, c)
  {
    if packet.Some? {
      KeptOk(b0, c);
      KeptStages(b0);
      forall name: nat ensures NamedAt(b, name) == NamedAt(b0, name) {
        KeptNames(b0, name);
      }
    }
  }

  lemma KeptOk(b0: Tcb, c: nat)
    requires TcbOk(b0, c) && b0.task.Handler? && b0.queue != []
    ensures TcbOk(Kept(Taken(b0), b0.queue[0]), c)
  {
  }

  lemma KeptStages(b0: Tcb)
    requires b0.task.Handler? && b0.queue != [] && AtHandler(b0.queue[0])
    ensures var b := Kept(Taken(b0), b0.queue[0]);
      && DeviceStages(b) <= DeviceStages(b0) && WorkStages(b) <= WorkStages(b0)
      && (DeviceStages(b) < DeviceStages(b0) || WorkStages(b) < WorkStages(b0))
  {
    HowManyFirst(b0.queue, KindWork);
    HowManyFirst(b0.queue, KindDevice);
  }

  lemma KeptNames(b0: Tcb, name: nat)
    requires b0.task.Handler? && b0.queue != []
    ensures NamedAt(Kept(Taken(b0), b0.queue[0]), name) == NamedAt(b0, name)
  {
    var p, rest := b0.queue[0], b0.queue[1..];
    NamedFirst(b0.queue, name);
    if p.kind == KindWork {
      NamedAdd(b0.task.work, p, name);
    } else {
      NamedAdd(b0.task.devices, p, name);
    }
  }

  lemma IdleStep(bs0: seq<Tcb>, b: Tcb, d: nat, e: Tcb, next: int)
    requires Ok(bs0) && NothingBefore(bs0, 0) && bs0[0].task.count > 0 && !bs0[0].state.held
    requires TcbOk(b, 0) && b.task.count == bs0[0].task.count - 1 && 0 < d < NUMBER_OF_IDS
    requires TcbOk(e, d) && e == bs0[d].(state := e.state)
    requires (next == -1 && b.state.held && e == bs0[d]) || next == d
    ensures Stepped(bs0, bs0[0 := b][d := e], next)
  {
    var bs1 := bs0[0 := b];
    MeasureUpdate(bs1, d, e);
    forall name: nat ensures Named(bs1[d := e], name) == Named(bs0, name) {
      NamedUpdate(bs0, 0, b, name);
      NamedUpdate(bs1, d, e, name);
    }
  }

  /** suspendCurrent by a task that has nothing to do. */
  lemma SuspendStep(bs0: seq<Tcb>, c: nat)
    requires Ok(bs0) && c < NUMBER_OF_IDS && NothingBefore(bs0, c) && !bs0[c].state.suspended && !bs0[c].state.held
    requires !bs0[c].task.Idle? && (bs0[c].task.Device? ==> bs0[c].task.slot == None)
    ensures Stepped(bs0, bs0[c := bs0[c].(state := bs0[c].state.(suspended := true))], c)
  {
    var b := bs0[c].(state := bs0[c].state.(suspended := true));
    MeasureUpdate(bs0, c, b);
    OneBlock(bs0, c, b, c);
  }

  /** A device sends on the packet it held. */
  lemma SendStep(bs0: seq<Tcb>, c: nat, v: Packet)
    requires Ok(bs0) && c < NUMBER_OF_IDS && NothingBefore(bs0, c) && !bs0[c].state.held &&
      bs0[c].task == Device(Some(v))
    ensures var t := bs0[v.id];
      Stepped(bs0, bs0[c := bs0[c].(task := Device(None))][v.id := Added(t, v.(id := c))],
              if t.queue == [] && t.priority > bs0[c].priority then v.id else c)
  {
    DeviceSends(bs0[c], c, v, bs0[v.id]);
    TwoBlocks(bs0, c, bs0[c].(task := Device(None)), v.(id := c), v.id);
  }

  lemma DeviceSends(b0: Tcb, c: nat, v: Packet, t0: Tcb)
    requires TcbOk(b0, c) && !b0.state.held && b0.task == Device(Some(v)) && TcbOk(t0, v.id)
    ensures Sends(b0, c, b0.(task := Device(None)), v.(id := c), t0, v.id)
  {
    AddedToHandler(t0, v.id, v.(id := c));
  }

  /** A device takes a packet and is held. */
  lemma HoldStep(bs0: seq<Tcb>, c: nat)
    requires Ok(bs0) && c < NUMBER_OF_IDS && NothingBefore(bs0, c) && bs0[c].task.Device? && TakesPacket(bs0[c])
    ensures var b := Taken(bs0[c]);
      Stepped(bs0, bs0[c := b.(task := Device(Some(bs0[c].queue[0])), state := b.state.(held := true))], c - 1)
  {
    var b := Taken(bs0[c]).(task := Device(Some(bs0[c].queue[0])), state := Taken(bs0[c]).state.(held := true));
    MeasureUpdate(bs0, c, b);
    forall name: nat ensures NamedAt(b, name) == NamedAt(bs0[c], name) {
      NamedFirst(bs0[c].queue, name);
    }
    OneBlock(bs0, c, b, c - 1);
  }

  /** The worker sends a work packet to a handler. */
  lemma WorkerStep(bs0: seq<Tcb>, c: nat, v: Packet, letter: nat)
    requires Ok(bs0) && c == ID_WORKER && NothingBefore(bs0, c) && TakesPacket(bs0[c]) && letter <= 26
    requires IsHandler(v.id) && v.a1 == 0 && |v.a2| == DATA_SIZE && v.kind == KindWork && v.name == bs0[c].queue[0].name
    ensures var b, t := Taken(bs0[c]).(task := Worker(v.id, letter)), bs0[v.id];
      Stepped(bs0, bs0[c := b][v.id := Added(t, v.(id := c))],
        if t.queue == [] && t.priority > b.priority then v.id else c)
  {
    WorkerSends(bs0[c], v, letter, bs0[v.id]);
    TwoBlocks(bs0, c, Taken(bs0[c]).(task := Worker(v.id, letter)), v.(id := c), v.id);
  }

  lemma WorkerSends(b0: Tcb, v: Packet, letter: nat, t0: Tcb)
    requires TcbOk(b0, ID_WORKER) && TakesPacket(b0) && letter <= 26 && IsHandler(v.id) && TcbOk(t0, v.id)
    requires v.a1 == 0 && |v.a2| == DATA_SIZE && v.kind == KindWork && v.name == b0.queue[0].name
    ensures Sends(b0, ID_WORKER, Taken(b0).(task := Worker(v.id, letter)), v.(id := ID_WORKER), t0, v.id)
  {
    var b, p := Taken(b0).(task := Worker(v.id, letter)), v.(id := ID_WORKER);
    AddedToHandler(t0, v.id, p);
    WorkerTakes(b0, v.id, letter);
    forall name: nat ensures NamedAt(b, name) + (if p.name == name then 1 else 0) == NamedAt(b0, name) {
      TakenNames(b0, b, p, name);
    }
  }

  lemma WorkerTakes(b0: Tcb, last: nat, letter: nat)
    requires TcbOk(b0, ID_WORKER) && b0.queue != [] && letter <= 26
    ensures var b := Taken(b0).(task := Worker(last, letter));
      && TcbOk(b, ID_WORKER) && Released(b) == Released(b0) && DeviceStages(b) == DeviceStages(b0)
      && WorkStages(b) + 2 == WorkStages(b0)
  {
  }

  lemma TakenNames(b0: Tcb, b: Tcb, p: Packet, name: nat)
    requires b0.task.Worker? && b.task.Worker? && b0.queue != [] && b.queue == b0.queue[1..] &&
      p.name == b0.queue[0].name
    ensures NamedAt(b, name) + (if p.name == name then 1 else 0) == NamedAt(b0, name)
  {
    NamedFirst(b0.queue, name);
  }

  /** A packet that arrives at a handler. */
  lemma AddedToHandler(t0: Tcb, t: nat, p: Packet)
    requires TcbOk(t0, t) && t0.task.Handler? && AtHandler(p)
    ensures TcbOk(Added(t0, p), t)
    ensures var b := Added(t0, p);
      && Released(b) == Released(t0) && Awake(b) == Awake(t0)
      && DeviceStages(b) == DeviceStages(t0) + (if p.kind == KindDevice then 3 else 0)
      && WorkStages(b) == WorkStages(t0) + if p.kind == KindWork then 1 else 0
  {
    HowManyAdd(t0.queue, p, KindWork);
    HowManyAdd(t0.queue, p, KindDevice);
  }

  /** A handler with nothing to send suspends itself. */
  lemma HandlerSuspended(bs0: seq<Tcb>, c: nat, b: Tcb)
    requires Ok(bs0) && c < NUMBER_OF_IDS && NothingBefore(bs0, c) && ReceivedFrom(bs0[c], b, c)
    ensures Stepped(bs0, bs0[c := b.(state := b.state.(suspended := true))], c)
  {
    var b1 := b.(state := b.state.(suspended := true));
    MeasureUpdate(bs0, c, b1);
    forall name: nat ensures NamedAt(b1, name) == NamedAt(bs0[c], name) {
      assert NamedAt(b, name) == NamedAt(bs0[c], name);
    }
    OneBlock(bs0, c, b1, c);
  }

  /** A handler sends a device packet with a letter of its first work packet. */
  lemma DeviceSent(bs0: seq<Tcb>, c: nat, b: Tcb, task: Task, v: Packet)
    requires Ok(bs0) && c < NUMBER_OF_IDS && NothingBefore(bs0, c) && ReceivedFrom(bs0[c], b, c)
    requires b.task.work != [] && b.task.work[0].a1 < DATA_SIZE && b.task.devices != []
    requires var w := b.task.work; task == Handler([w[0].(a1 := w[0].a1 + 1)] + w[1..], b.task.devices[1..])
    requires v == b.task.devices[0].(a1 := v.a1)
    ensures var t := bs0[v.id];
      Stepped(bs0, bs0[c := b.(task := task)][v.id := Added(t, v.(id := c))],
              if t.queue == [] && t.priority > b.priority then v.id else c)
  {
    HandlerSendsDevice(bs0[c], c, b, task, v, bs0[v.id]);
    TwoBlocks(bs0, c, b.(task := task), v.(id := c), v.id);
  }

  lemma HandlerSendsDevice(b0: Tcb, c: nat, b: Tcb, task: Task, v: Packet, t0: Tcb)
    requires ReceivedFrom(b0, b, c) && TcbOk(t0, v.id) && Released(b0) == 0
    requires b.task.work != [] && b.task.work[0].a1 < DATA_SIZE && b.task.devices != []
    requires var w := b.task.work; task == Handler([w[0].(a1 := w[0].a1 + 1)] + w[1..], b.task.devices[1..])
    requires v == b.task.devices[0].(a1 := v.a1)
    ensures Sends(b0, c, b.(task := task), v.(id := c), t0, v.id)
  {
    var b1, p := b.(task := task), v.(id := c);
    forall name: nat ensures NamedAt(b1, name) + (if p.name == name then 1 else 0) == NamedAt(b0, name) {
      assert NamedAt(b, name) == NamedAt(b0, name);
      NamedFirst(b.task.devices, name);
      NamedFirst(b.task.work, name);
      NamedFirst(task.work, name);
      assert task.work[1..] == b.task.work[1..];
    }
  }

  /** A handler sends its finished work packet back to the worker. */
  lemma WorkSent(bs0: seq<Tcb>, c: nat, b: Tcb, task: Task, v: Packet)
    requires Ok(bs0) && c < NUMBER_OF_IDS && NothingBefore(bs0, c) && ReceivedFrom(bs0[c], b, c)
    requires b.task.work != [] && b.task.work[0].a1 >= DATA_SIZE && v == b.task.work[0]
    requires task == Handler(b.task.work[1..], b.task.devices)
    ensures var t := bs0[v.id];
      Stepped(bs0, bs0[c := b.(task := task)][v.id := Added(t, v.(id := c))],
              if t.queue == [] && t.priority > b.priority then v.id else c)
  {
    HandlerSendsWork(bs0[c], c, b, task, v, bs0[v.id]);
    TwoBlocks(bs0, c, b.(task := task), v.(id := c), v.id);
  }

  lemma HandlerSendsWork(b0: Tcb, c: nat, b: Tcb, task: Task, v: Packet, t0: Tcb)
    requires ReceivedFrom(b0, b, c) && TcbOk(t0, v.id) && Released(b0) == 0
    requires b.task.work != [] && b.task.work[0].a1 >= DATA_SIZE && v == b.task.work[0]
    requires task == Handler(b.task.work[1..], b.task.devices)
    ensures Sends(b0, c, b.(task := task), v.(id := c), t0, v.id)
  {
    var b1, p := b.(task := task), v.(id := c);
    forall name: nat ensures NamedAt(b1, name) + (if p.name == name then 1 else 0) == NamedAt(b0, name) {
      assert NamedAt(b, name) == NamedAt(b0, name);
      NamedFirst(b.task.work, name);
    }
  }
}
