/**
  The tasks and packets of jni/v8core/v8/benchmarks/richards.js, their invariant, and the sums that
  show that scheduling ends.

  A packet is always in one worklist or one task variable, so it is a value there, with a name that
  stays its own; worklists are sequences.
*/
module RichardsTasks {

  datatype Option<T> = None | Some(value: T)

  datatype Kind = KindDevice | KindWork

  const ID_IDLE: nat := 0
  const ID_WORKER: nat := 1
  const ID_HANDLER_A: nat := 2
  const ID_HANDLER_B: nat := 3
  const ID_DEVICE_A: nat := 4
  const ID_DEVICE_B: nat := 5
  const NUMBER_OF_IDS: nat := 6
  const DATA_SIZE: nat := 4

  datatype Packet = Packet(name: nat, id: nat, kind: Kind, a1: nat, a2: seq<nat>)

  /** The three bits of a task's state. */
  datatype State = State(runnable: bool, suspended: bool, held: bool)

  datatype Task =
    | Idle(v1: bv16, count: nat)
    | Worker(last: nat, letter: nat)
    | Handler(work: seq<Packet>, devices: seq<Packet>)
    | Device(slot: Option<Packet>)

  /** A task control block; its place in the list is its identity, and so is the priority order. */
  datatype Tcb = Tcb(id: nat, priority: nat, state: State, queue: seq<Packet>, task: Task)

  /** `isHeldOrSuspended` */
  predicate HeldOrSuspended(b: Tcb) {
    b.state.held || (b.state.suspended && !b.state.runnable)
  }

  predicate IsHandler(id: nat) {
    id == ID_HANDLER_A || id == ID_HANDLER_B
  }

  predicate IsDevice(id: nat) {
    id == ID_DEVICE_A || id == ID_DEVICE_B
  }

  /** A packet on the way to a handler or at one: it goes on to the worker, or to a device. */
  predicate AtHandler(p: Packet) {
    if p.kind == KindWork then p.id == ID_WORKER && p.a1 == 0 && |p.a2| == DATA_SIZE else IsDevice(p.id)
  }

  predicate AtDevice(p: Packet) {
    p.kind == KindDevice && IsHandler(p.id)
  }

  /** The first work packet of a handler may be partly done. */
  predicate WorkList(s: seq<Packet>) {
    && (forall i :: 0 <= i < |s| ==> s[i].kind == KindWork && s[i].id == ID_WORKER && |s[i].a2| == DATA_SIZE)
    && (forall i :: 0 < i < |s| ==> s[i].a1 == 0)
    && (|s| > 0 ==> s[0].a1 <= DATA_SIZE)
  }

  predicate DeviceList(s: seq<Packet>) {
    forall i :: 0 <= i < |s| ==> s[i].kind == KindDevice && IsDevice(s[i].id)
  }

  predicate TaskOk(b: Tcb) {
    match b.task
    case Idle(_, count) => b.id == ID_IDLE && b.queue == [] && !b.state.suspended && (b.state.held <==> count == 0)
    case Worker(_, letter) => b.id == ID_WORKER && !b.state.held && letter <= 26 && forall i :: 0 <= i < |b.queue| ==>
      b.queue[i].kind == KindWork
    case Handler(work, devices) =>
      && IsHandler(b.id) && !b.state.held && WorkList(work) && DeviceList(devices)
      && forall i :: 0 <= i < |b.queue| ==> AtHandler(b.queue[i])
    case Device(slot) =>
      && IsDevice(b.id) && (forall i :: 0 <= i < |b.queue| ==> AtDevice(b.queue[i]))
      && (b.state.held ==> slot.Some?)
      && (slot.Some? ==> AtDevice(slot.value) && !b.state.suspended)
  }

  /** The RUNNABLE bit says that there are packets to process. */
  predicate TcbOk(b: Tcb, i: nat) {
    b.id == i && b.priority == 1000 * i && (b.state.runnable <==> b.queue != []) && TaskOk(b)
  }

  predicate Ok(bs: seq<Tcb>) {
    |bs| == NUMBER_OF_IDS && forall i :: 0 <= i < |bs| ==> TcbOk(bs[i], i)
  }

  /** Everything before block c in the list has nothing to do. */
  predicate NothingBefore(bs: seq<Tcb>, c: int) {
    forall i :: 0 <= i < |bs| && c < i ==> HeldOrSuspended(bs[i])
  }

  // Blocks

  /** A packet at the end of a worklist, and the task made runnable. */
  function Added(b: Tcb, p: Packet): Tcb {
    b.(queue := b.queue + [p], state := if b.queue == [] then b.state.(runnable := true) else b.state)
  }

  /** A task that `run` gives its first packet. */
  predicate TakesPacket(b: Tcb) {
    b.state.runnable && b.state.suspended && !b.state.held
  }

  function Taken(b: Tcb): Tcb
    requires b.queue != []
  {
    b.(queue := b.queue[1..], state := State(|b.queue| > 1, false, false))
  }

  /** What `run` leaves to its task: the block without the packet, and the packet. */
  ghost predicate Given(b: Tcb, b1: Tcb, packet: Option<Packet>) {
    if TakesPacket(b) && b.queue != [] then b1 == Taken(b) && packet == Some(b.queue[0]) else b1 == b && packet == None
  }

  /** A packet at the end of one of a handler's own lists. */
  function Kept(b: Tcb, p: Packet): Tcb
    requires b.task.Handler?
  {
    if p.kind == KindWork then b.(task := b.task.(work := b.task.work + [p]))
    else b.(task := b.task.(devices := b.task.devices + [p]))
  }

  // Packets

  /** How many packets in a list have the name. */
  function NamedIn(s: seq<Packet>, name: nat): nat {
    if s == [] then 0 else NamedIn(s[..|s| - 1], name) + if s[|s| - 1].name == name then 1 else 0
  }

  lemma {:induction false} NamedFirst(s: seq<Packet>, name: nat)
    requires s != []
    ensures NamedIn(s, name) == NamedIn(s[1..], name) + if s[0].name == name then 1 else 0
    decreases |s|
  {
    var m := |s| - 1;
    if m > 0 {
      NamedFirst(s[..m], name);
      assert s[..m][1..] == s[1..][..m - 1];
    } else {
      assert s[1..] == [];
    }
  }

  lemma NamedAdd(s: seq<Packet>, p: Packet, name: nat)
    ensures NamedIn(s + [p], name) == NamedIn(s, name) + if p.name == name then 1 else 0
  {
    assert (s + [p])[..|s|] == s;
  }

  /** In the worklist and the variables of a task. */
  function NamedAt(b: Tcb, name: nat): nat {
    NamedIn(b.queue, name) +
    match b.task
    case Handler(work, devices) => NamedIn(work, name) + NamedIn(devices, name)
    case Device(slot) => if slot.Some? && slot.value.name == name then 1 else 0
    case _ => 0
  }

  function NamedHere(name: nat): Tcb -> nat {
    b => NamedAt(b, name)
  }

  /** In all of them. */
  function Named(bs: seq<Tcb>, name: nat): nat {
    Sum(bs, NamedHere(name))
  }

  lemma NamedUpdate(bs: seq<Tcb>, i: nat, b: Tcb, name: nat)
    requires i < |bs|
    ensures Named(bs[i := b], name) + NamedAt(bs[i], name) == Named(bs, name) + NamedAt(b, name)
  {
    SumUpdate(bs, i, b, NamedHere(name));
  }

  // What decreases

  /** Sums over the blocks. */
  function Sum(bs: seq<Tcb>, f: Tcb -> nat): nat {
    if bs == [] then 0 else Sum(bs[..|bs| - 1], f) + f(bs[|bs| - 1])
  }

  lemma {:induction false} SumUpdate(bs: seq<Tcb>, i: nat, b: Tcb, f: Tcb -> nat)
    requires i < |bs|
    ensures Sum(bs[i := b], f) + f(bs[i]) == Sum(bs, f) + f(b)
    decreases |bs|
  {
    var m := |bs| - 1;
    if i == m {
      assert bs[i := b][..m] == bs[..m];
    } else {
      SumUpdate(bs[..m], i, b, f);
      assert bs[i := b][..m] == bs[..m][i := b];
    }
  }

  lemma SumOfSix(a: Tcb, b: Tcb, c: Tcb, d: Tcb, e: Tcb, g: Tcb, f: Tcb -> nat)
    ensures Sum([] + [a] + [b] + [c] + [d] + [e] + [g], f) == f(a) + f(b) + f(c) + f(d) + f(e) + f(g)
  {
    Snoc([], a, f);
    Snoc([] + [a], b, f);
    Snoc([] + [a] + [b], c, f);
    Snoc([] + [a] + [b] + [c], d, f);
    Snoc([] + [a] + [b] + [c] + [d], e, f);
    Snoc([] + [a] + [b] + [c] + [d] + [e], g, f);
  }

  lemma Snoc(bs: seq<Tcb>, b: Tcb, f: Tcb -> nat)
    ensures Sum(bs + [b], f) == Sum(bs, f) + f(b)
  {
    assert (bs + [b])[..|bs|] == bs;
  }

  function HowMany(s: seq<Packet>, kind: Kind): nat {
    if s == [] then 0 else HowMany(s[..|s| - 1], kind) + if s[|s| - 1].kind == kind then 1 else 0
  }

  lemma {:induction false} HowManyFirst(s: seq<Packet>, kind: Kind)
    requires s != []
    ensures HowMany(s, kind) == HowMany(s[1..], kind) + if s[0].kind == kind then 1 else 0
    decreases |s|
  {
    var m := |s| - 1;
    if m > 0 {
      HowManyFirst(s[..m], kind);
      assert s[..m][1..] == s[1..][..m - 1];
    } else {
      assert s[1..] == [];
    }
  }

  lemma HowManyAdd(s: seq<Packet>, p: Packet, kind: Kind)
    ensures HowMany(s + [p], kind) == HowMany(s, kind) + if p.kind == kind then 1 else 0
  {
    assert (s + [p])[..|s|] == s;
  }

  /** Devices released with a packet to send. */
  function Released(b: Tcb): nat {
    if b.task.Device? && b.task.slot.Some? && !b.state.held then 1 else 0
  }

  /** How far device packets are from being held in a device. */
  function DeviceStages(b: Tcb): nat {
    match b.task
    case Handler(_, devices) => 3 * HowMany(b.queue, KindDevice) + 2 * |devices|
    case Device(_) => |b.queue|
    case _ => 0
  }

  /** How far work packets are from waiting for device packets. */
  function WorkStages(b: Tcb): nat {
    match b.task
    case Worker(_, _) => 2 * |b.queue|
    case Handler(work, _) => HowMany(b.queue, KindWork) + if work != [] && work[0].a1 >= DATA_SIZE then 3 else 0
    case _ => 0
  }

  function Awake(b: Tcb): nat {
    if b.state.suspended then 0 else 1
  }

  function IdleCount(bs: seq<Tcb>): nat {
    if bs != [] && bs[0].task.Idle? then bs[0].task.count else 0
  }

  /** The measure, but for the place in the list. */
  datatype Measure = Measure(idle: nat, released: nat, devices: nat, work: nat, awake: nat)

  function MeasureOf(bs: seq<Tcb>): Measure {
    Measure(IdleCount(bs), Sum(bs, Released), Sum(bs, DeviceStages), Sum(bs, WorkStages), Sum(bs, Awake))
  }

  predicate Below(m: Measure, n: Measure) {
    || m.idle < n.idle
    || (m.idle == n.idle && m.released < n.released)
    || (m.idle == n.idle && m.released == n.released && m.devices < n.devices)
    || (m.idle == n.idle && m.released == n.released && m.devices == n.devices && m.work < n.work)
    || (m.idle == n.idle && m.released == n.released && m.devices == n.devices && m.work == n.work && m.awake < n.awake)
  }

  /** One block changed. */
  lemma MeasureUpdate(bs: seq<Tcb>, i: nat, b: Tcb)
    requires i < |bs|
    ensures var m, n := MeasureOf(bs[i := b]), MeasureOf(bs);
      && m.released + Released(bs[i]) == n.released + Released(b)
      && m.devices + DeviceStages(bs[i]) == n.devices + DeviceStages(b)
      && m.work + WorkStages(bs[i]) == n.work + WorkStages(b)
      && m.awake + Awake(bs[i]) == n.awake + Awake(b)
      && (i > 0 ==> m.idle == n.idle)
  {
    SumUpdate(bs, i, b, Released);
    SumUpdate(bs, i, b, DeviceStages);
    SumUpdate(bs, i, b, WorkStages);
    SumUpdate(bs, i, b, Awake);
  }
}
