/**
  A worklist of jni/v8core/v8/benchmarks/richards.js as its packets are linked in memory, for the
  sequences that stand for worklists elsewhere.
*/
module RichardsLinks {

  class Packet {
    var link: Packet?
    var id: int
    const kind: int

    constructor (link: Packet?, id: int, kind: int)
      ensures this.link == link && this.id == id && this.kind == kind
    {
      this.link, this.id, this.kind := link, id, kind;
    }

    /** `addTo`: this packet at the end of the worklist. */
    method AddTo(queue: Packet?, ghost s: seq<Packet>) returns (r: Packet)
      requires Worklist(queue, s) && this !in s
      modifies this`link, if s == [] then {} else {s[|s| - 1]}
      ensures Worklist(r, s + [this])
      ensures s != [] ==> r == queue
    {
      link := null;
      assert forall i :: 0 <= i < |s| ==> s[i] in s;
      if queue == null {
        return this;
      }
      var next := queue;
      ghost var i: nat := 0;
      while next.link != null
        invariant Worklist(queue, s) && i < |s| && next == s[i]
        decreases |s| - i
      {
        assert next.link == Next(s, i);
        next := next.link;
        i := i + 1;
      }
      assert next.link == Next(s, i);
      ghost var t := s + [this];
      next.link := this;
      forall k: nat | k < |t| ensures t[k].link == Next(t, k) {
        if k < |s| { assert k != i ==> s[k].link == Next(s, k); }
      }
      r := queue;
    }
  }

  function Next(s: seq<Packet>, i: nat): Packet?
  {
    if i + 1 < |s| then s[i + 1] else null
  }

  /** Linked from q, the packets are s, each once. */
  ghost predicate Worklist(q: Packet?, s: seq<Packet>)
    reads s
  {
    && q == (if s == [] then null else s[0])
    && (forall i: nat {:trigger Next(s, i)} :: i < |s| ==> s[i].link == Next(s, i))
    && (forall i, j :: 0 <= i < j < |s| ==> s[i] != s[j])
  }

  /** packet = this.queue; this.queue = packet.link: the first packet taken off. */
  method TakeFirst(queue: Packet, ghost s: seq<Packet>) returns (packet: Packet, rest: Packet?)
    requires Worklist(queue, s)
    ensures s != [] && packet == s[0] && Worklist(rest, s[1..])
  {
    packet := queue;
    rest := packet.link;
    assert rest == Next(s, 0);
    forall i: nat | i < |s[1..]| ensures s[1..][i].link == Next(s[1..], i) {
      assert s[i + 1].link == Next(s, i + 1);
    }
  }
}
