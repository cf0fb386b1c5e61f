/** Filling transmit batches from the CONTROL scheduler and the DATA ring
    (internal/wgadapter/shimtun/device.go). */
module Drain {
  import opened Wire
  import opened Ring
  import opened ControlSpec
  import opened ControlSchedulers
  import opened DataRings

  const BURST_LIMIT := 4

  /** One emitted payload; pending is the DATA left waiting at that moment. */
  datatype Emitted = Control(message: Descriptor, pending: nat) | Data(carrier: Carrier)

  /** How a CONTROL message is turned into bytes: its frame length, no room, or an error. */
  datatype Framed = Frame(length: nat) | NoRoom | Unframeable

  /** CONTROL emitted since the last DATA, given burst before the first entry. */
  function Burst(out: seq<Emitted>, n: nat, burst: nat): nat
    requires n <= |out|
  {
    if n == 0 then burst else if out[n - 1].Data? then 0 else Burst(out, n - 1, burst) + 1
  }

  /** While DATA waits, at most four CONTROL messages go first. */
  ghost predicate Yields(out: seq<Emitted>, burst: nat) {
    forall k {:trigger Burst(out, k, burst)} ::
        0 <= k < |out| && out[k].Control? && out[k].pending > 0 ==> Burst(out, k, burst) < 4
  }

  function DataUpTo(out: seq<Emitted>, n: nat): seq<Carrier>
    requires n <= |out|
  {
    if n == 0 then [] else DataUpTo(out, n - 1) + if out[n - 1].Data? then [out[n - 1].carrier] else []
  }

  function DataOf(out: seq<Emitted>): seq<Carrier> { DataUpTo(out, |out|) }

  lemma {:induction false} BurstSame(a: seq<Emitted>, b: seq<Emitted>, n: nat, burst: nat)
    requires n <= |a| && a <= b
    ensures Burst(b, n, burst) == Burst(a, n, burst) && DataUpTo(b, n) == DataUpTo(a, n)
  {
    if n > 0 { BurstSame(a, b, n - 1, burst); }
  }

  lemma EmitOne(out: seq<Emitted>, e: Emitted, burst: nat)
    requires Yields(out, burst) && (e.Control? && e.pending > 0 ==> Burst(out, |out|, burst) < BURST_LIMIT)
    ensures Yields(out + [e], burst)
    ensures Burst(out + [e], |out| + 1, burst) == if e.Data? then 0 else Burst(out, |out|, burst) + 1
    ensures DataOf(out + [e]) == DataOf(out) + if e.Data? then [e.carrier] else []
  {
    var out' := out + [e];
    forall k | 0 <= k < |out'| && out'[k].Control? && out'[k].pending > 0 ensures Burst(out', k, burst) < BURST_LIMIT {
      BurstSame(out, out', k, burst);
    }
    BurstSame(out, out', |out|, burst);
  }

  /** What became of one attempt to send. */
  datatype Attempt = Sent(message: Descriptor) | Skipped | Idle | TooShort

  /** One round of filling: a payload, another try, or the end. */
  datatype Round = Emit(e: Emitted) | Again | Stop(short: bool)

  class Device {
    const sched: ControlScheduler
    const ring: DataRing
    var controlBurst: nat
    var materializationDrops: nat

    ghost predicate Valid()
      reads this, sched, sched.descriptors, ring, ring.rows, ring.lens, ring.peers
    {
      && sched.Valid() && ring.Valid() && Apart()
    }

    ghost predicate Apart()
      reads ring`rows, ring`lens, ring`peers
    {
      var mine := {sched as object, sched.descriptors};
      ring !in mine && ring.rows !in mine && ring.lens !in mine && ring.peers !in mine
    }

    constructor (sched: ControlScheduler, ring: DataRing)
      requires sched.Valid() && ring.Valid()
      requires var mine := {sched as object, sched.descriptors};
               ring !in mine && ring.rows !in mine && ring.lens !in mine && ring.peers !in mine
      ensures Valid() && this.sched == sched && this.ring == ring && controlBurst == 0
    {
      this.sched, this.ring, controlBurst, materializationDrops := sched, ring, 0, 0;
    }

    /** Asks the scheduler for a message and frames it into room bytes. A message
        of an unknown peer or without a frame is discarded; one that does not fit
        stays queued and its tokens go back. */
    method TryControl(room: nat, now: int, known: PeerID -> bool, frame: (Descriptor, nat) -> Framed)
      returns (r: Attempt)
      requires Valid()
      modifies `materializationDrops, sched, sched.descriptors
      ensures Valid() && sched.count == old(sched.count) - (if r.Sent? || r.Skipped? then 1 else 0)
      ensures r.Sent? ==>
              exists k ::
              0 <= k < |old(sched.queue)| && old(sched.queue)[k] == r.message &&
              sched.queue == Without(old(sched.queue), k)
      ensures r.Idle? || r.TooShort? ==> sched.queue == old(sched.queue)
      ensures r.Sent? ==>
              known(r.message.peer) && frame(r.message, room).Frame? && frame(r.message, room).length <= room
    {
      var d, index, ok;
      ghost var k;
      d, index, ok, k := NextControl(now);
      if !ok { return Idle; }
      r := Transmit(d, index, k, room, known, frame);
    }

    method NextControl(now: int) returns (d: Descriptor, index: nat, ok: bool, ghost k: nat)
      requires Valid()
      modifies sched`rrIndex, sched`peerRate, sched`global
      ensures Valid() && (ok ==>
              k < |sched.queue| && sched.queue[k] == d && index == Slot(sched.head, k, sched.descriptors.Length))
    {
      ghost var rank;
      d, index, ok, rank := sched.Choose(now);
      k := if ok then First(sched.queue, OfPeer(sched.peerOrder[rank])) else 0;
    }

    /** Sends, discards or puts back the message at index, k places behind the head. */
    method Transmit(d: Descriptor, index: nat, ghost k: nat, room: nat, known: PeerID -> bool,
                    frame: (Descriptor, nat) -> Framed) returns (r: Attempt)
      requires Valid() && k < |sched.queue| && sched.queue[k] == d &&
               index == Slot(sched.head, k, sched.descriptors.Length)
      modifies `materializationDrops, sched, sched.descriptors
      ensures Valid() && !r.Idle? && (r.Sent? ==> r.message == d)
      ensures sched.queue == if r.TooShort? then old(sched.queue) else Without(old(sched.queue), k)
      ensures r.Sent? ==> known(d.peer) && frame(d, room).Frame? && frame(d, room).length <= room
    {
      var f := frame(d, room);
      if known(d.peer) && !f.Unframeable? && (f.NoRoom? || f.length > room) {
        sched.RefundTokens(d.peer);
        return TooShort;
      }
      var gone := sched.Pop(index, k);
      if !known(d.peer) { return Skipped; }
      if f.Unframeable? {
        materializationDrops := materializationDrops + 1;
        return Skipped;
      }
      r := Sent(d);
    }

    /** Hands out the oldest carrier if it fits. */
    method TryData(room: nat) returns (r: Option<Carrier>)
      requires Valid() && ring.queue != []
      modifies ring, ring.lens, ring.peers
      ensures Valid() && ring.rows == old(ring.rows) && ring.lens == old(ring.lens) && ring.peers == old(ring.peers)
      ensures r == if |old(ring.queue)[0].payload| > room then None else Some(old(ring.queue)[0])
      ensures ring.queue == if r.Some? then old(ring.queue)[1..] else old(ring.queue)
    {
      assert Slot(ring.head, 0, ring.rows.Length) == ring.head;
      if ring.lens[ring.head] > room { return None; }
      var c := ring.Dequeue();
      r := Some(c);
    }

    /** CONTROL first, but after four CONTROL in a row waiting DATA goes out. */
    method EmitNext(room: nat, now: int, known: PeerID -> bool, frame: (Descriptor, nat) -> Framed) returns (r: Round)
      requires Valid()
      modifies this, sched, sched.descriptors, ring, ring.lens, ring.peers
      ensures Valid() && ring.rows == old(ring.rows) && ring.lens == old(ring.lens) && ring.peers == old(ring.peers)
      ensures r.Emit? && r.e.Control? ==>
                ring.queue == old(ring.queue) && r.e.pending == |ring.queue| && controlBurst == old(controlBurst) + 1
                && (r.e.pending > 0 ==> old(controlBurst) < BURST_LIMIT)
      ensures r.Emit? && r.e.Data? ==> old(ring.queue) == [r.e.carrier] + ring.queue && controlBurst == 0
      ensures !r.Emit? ==> ring.queue == old(ring.queue) && controlBurst == old(controlBurst)
      ensures r.Again? ==> sched.count < old(sched.count)
      ensures r == Stop(false) ==> ring.queue == []
    {
      var a := Idle;
      if sched.count != 0 && (controlBurst < BURST_LIMIT || ring.count == 0) {
        a := TryControl(room, now, known, frame);
      }
      match a
      case TooShort => r := Stop(true);
      case Skipped => r := Again;
      case Sent(message) =>
        controlBurst := controlBurst + 1;
        r := Emit(Control(message, ring.count));
      case Idle =>
        if ring.count == 0 { return Stop(false); }
        var c := TryData(room);
        if c.None? { return Stop(true); }
        controlBurst := 0;
        r := Emit(Data(c.value));
    }

    /** Fills the buffers in order. The DATA sent is the front of the queue. */
    method DrainPayloads(rooms: seq<nat>, clock: nat -> int, known: PeerID -> bool, frame: (Descriptor, nat) -> Framed)
      returns (out: seq<Emitted>, short: bool)
      requires Valid()
      modifies this, sched, sched.descriptors, ring, ring.lens, ring.peers
      ensures Valid() && |out| <= |rooms|
      ensures Yields(out, old(controlBurst)) && controlBurst == Burst(out, |out|, old(controlBurst))
      ensures DataOf(out) + ring.queue == old(ring.queue)
      ensures |out| < |rooms| && !short ==> ring.queue == []
    {
      out, short := [], false;
      var ticks := 0;
      while |out| < |rooms|
        invariant Valid() && |out| <= |rooms| && ring.rows == old(ring.rows) && ring.lens == old(ring.lens) &&
                  ring.peers == old(ring.peers)
        invariant Yields(out, old(controlBurst)) && controlBurst == Burst(out, |out|, old(controlBurst))
        invariant DataOf(out) + ring.queue == old(ring.queue)
        decreases |rooms| - |out|, sched.count
      {
        var r := EmitNext(rooms[|out|], clock(ticks), known, frame);
        ticks := ticks + 1;
        if r.Stop? { return out, r.short; }
        if r.Emit? {
          EmitOne(out, r.e, old(controlBurst));
          out := out + [r.e];
        }
      }
    }
  }
}
