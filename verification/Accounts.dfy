/** Every packet that leaves the lanes of a receiver is accounted for once: it is
    handed to the sink, counted as one of the three drops, or lost to a failing or
    missing sink. */
module Accounts {
  import opened Wire
  import opened PoolSpec
  import opened Reorder
  import opened ReceiverSpec
  import opened Delivery

  // ----- what kind of packet it is

  datatype Kind = Fragmented | Broken | Spoofed | Wanted

  function KindOf(o: Policy, packet: Packet): Kind {
    var inner := o.parse(packet.data);
    if inner.NativeFragment? then Fragmented
    else if inner.Malformed? then Broken
    else if o.owns(inner.source) then Wanted
    else Spoofed
  }

  function Count(o: Policy, ps: seq<Packet>, kind: Kind): nat {
    if ps == [] then 0 else (if KindOf(o, ps[0]) == kind then 1 else 0) + Count(o, ps[1..], kind)
  }

  /** The inner packets to be handed over, in order. */
  function DataOf(o: Policy, ps: seq<Packet>): seq<seq<byte>> {
    if ps == [] then []
    else (if KindOf(o, ps[0]) == Wanted then [o.parse(ps[0].data).data] else []) + DataOf(o, ps[1..])
  }

  lemma {:induction false} KindsAddUp(o: Policy, ps: seq<Packet>)
    ensures |ps| == Count(o, ps, Fragmented) + Count(o, ps, Broken) + Count(o, ps, Spoofed) + Count(o, ps, Wanted)
    ensures |DataOf(o, ps)| == Count(o, ps, Wanted)
  {
    if ps != [] { KindsAddUp(o, ps[1..]); }
  }

  lemma {:induction false} CountAppend(o: Policy, a: seq<Packet>, b: seq<Packet>, kind: Kind)
    ensures Count(o, a + b, kind) == Count(o, a, kind) + Count(o, b, kind)
  {
    if a == [] {
      assert a + b == b;
    } else {
      CountAppend(o, a[1..], b, kind);
      assert (a + b)[1..] == a[1..] + b;
    }
  }

  lemma {:induction false} DataAppend(o: Policy, a: seq<Packet>, b: seq<Packet>)
    ensures DataOf(o, a + b) == DataOf(o, a) + DataOf(o, b)
  {
    if a == [] {
      assert a + b == b;
    } else {
      DataAppend(o, a[1..], b);
      assert (a + b)[1..] == a[1..] + b;
    }
  }

  // ----- one delivery

  /** One delivery hands over the wanted packets in order up to the first refusal
      of the sink, and then no more. */
  lemma {:induction false} HandsUpToRefusal(o: Policy, d: Desk, ps: seq<Packet>) returns (k: nat)
    ensures k <= |DataOf(o, ps)| && HandAll(o, d, ps).handed == d.handed + DataOf(o, ps)[..k]
    ensures d.failed || !o.hasSink ==>
            k == 0 && HandAll(o, d, ps).failed == d.failed && HandAll(o, d, ps).calls == d.calls
    ensures !d.failed && o.hasSink ==>
              var e := HandAll(o, d, ps);
              && (forall n {:trigger o.accepts(n)} :: d.calls <= n < d.calls + k ==> o.accepts(n))
              && (e.failed <==> k < |DataOf(o, ps)|) && (e.failed ==> !o.accepts(d.calls + k))
              && e.calls == d.calls + k + if e.failed then 1 else 0
    decreases |ps|
  {
    if ps == [] {
      k := 0;
    } else {
      var d' := HandOne(o, d, ps[0]);
      var rest := HandsUpToRefusal(o, d', ps[1..]);
      if KindOf(o, ps[0]) == Wanted && !d.failed && o.hasSink && o.accepts(d.calls) {
        k := rest + 1;
        assert DataOf(o, ps)[..k] == [o.parse(ps[0].data).data] + DataOf(o, ps[1..])[..rest];
      } else {
        k := rest;
      }
    }
  }

  /** The three counters grow by the number of packets of their kind. */
  lemma {:induction false} DropsAreCounted(o: Policy, d: Desk, ps: seq<Packet>)
    ensures var e := HandAll(o, d, ps);
            && e.drops.nativeFragment == d.drops.nativeFragment + Count(o, ps, Fragmented)
            && e.drops.innerInvalid == d.drops.innerInvalid + Count(o, ps, Broken)
            && e.drops.sourceSpoof == d.drops.sourceSpoof + Count(o, ps, Spoofed)
    decreases |ps|
  {
    if ps != [] { DropsAreCounted(o, HandOne(o, d, ps[0]), ps[1..]); }
  }

  // ----- accounts over several deliveries

  ghost predicate Accepting(o: Policy) {
    o.hasSink && forall n {:trigger o.accepts(n)} :: o.accepts(n)
  }

  /** How many of the sink's calls from a up to b it accepts. */
  function Accepted(o: Policy, a: nat, b: nat): nat
    requires a <= b
    decreases b
  {
    if a == b then 0 else Accepted(o, a, b - 1) + if o.accepts(b - 1) then 1 else 0
  }

  lemma {:induction false} AcceptedOn(o: Policy, a: nat, b: nat, c: nat)
    requires a <= b <= c
    ensures Accepted(o, a, c) == Accepted(o, a, b) + Accepted(o, b, c)
    decreases c
  {
    if b < c { AcceptedOn(o, a, b, c - 1); }
  }

  lemma {:induction false} AllAccepted(o: Policy, a: nat, b: nat)
    requires a <= b && forall n {:trigger o.accepts(n)} :: a <= n < b ==> o.accepts(n)
    ensures Accepted(o, a, b) == b - a
    decreases b
  {
    if a < b { AllAccepted(o, a, b - 1); }
  }

  /** Between desks d and e the packets ps were delivered: each drop is counted, the
      sink got one packet for each call that it accepted and was called at most once
      for each wanted one, and a sink that accepts every call got exactly the wanted
      ones, in order. */
  ghost predicate Settles(o: Policy, d: Desk, e: Desk, ps: seq<Packet>) {
    && e.drops.nativeFragment == d.drops.nativeFragment + Count(o, ps, Fragmented)
    && e.drops.innerInvalid == d.drops.innerInvalid + Count(o, ps, Broken)
    && e.drops.sourceSpoof == d.drops.sourceSpoof + Count(o, ps, Spoofed)
    && d.calls <= e.calls <= d.calls + Count(o, ps, Wanted)
    && |e.handed| == |d.handed| + Accepted(o, d.calls, e.calls)
    && (Accepting(o) && !d.failed ==> e.handed == d.handed + DataOf(o, ps) && !e.failed)
  }

  lemma HandSettles(o: Policy, d: Desk, ps: seq<Packet>)
    ensures Settles(o, d, HandAll(o, d, ps), ps)
  {
    DropsAreCounted(o, d, ps);
    KindsAddUp(o, ps);
    var k := HandsUpToRefusal(o, d, ps);
    if !d.failed && o.hasSink {
      AllAccepted(o, d.calls, d.calls + k);
      if HandAll(o, d, ps).failed { AcceptedOn(o, d.calls, d.calls + k, d.calls + k + 1); }
    }
  }

  lemma SettlesOn(o: Policy, d: Desk, e: Desk, f: Desk, a: seq<Packet>, b: seq<Packet>)
    requires Settles(o, d, e, a) && Settles(o, e, f, b)
    ensures Settles(o, d, f, a + b)
  {
    CountAppend(o, a, b, Fragmented);
    CountAppend(o, a, b, Broken);
    CountAppend(o, a, b, Spoofed);
    CountAppend(o, a, b, Wanted);
    DataAppend(o, a, b);
    AcceptedOn(o, d.calls, e.calls, f.calls);
    if Accepting(o) && !d.failed { Assoc(d.handed, DataOf(o, a), DataOf(o, b)); }
  }

  lemma SettlesNothing(o: Policy, d: Desk, failed: bool)
    requires !failed || d.failed
    ensures Settles(o, d, d.(failed := failed), [])
  {}

  // ----- over the turns of the lanes

  function LogPackets(log: seq<Logged>): (ps: seq<Packet>)
    ensures |ps| == |log| && forall i :: 0 <= i < |log| ==> ps[i] == log[i].at.packet
  {
    seq(|log|, i requires 0 <= i < |log| => log[i].at.packet)
  }

  /** From t to u the lanes sent out what the log has more, and all of it was delivered. */
  ghost predicate TurnSettles(o: Policy, t: Turn, u: Turn) {
    t.log <= u.log && Settles(o, t.desk, u.desk, LogPackets(u.log[|t.log|..]))
  }

  lemma TurnSettlesOn(o: Policy, t: Turn, u: Turn, v: Turn)
    requires TurnSettles(o, t, u) && TurnSettles(o, u, v)
    ensures TurnSettles(o, t, v)
  {
    var a, b := u.log[|t.log|..], v.log[|u.log|..];
    assert v.log[|t.log|..] == a + b;
    assert LogPackets(a + b) == LogPackets(a) + LogPackets(b);
    SettlesOn(o, t.desk, u.desk, v.desk, LogPackets(a), LogPackets(b));
  }

  lemma {:induction false} PacketsOfTag(i: nat, out: seq<Slotted>)
    ensures LogPackets(Tag(i, out)) == Packets(out)
  {
    if out != [] {
      PacketsOfTag(i, out[1..]);
      assert Tag(i, out)[1..] == Tag(i, out[1..]);
      forall k | 0 <= k < |out| ensures LogPackets(Tag(i, out))[k] == Packets(out)[k] {
        if k > 0 { assert LogPackets(Tag(i, out[1..]))[k - 1] == Packets(out[1..])[k - 1]; }
      }
    }
  }

  lemma ThenSettles(o: Policy, t: Turn, i: nat, m: Move)
    requires i < |t.queues|
    ensures TurnSettles(o, t, Then(o, t, i, m))
  {
    var u := Then(o, t, i, m);
    assert u.log[|t.log|..] == Tag(i, m.out);
    PacketsOfTag(i, m.out);
    HandSettles(o, t.desk, Packets(m.out));
  }

  lemma AgainSettles(o: Policy, t: Turn)
    ensures TurnSettles(o, t, Again(t))
  {
    assert LogPackets(t.log[|t.log|..]) == [];
    SettlesNothing(o, t.desk, false);
  }

  lemma SameSettles(o: Policy, t: Turn)
    ensures TurnSettles(o, t, t)
  {
    assert LogPackets(t.log[|t.log|..]) == [];
    SettlesNothing(o, t.desk, t.desk.failed);
  }

  lemma ArriveSettles(r: Rules, o: Policy, t: Turn, now: int, packet: Packet)
    requires r.enabled && packet.key.lane < |t.queues|
    ensures TurnSettles(o, t, ArriveTurn(r, o, t, now, packet))
  {
    var i, k := packet.key.lane, OldestOf(t.queues);
    if !OverBudget(r, t.queues, packet) {
      ThenSettles(o, t, i, AcceptQueue(r.capacity, t.queues[i], now, packet));
    } else if k == i {
      ThenSettles(o, t, i, FlushIncludingQueue(t.queues[i], packet));
    } else if k >= 0 {
      var u := Then(o, t, k, FlushQueue(t.queues[k]));
      ThenSettles(o, t, k, FlushQueue(t.queues[k]));
      if !u.desk.failed {
        ThenSettles(o, u, i, AcceptQueue(r.capacity, u.queues[i], now, packet));
        TurnSettlesOn(o, t, u, Then(o, u, i, AcceptQueue(r.capacity, u.queues[i], now, packet)));
      }
    } else {
      SameSettles(o, t);
    }
  }

  lemma TickOneSettles(r: Rules, o: Policy, t: Turn, now: int, i: nat)
    requires i < |t.queues|
    ensures TurnSettles(o, t, TickOne(r, o, t, now, i))
  {
    if t.desk.failed { SameSettles(o, t); } else { ThenSettles(o, t, i, TickQueue(t.queues[i], r.maxDelay, now)); }
  }

  lemma {:induction false} TickSettles(r: Rules, o: Policy, t: Turn, now: int, n: nat)
    requires n <= |t.queues|
    ensures TurnSettles(o, t, TickTurn(r, o, t, now, n))
  {
    if n == 0 {
      SameSettles(o, t);
    } else {
      TickSettles(r, o, t, now, n - 1);
      TickStepSettles(r, o, t, TickTurn(r, o, t, now, n - 1), now, n - 1);
    }
  }

  lemma TickStepSettles(r: Rules, o: Policy, t: Turn, u: Turn, now: int, i: nat)
    requires i < |u.queues| && TurnSettles(o, t, u)
    ensures TurnSettles(o, t, TickOne(r, o, u, now, i))
  {
    TickOneSettles(r, o, u, now, i);
    TurnSettlesOn(o, t, u, TickOne(r, o, u, now, i));
  }

  lemma TurnOfSettles(r: Rules, o: Policy, t: Turn, e: Event)
    requires r.enabled && (e.Arrival? ==> e.packet.key.lane < |t.queues|)
    ensures TurnSettles(o, t, TurnOf(r, o, t, e))
  {
    AgainSettles(o, t);
    match e {
      case Arrival(now, packet) => ArriveSettles(r, o, Again(t), now, packet);
      case Timer(now) => TickSettles(r, o, Again(t), now, |t.queues|);
    }
    TurnSettlesOn(o, t, Again(t), TurnOf(r, o, t, e));
  }

  /** Over every run of the receiver each packet that left a lane is accounted for
      once; with a sink that accepts every call, exactly the wanted packets were
      handed over, each once and in the order they left. */
  lemma {:induction false} EveryRunSettles(r: Rules, o: Policy, t: Turn, events: seq<Event>)
    requires r.enabled && ForLanes(events, |t.queues|)
    ensures TurnSettles(o, t, RunTurns(r, o, t, events))
    decreases |events|
  {
    if events == [] {
      SameSettles(o, t);
    } else {
      var n := |events| - 1;
      EveryRunSettles(r, o, t, events[..n]);
      var u := RunTurns(r, o, t, events[..n]);
      TurnOfSettles(r, o, u, events[n]);
      TurnSettlesOn(o, t, u, TurnOf(r, o, u, events[n]));
    }
  }

  // ----- without reordering

  function Arrived(events: seq<Event>): seq<Packet> {
    if events == [] then []
    else
      var n := |events| - 1;
      Arrived(events[..n]) + if events[n].Arrival? then [events[n].packet] else []
  }

  /** Without reordering each arriving packet is accounted for as it comes. */
  lemma {:induction false} EveryArrivalSettles(r: Rules, o: Policy, t: Turn, events: seq<Event>)
    requires !r.enabled && ForLanes(events, |t.queues|)
    ensures Settles(o, t.desk, RunTurns(r, o, t, events).desk, Arrived(events))
    decreases |events|
  {
    if events == [] {
      SettlesNothing(o, t.desk, t.desk.failed);
    } else {
      var n := |events| - 1;
      EveryArrivalSettles(r, o, t, events[..n]);
      var u, e := RunTurns(r, o, t, events[..n]), events[n];
      var last := if e.Arrival? then [e.packet] else [];
      SettlesNothing(o, u.desk, false);
      if e.Arrival? {
        HandSettles(o, Again(u).desk, [e.packet]);
        SettlesOn(o, u.desk, Again(u).desk, TurnOf(r, o, u, e).desk, [], last);
        assert [] + last == last;
      }
      SettlesOn(o, t.desk, u.desk, TurnOf(r, o, u, e).desk, Arrived(events[..n]), last);
    }
  }

  // ----- nothing is lost between arrival and departure

  /** How often x left the lanes between t and u. */
  function OccLeft(t: Turn, u: Turn, x: Packet): nat
    requires |t.log| <= |u.log|
  {
    Occ(LogPackets(u.log[|t.log|..]), x)
  }

  /** Between t and u the packets came came in and the packets lost were given up:
      for every x, what was held and what came is what left, what is held and
      what was given up. */
  ghost predicate Conserves(t: Turn, u: Turn, came: seq<Packet>, lost: seq<Packet>, x: Packet) {
    && |t.log| <= |u.log|
    && HeldOcc(t.queues, x) + Occ(came, x) == OccLeft(t, u, x) + HeldOcc(u.queues, x) + Occ(lost, x)
  }

  lemma ConservesOn(o: Policy, t: Turn, u: Turn, v: Turn, a: seq<Packet>, b: seq<Packet>, la: seq<Packet>,
                    lb: seq<Packet>,
                    x: Packet)
    requires t.log <= u.log <= v.log && Conserves(t, u, a, la, x) && Conserves(u, v, b, lb, x)
    ensures Conserves(t, v, a + b, la + lb, x)
  {
    var l, m := u.log[|t.log|..], v.log[|u.log|..];
    assert v.log[|t.log|..] == l + m;
    assert LogPackets(l + m) == LogPackets(l) + LogPackets(m);
    OccAppend(LogPackets(l), LogPackets(m), x);
    OccAppend(a, b, x);
    OccAppend(la, lb, x);
  }

  lemma ThenConserves(r: Rules, o: Policy, t: Turn, i: nat, op: QueueOp, x: Packet)
    requires LanesOk(t.queues, r.capacity) && i < |t.queues| && 0 < r.capacity < HALF
    ensures var q := t.queues[i];
            Conserves(t, Then(o, t, i, Moves(r.capacity, r.maxDelay, q, op)), BroughtBy(op),
                      Lost(r.capacity, r.maxDelay, q, op), x)
  {
    var q := t.queues[i];
    assert QueueOk(q, r.capacity);
    var m := Moves(r.capacity, r.maxDelay, q, op);
    var u := Then(o, t, i, m);
    MoveConserves(r.capacity, r.maxDelay, q, op, x);
    HeldUpdate(t.queues, i, m.queue, x);
    assert u.log[|t.log|..] == Tag(i, m.out);
    PacketsOfTag(i, m.out);
    OccPackets(m.out, x);
  }

  /** What an arrival gives up: a late or repeated packet, or one that the lanes
      had to make room for when the sink failed. */
  ghost function GivenUp(r: Rules, o: Policy, t: Turn, now: int, packet: Packet): seq<Packet>
    requires packet.key.lane < |t.queues|
  {
    var i, k := packet.key.lane, OldestOf(t.queues);
    if !OverBudget(r, t.queues, packet) then Dropped(AcceptQueue(r.capacity, t.queues[i], now, packet), packet)
    else if k < 0 then [packet]
    else if k == i then []
    else
      var u := Then(o, t, k, FlushQueue(t.queues[k]));
      if u.desk.failed then [packet] else Dropped(AcceptQueue(r.capacity, u.queues[i], now, packet), packet)
  }

  lemma ArriveConserves(r: Rules, o: Policy, t: Turn, now: int, packet: Packet, x: Packet)
    requires r.enabled && 0 < r.capacity < HALF && LanesOk(t.queues, r.capacity) && packet.key.lane < |t.queues|
    ensures Conserves(t, ArriveTurn(r, o, t, now, packet), [packet], GivenUp(r, o, t, now, packet), x)
  {
    var i, k := packet.key.lane, OldestOf(t.queues);
    if !OverBudget(r, t.queues, packet) {
      ThenConserves(r, o, t, i, Arrive(now, packet), x);
    } else if k == i {
      ThenConserves(r, o, t, i, FlushWith(packet), x);
    } else if k >= 0 {
      RoomConserves(r, o, t, now, packet, x);
    } else {
      assert LogPackets(t.log[|t.log|..]) == [];
    }
  }

  lemma RoomConserves(r: Rules, o: Policy, t: Turn, now: int, packet: Packet, x: Packet)
    requires r.enabled && 0 < r.capacity < HALF && LanesOk(t.queues, r.capacity) && packet.key.lane < |t.queues|
    requires OverBudget(r, t.queues, packet) && OldestOf(t.queues) >= 0 && OldestOf(t.queues) != packet.key.lane
    ensures Conserves(t, ArriveTurn(r, o, t, now, packet), [packet], GivenUp(r, o, t, now, packet), x)
  {
    var i, k := packet.key.lane, OldestOf(t.queues);
    var u := Then(o, t, k, FlushQueue(t.queues[k]));
    ThenConserves(r, o, t, k, FlushAll, x);
    if !u.desk.failed {
      assert QueueOk(t.queues[k], r.capacity);
      MoveKeeps(r.capacity, r.maxDelay, t.queues[k], FlushAll);
      SetKeepsLanes(t.queues, k, FlushQueue(t.queues[k]).queue, r.capacity);
      ThenGrows(o, t, k, FlushQueue(t.queues[k]));
      AfterRoomConserves(r, o, t, u, now, packet, x);
    }
  }

  lemma AfterRoomConserves(r: Rules, o: Policy, t: Turn, u: Turn, now: int, packet: Packet, x: Packet)
    requires LanesOk(u.queues, r.capacity) && 0 < r.capacity < HALF && packet.key.lane < |u.queues|
    requires t.log <= u.log && Conserves(t, u, [], [], x)
    ensures var m := AcceptQueue(r.capacity, u.queues[packet.key.lane], now, packet);
            Conserves(t, Then(o, u, packet.key.lane, m), [packet], Dropped(m, packet), x)
  {
    var i := packet.key.lane;
    var m := AcceptQueue(r.capacity, u.queues[i], now, packet);
    ThenConserves(r, o, u, i, Arrive(now, packet), x);
    ThenGrows(o, u, i, m);
    ConservesOn(o, t, u, Then(o, u, i, m), [], [packet], [], Dropped(m, packet), x);
    assert [] + [packet] == [packet] && [] + Dropped(m, packet) == Dropped(m, packet);
  }

  lemma {:induction false} TickConserves(r: Rules, o: Policy, t: Turn, now: int, n: nat, x: Packet)
    requires TurnOk(r, o, t) && 0 < r.capacity < HALF && n <= |t.queues|
    ensures Conserves(t, TickTurn(r, o, t, now, n), [], [], x)
  {
    if n == 0 {
      assert LogPackets(t.log[|t.log|..]) == [];
    } else {
      TickConserves(r, o, t, now, n - 1, x);
      TickKeeps(r, o, t, now, n - 1);
      TickGrows(r, o, t, now, n - 1);
      TickStepConserves(r, o, t, TickTurn(r, o, t, now, n - 1), now, n - 1, x);
    }
  }

  lemma TickStepConserves(r: Rules, o: Policy, t: Turn, u: Turn, now: int, i: nat, x: Packet)
    requires LanesOk(u.queues, r.capacity) && 0 < r.capacity < HALF && i < |u.queues| && t.log <= u.log
    requires Conserves(t, u, [], [], x)
    ensures Conserves(t, TickOne(r, o, u, now, i), [], [], x)
  {
    TickOneConserves(r, o, u, now, i, x);
    ThenGrows(o, u, i, TickQueue(u.queues[i], r.maxDelay, now));
    ConservesOn(o, t, u, TickOne(r, o, u, now, i), [], [], [], [], x);
  }

  lemma TickOneConserves(r: Rules, o: Policy, t: Turn, now: int, i: nat, x: Packet)
    requires LanesOk(t.queues, r.capacity) && 0 < r.capacity < HALF && i < |t.queues|
    ensures Conserves(t, TickOne(r, o, t, now, i), [], [], x)
  {
    if t.desk.failed {
      assert LogPackets(t.log[|t.log|..]) == [];
    } else {
      ThenConserves(r, o, t, i, TickAt(now), x);
    }
  }

  /** What a run gives up. */
  ghost function AllGivenUp(r: Rules, o: Policy, t: Turn, events: seq<Event>): seq<Packet>
    requires ForLanes(events, |t.queues|)
    decreases |events|
  {
    if events == [] then []
    else
      var n := |events| - 1;
      var u := RunTurns(r, o, t, events[..n]);
      AllGivenUp(r, o, t, events[..n])
      + if events[n].Arrival? then GivenUp(r, o, Again(u), events[n].now, events[n].packet) else []
  }

  /** Over every run each packet that arrived has left its lane, still waits in it,
      or was given up, as often as it came. */
  lemma {:induction false} EveryRunConserves(r: Rules, o: Policy, t: Turn, events: seq<Event>, x: Packet)
    requires r.enabled && 0 < r.capacity < HALF && TurnOk(r, o, t) && ForLanes(events, |t.queues|)
    ensures Conserves(t, RunTurns(r, o, t, events), Arrived(events), AllGivenUp(r, o, t, events), x)
    decreases |events|
  {
    if events == [] {
      assert LogPackets(t.log[|t.log|..]) == [];
    } else {
      var n := |events| - 1;
      EveryRunConserves(r, o, t, events[..n], x);
      EveryRunIsInOrder(r, o, t, events[..n]);
      var u, e := RunTurns(r, o, t, events[..n]), events[n];
      var v := TurnOf(r, o, u, e);
      var came := if e.Arrival? then [e.packet] else [];
      var lost := if e.Arrival? then GivenUp(r, o, Again(u), e.now, e.packet) else [];
      TurnConserves(r, o, u, e, came, lost, x);
      TurnsGrow(r, o, t, events[..n]);
      OneTurnGrows(r, o, u, e);
      ConservesOn(o, t, u, v, Arrived(events[..n]), came, AllGivenUp(r, o, t, events[..n]), lost, x);
    }
  }

  lemma OneTurnGrows(r: Rules, o: Policy, t: Turn, e: Event)
    requires e.Arrival? ==> e.packet.key.lane < |t.queues|
    ensures t.log <= TurnOf(r, o, t, e).log
  {
    match e
    case Arrival(now, packet) => ArriveGrows(r, o, Again(t), now, packet);
    case Timer(now) => TickGrows(r, o, Again(t), now, |t.queues|);
  }

  lemma TurnConserves(r: Rules, o: Policy, t: Turn, e: Event, came: seq<Packet>, lost: seq<Packet>, x: Packet)
    requires r.enabled && 0 < r.capacity < HALF && TurnOk(r, o, t) && (e.Arrival? ==> e.packet.key.lane < |t.queues|)
    requires came == if e.Arrival? then [e.packet] else []
    requires lost == if e.Arrival? then GivenUp(r, o, Again(t), e.now, e.packet) else []
    ensures Conserves(t, TurnOf(r, o, t, e), came, lost, x)
  {
    match e
    case Arrival(now, packet) => ArriveConserves(r, o, Again(t), now, packet, x);
    case Timer(now) => TickConserves(r, o, Again(t), now, |t.queues|, x);
  }
}
