/** The inbound DATA pipeline (internal/core/datapath/receiver.go): reassembly, then
    256 reorder lanes under one budget, then source check and delivery. */
module Receivers {
  import opened Wire
  import opened PoolSpec
  import opened PoolTheorems
  import opened Reassembly
  import opened Reorder
  import opened Reorderers
  import opened ReceiverSpec
  import opened Delivery
  import opened Accounts

  datatype ReceiverConfig = ReceiverConfig(
    session: u16, pool: Config, reorderEnabled: bool, capacity: nat, budget: int, maxDelay: int)

  predicate ReceiverConfigOk(c: ReceiverConfig) {
    && c.session != 0 && ConfigOk(c.pool) && c.pool.maxPeers == 1
    && (c.reorderEnabled ==> 0 < c.capacity < HALF && c.maxDelay > 0 && 0 < c.budget < c.pool.slots)
  }

  datatype ReceiveError =
    | WireFailed(wire: WireError)
    | WrongSession
    | ReassemblyFailed(reason: ReassemblyError)
    | SinkFailed

  const OUT_OF_SLOTS := {Some(ReassemblyFailed(PeerQuota)), Some(ReassemblyFailed(NoSlot))}

  /** The records before rest have been visited; a wire error is that of rest. */
  ghost predicate Visited(payload: seq<byte>, visited: seq<Record>, rest: seq<byte>, err: Option<ReceiveError>) {
    && Visiting(payload, visited, rest)
    && (err.Some? ==>
         if err.value.WireFailed? then rest != [] && DecodeRecord(rest) == Err(err.value.wire) else visited != [])
  }

  /** The records are those of the payload; a wire error is the parser's. */
  ghost predicate Reports(payload: seq<byte>, visited: seq<Record>, err: Option<ReceiveError>) {
    && AllValid(visited) && EncodeAll(visited) <= payload
    && (err.None? ==> ParseAll(payload) == Ok(visited))
    && (err.Some? && err.value.WireFailed? ==> ParseAll(payload) == Err(err.value.wire))
    && (err.Some? && !err.value.WireFailed? ==> visited != [])
  }

  lemma ReportsAll(payload: seq<byte>, visited: seq<Record>, rest: seq<byte>, err: Option<ReceiveError>)
    requires if payload == [] then visited == [] && err == Some(WireFailed(HeaderTooShort))
             else Visited(payload, visited, rest, err) && (rest == [] || err.Some?)
    ensures Reports(payload, visited, err)
  {
    if payload != [] {
      if err.None? {
        assert EncodeAll(visited) == payload;
        ParseRestEncode(visited);
      } else if err.value.WireFailed? {
        ParseRestFails(visited, rest);
      }
    }
  }

  function LaneConfigOf(c: ReceiverConfig, i: nat): LaneConfig
    requires i < LANES
  {
    LaneConfig(c.reorderEnabled, c.capacity, c.maxDelay, Lane(0, c.session, i))
  }

  ghost predicate FreshLane(c: ReceiverConfig, i: nat, lane: Reorderer)
    requires i < LANES
    reads lane, lane.entries
  {
    lane.Valid() && lane.config == LaneConfigOf(c, i) && lane.Abs() == Queue(0, map[], None)
  }

  ghost predicate Distinct(lanes: seq<Reorderer>) {
    forall i, j :: 0 <= i < j < |lanes| ==> lanes[i] != lanes[j] && lanes[i].entries != lanes[j].entries
  }

  method MakeLanes(c: ReceiverConfig) returns (lanes: seq<Reorderer>)
    requires ReceiverConfigOk(c)
    ensures |lanes| == LANES && Distinct(lanes)
    ensures forall i {:trigger FreshLane(c, i, lanes[i])} :: 0 <= i < LANES ==> FreshLane(c, i, lanes[i])
    ensures forall i {:trigger lanes[i]} ::
            0 <= i < LANES ==> fresh(lanes[i]) && fresh(lanes[i].entries) && lanes[i].config == LaneConfigOf(c, i)
  {
    lanes := [];
    while |lanes| < LANES
      invariant |lanes| <= LANES && Distinct(lanes)
      invariant forall i {:trigger FreshLane(c, i, lanes[i])} :: 0 <= i < |lanes| ==> FreshLane(c, i, lanes[i])
      invariant forall i {:trigger lanes[i]} ::
                0 <= i < |lanes| ==> fresh(lanes[i]) && fresh(lanes[i].entries) && lanes[i].config == LaneConfigOf(c, i)
    {
      var lane := new Reorderer(LaneConfigOf(c, |lanes|), 0);
      lanes := lanes + [lane];
    }
  }

  class Receiver {
    const config: ReceiverConfig
    const reassembly: Reassembler
    const reorders: seq<Reorderer>
    /** innerip.ParseExact, the longest-prefix source check for this peer, and
        the sink's answer to its n-th call. */
    const parse: seq<byte> -> Inner
    const owns: seq<byte> -> bool
    const accepts: nat -> bool
    var reorderHeld: int
    var reorderDeadline: Option<int>
    var drops: Drops
    var unknownSession: u16
    var sinkCalls: nat
    var handed: seq<seq<byte>>
    /** Every record that reached this receiver. */
    ghost var seen: seq<Record>
    /** The lanes' queues by position. */
    ghost var queues: seq<Queue>
    /** Every packet that left a lane, in that order. */
    ghost var log: seq<Logged>

    ghost function PoolParts(): set<object> {
      {reassembly, reassembly.slots, reassembly.freeNext, reassembly.peerCounts, reassembly.keySlots}
    }

    ghost function LaneParts(): (s: set<object>)
      ensures forall i {:trigger reorders[i]} :: 0 <= i < |reorders| ==> reorders[i] in s && reorders[i].entries in s
    {
      (set i | 0 <= i < |reorders| :: reorders[i] as object) + (set i | 0 <= i < |reorders| ::
          reorders[i].entries as object)
    }

    ghost predicate Apart() {
      && ReceiverConfigOk(config) && |reorders| == LANES && reassembly.config == config.pool
      && Distinct(reorders) &&
           (forall i {:trigger reorders[i]} :: 0 <= i < LANES ==> reorders[i].config == LaneConfigOf(config, i))
      && (forall i {:trigger reorders[i]} ::
           0 <= i < LANES ==> reorders[i] !in PoolParts() && reorders[i].entries !in PoolParts())
      && this !in PoolParts()
    }

    ghost predicate LaneOk(i: nat)
      requires i < |reorders|
      reads this`queues, reorders[i], reorders[i].entries
    {
      i < |queues| && reorders[i].Valid() && queues[i] == reorders[i].Abs()
    }

    ghost function Capacity(): nat {
      if config.reorderEnabled then config.capacity else 0
    }

    /** Every lane is well-formed and mirrored in queues. */
    ghost predicate Lanes()
      reads this`queues, LaneParts()
    {
      && Apart() && |queues| == LANES && LanesOk(queues, Capacity())
      && (forall i {:trigger LaneOk(i)} :: 0 <= i < LANES ==> LaneOk(i))
    }

    /** The parts are well-formed and balanced; flight are the packets on their way out. */
    ghost predicate Parts(flight: seq<Packet>)
      reads this`queues, PoolParts(), LaneParts()
    {
      && Lanes() && reassembly.Valid() && Inv(config.pool, reassembly.Abs())
      && Balanced(reassembly.Abs(), queues, flight)
    }

    /** As Parts, which proofs see only through Opens and Seals. */
    ghost predicate Sound(flight: seq<Packet>)
      reads this`queues, PoolParts(), LaneParts()
    {
      && ReceiverConfigOk(config) && |reorders| == |queues| == LANES
      && forall k {:trigger Look(k)} :: Look(k) ==> Parts(flight)
    }

    lemma Opens(flight: seq<Packet>)
      requires Sound(flight)
      ensures Parts(flight)
    {
      assert Look(0);
    }

    lemma OpensLanes(flight: seq<Packet>)
      requires Sound(flight)
      ensures Lanes()
    {
      assert Look(0);
    }

    lemma Seals(flight: seq<Packet>)
      requires Parts(flight)
      ensures Sound(flight)
    {}

    ghost predicate Ready(flight: seq<Packet>)
      reads this`queues, this`reorderHeld, PoolParts(), LaneParts()
    {
      Sound(flight) && reorderHeld == HeldCount(queues)
    }

    ghost predicate OnTime()
      reads this`queues, this`reorderDeadline
    {
      reorderDeadline == Earliest(queues, config.maxDelay)
    }

    ghost predicate Valid()
      reads this, PoolParts(), LaneParts()
    {
      Ready([]) && OnTime() && (config.reorderEnabled ==> reorderHeld <= config.budget)
    }

    constructor (config: ReceiverConfig, hash: Key -> nat, parse: seq<byte> -> Inner, owns: seq<byte> -> bool,
                 accepts: nat -> bool)
      requires ReceiverConfigOk(config)
      ensures Valid() && Ordered() && this.config == config && reorderHeld == 0 && handed == []
    {
      this.config, this.parse, this.owns, this.accepts := config, parse, owns, accepts;
      var pool := new Reassembler(config.pool, hash);
      var lanes := MakeLanes(config);
      reassembly, reorders := pool, lanes;
      reorderHeld, reorderDeadline, drops, unknownSession := 0, None, Drops(0, 0, 0), 0;
      sinkCalls, handed, seen, log := 0, [], [], [];
      queues := seq(LANES, i => Queue(0, map[], None));
      new;
      assert Apart();
      forall i | 0 <= i < LANES ensures FreshLane(config, i, reorders[i]) { assert FreshLane(config, i, lanes[i]); }
      FreshIsValid();
      FreshIsOrdered();
    }

    lemma FreshIsOrdered()
      requires LanesOk(queues, Capacity()) && handed == [] && log == []
      ensures Ordered()
    {
      var none: seq<nat> := [];
      assert Picks(PolicyOf(true), handed, log, none);
    }

    lemma FreshIsValid()
      requires Apart() && reassembly.Valid() && reassembly.Abs() == Fresh(config.pool)
      requires forall i {:trigger FreshLane(config, i, reorders[i])} ::
               0 <= i < LANES ==> FreshLane(config, i, reorders[i])
      requires |queues| == LANES && (forall i :: 0 <= i < LANES ==> queues[i] == Queue(0, map[], None))
      requires reorderHeld == 0 && reorderDeadline == None
      ensures Valid()
    {
      FreshIsInv(config.pool);
      FreshAccounts(config.pool, queues, config.maxDelay);
      forall i | 0 <= i < LANES ensures LaneOk(i) { assert FreshLane(config, i, reorders[i]); }
      Seals([]);
    }

    // ----- the parts

    method PoolAccept(now: int, key: Key, r: Record) returns (out: Outcome)
      requires Ready([])
      modifies PoolParts()
      ensures if out.Done? && out.status.Completed? then Ready([out.status.packet]) && out.status.packet.key == key
              else Ready([])
      ensures old(Inv(config.pool, reassembly.Abs())) &&
              out == PoolSpec.Accept(config.pool, old(reassembly.Abs()), now, key, r).outcome
    {
      Opens([]);
      AcceptBalances(config.pool, reassembly.Abs(), queues, now, key, r);
      out := reassembly.Accept(now, key, r);
      Seals(if out.Done? && out.status.Completed? then [out.status.packet] else []);
    }

    /** Releases the first packet on its way out; this never fails. */
    method PoolRelease(ghost flight: seq<Packet>, y: Packet)
      requires Sound(flight) && flight != [] && y == flight[0]
      modifies PoolParts()
      ensures Sound(flight[1..])
    {
      Opens(flight);
      ReleaseBalances(config.pool, reassembly.Abs(), queues, flight);
      var err := reassembly.Release(y.handle);
      assert err.None?;
      Seals(flight[1..]);
    }

    /** Lane i alone has changed: its queue is mirrored again. */
    method Mirror(i: nat)
      requires Apart() && |queues| == LANES && i < LANES && LanesOk(queues, Capacity())
      requires reorders[i].Valid() && forall j :: 0 <= j < LANES && j != i ==> LaneOk(j)
      modifies `queues
      ensures Lanes() && queues == old(queues)[i := reorders[i].Abs()]
    {
      SetKeepsLanes(queues, i, reorders[i].Abs(), Capacity());
      queues := queues[i := reorders[i].Abs()];
      forall j | 0 <= j < LANES ensures LaneOk(j) { assert j != i ==> old(LaneOk(j)); }
    }

    method RawAccept(i: nat, now: int, packet: Packet) returns (fate: Fate, out: seq<Packet>)
      requires Lanes() && config.reorderEnabled && i < LANES &&
               packet.key == Key(0, config.session, i, packet.key.sequence)
      modifies this`queues, reorders[i], reorders[i].entries
      ensures Lanes() && queues == old(queues)[i := AcceptQueue(Capacity(), old(queues[i]), now, packet).queue]
      ensures fate == AcceptQueue(Capacity(), old(queues[i]), now, packet).fate
      ensures out == Packets(AcceptQueue(Capacity(), old(queues[i]), now, packet).out)
    {
      assert LaneOk(i);
      var err;
      err, fate, out := reorders[i].Accept(now, packet, config.capacity + 1);
      assert err.None?;
      forall j | 0 <= j < LANES && j != i ensures LaneOk(j) { assert old(LaneOk(j)); }
      Mirror(i);
    }

    method RawFlush(i: nat) returns (out: seq<Packet>)
      requires Lanes() && config.reorderEnabled && i < LANES
      modifies this`queues, reorders[i], reorders[i].entries
      ensures Lanes() && queues == old(queues)[i := FlushQueue(old(queues[i])).queue]
      ensures out == Packets(FlushQueue(old(queues[i])).out)
    {
      assert LaneOk(i);
      var err;
      err, out := reorders[i].Flush(config.capacity + 1);
      assert err.None?;
      forall j | 0 <= j < LANES && j != i ensures LaneOk(j) { assert old(LaneOk(j)); }
      Mirror(i);
    }

    method RawTick(i: nat, now: int) returns (out: seq<Packet>)
      requires Lanes() && config.reorderEnabled && i < LANES
      modifies this`queues, reorders[i], reorders[i].entries
      ensures Lanes() && queues == old(queues)[i := TickQueue(old(queues[i]), config.maxDelay, now).queue]
      ensures out == Packets(TickQueue(old(queues[i]), config.maxDelay, now).out)
    {
      assert LaneOk(i);
      var err;
      err, out := reorders[i].Tick(now, config.capacity + 1);
      assert err.None?;
      forall j | 0 <= j < LANES && j != i ensures LaneOk(j) { assert old(LaneOk(j)); }
      Mirror(i);
    }

    method RawFlushWith(i: nat, packet: Packet) returns (out: seq<Packet>)
      requires Lanes() && config.reorderEnabled && i < LANES &&
               packet.key == Key(0, config.session, i, packet.key.sequence)
      modifies this`queues, reorders[i], reorders[i].entries
      ensures Lanes() && queues == old(queues)[i := FlushIncludingQueue(old(queues[i]), packet).queue]
      ensures out == Packets(FlushIncludingQueue(old(queues[i]), packet).out)
    {
      assert LaneOk(i);
      var err;
      err, out := reorders[i].FlushIncluding(packet, config.capacity + 1);
      assert err.None?;
      forall j | 0 <= j < LANES && j != i ensures LaneOk(j) { assert old(LaneOk(j)); }
      Mirror(i);
    }

    method LaneAccept(i: nat, now: int, packet: Packet) returns (fate: Fate, out: seq<Packet>)
      requires Sound([packet]) && config.reorderEnabled && i < LANES &&
               packet.key == Key(0, config.session, i, packet.key.sequence)
      modifies this`queues, reorders[i], reorders[i].entries
      ensures fate == AcceptQueue(Capacity(), old(queues[i]), now, packet).fate
      ensures out == Packets(AcceptQueue(Capacity(), old(queues[i]), now, packet).out)
      ensures queues == old(queues)[i := AcceptQueue(Capacity(), old(queues[i]), now, packet).queue]
      ensures Sound(out + if fate.Late? || fate.Repeated? then [packet] else [])
    {
      Opens([packet]);
      assert QueueOk(queues[i], Capacity());
      ArriveBalances(reassembly.Abs(), queues, i, Capacity(), now, packet);
      fate, out := RawAccept(i, now, packet);
      Seals(out + if fate.Late? || fate.Repeated? then [packet] else []);
    }

    method LaneFlush(i: nat, ghost flight: seq<Packet>) returns (out: seq<Packet>)
      requires Sound(flight) && config.reorderEnabled && i < LANES
      modifies this`queues, reorders[i], reorders[i].entries
      ensures out == Packets(FlushQueue(old(queues[i])).out) &&
              queues == old(queues)[i := FlushQueue(old(queues[i])).queue]
      ensures Sound(out + flight) && HeldCount(queues) + |out| == old(HeldCount(queues))
    {
      Opens(flight);
      assert QueueOk(queues[i], Capacity());
      FlushBalances(reassembly.Abs(), queues, i, Capacity(), flight);
      out := RawFlush(i);
      Seals(out + flight);
    }

    method LaneTick(i: nat, now: int) returns (out: seq<Packet>)
      requires Sound([]) && config.reorderEnabled && i < LANES
      modifies this`queues, reorders[i], reorders[i].entries
      ensures out == Packets(TickQueue(old(queues[i]), config.maxDelay, now).out)
      ensures queues == old(queues)[i := TickQueue(old(queues[i]), config.maxDelay, now).queue]
      ensures Sound(out) && HeldCount(queues) + |out| == old(HeldCount(queues))
    {
      Opens([]);
      assert QueueOk(queues[i], Capacity());
      FlushBalances(reassembly.Abs(), queues, i, Capacity(), []);
      assert Packets(FlushQueue(queues[i]).out) + [] == Packets(FlushQueue(queues[i]).out);
      assert queues[i := queues[i]] == queues;
      out := RawTick(i, now);
      Seals(out);
    }

    method LaneFlushWith(i: nat, packet: Packet) returns (out: seq<Packet>)
      requires Sound([packet]) && config.reorderEnabled && i < LANES &&
               packet.key == Key(0, config.session, i, packet.key.sequence)
      modifies this`queues, reorders[i], reorders[i].entries
      ensures out == Packets(FlushIncludingQueue(old(queues[i]), packet).out)
      ensures queues == old(queues)[i := FlushIncludingQueue(old(queues[i]), packet).queue]
      ensures Sound(out) && |out| > 0 && HeldCount(queues) + |out| == old(HeldCount(queues)) + 1
    {
      Opens([packet]);
      assert QueueOk(queues[i], Capacity());
      FlushWithBalances(reassembly.Abs(), queues, i, Capacity(), packet);
      out := RawFlushWith(i, packet);
      Seals(out);
    }

    // ----- delivery and deadlines

    function PolicyOf(hasSink: bool): Policy {
      Policy(parse, owns, accepts, hasSink)
    }

    /** Hands every packet to the sink, or drops it, and releases its slot. A
        failing sink is not called again, but no slot leaks. */
    method Deliver(ps: seq<Packet>, hasSink: bool, ghost rest: seq<Packet>) returns (failed: bool)
      requires Sound(ps + rest)
      modifies `drops, `sinkCalls, `handed, PoolParts()
      ensures Sound(rest)
      ensures Desk(handed, sinkCalls, failed, drops)
              == HandAll(PolicyOf(hasSink), old(Desk(handed, sinkCalls, false, drops)), ps)
      ensures old(handed) <= handed
      // every drop is counted, and a sink that always accepts got exactly the wanted packets, in order
      ensures Settles(PolicyOf(hasSink), old(Desk(handed, sinkCalls, false, drops)),
                      Desk(handed, sinkCalls, failed, drops), ps)
    {
      HandSettles(PolicyOf(hasSink), Desk(handed, sinkCalls, false, drops), ps);
      failed := DeliverAll(ps, hasSink, rest);
    }

    method DeliverAll(ps: seq<Packet>, hasSink: bool, ghost rest: seq<Packet>) returns (failed: bool)
      requires Sound(ps + rest)
      modifies `drops, `sinkCalls, `handed, PoolParts()
      ensures Sound(rest)
      ensures Desk(handed, sinkCalls, failed, drops)
              == HandAll(PolicyOf(hasSink), old(Desk(handed, sinkCalls, false, drops)), ps)
      ensures old(handed) <= handed
    {
      failed := false;
      ghost var o := PolicyOf(hasSink);
      ghost var goal := HandAll(o, Desk(handed, sinkCalls, false, drops), ps);
      assert ps[0..] == ps;
      var i := 0;
      while i < |ps|
        invariant 0 <= i <= |ps| && Sound(ps[i..] + rest)
        invariant HandAll(o, Desk(handed, sinkCalls, failed, drops), ps[i..]) == goal
        invariant old(handed) <= handed
      {
        HandStep(o, Desk(handed, sinkCalls, failed, drops), ps, i, rest);
        failed := DeliverOne(ps[i], hasSink, failed, ps[i..] + rest);
        i := i + 1;
      }
      assert ps[i..] + rest == rest;
    }

    method DeliverOne(packet: Packet, hasSink: bool, failed: bool, ghost flight: seq<Packet>) returns (failed': bool)
      requires Sound(flight) && flight != [] && packet == flight[0]
      modifies `drops, `sinkCalls, `handed, PoolParts()
      ensures Sound(flight[1..])
      ensures Desk(handed, sinkCalls, failed', drops)
              == HandOne(PolicyOf(hasSink), old(Desk(handed, sinkCalls, failed, drops)), packet)
      ensures old(handed) <= handed
    {
      failed' := Offer(packet, hasSink, failed);
      PoolRelease(flight, packet);
    }

    method Offer(packet: Packet, hasSink: bool, failed: bool) returns (failed': bool)
      modifies `drops, `sinkCalls, `handed
      ensures Desk(handed, sinkCalls, failed', drops)
              == HandOne(PolicyOf(hasSink), old(Desk(handed, sinkCalls, failed, drops)), packet)
      ensures old(handed) <= handed
    {
      failed' := failed;
      match parse(packet.data)
      case NativeFragment => drops := drops.(nativeFragment := drops.nativeFragment + 1);
      case Malformed => drops := drops.(innerInvalid := drops.innerInvalid + 1);
      case Parsed(source, data) =>
        if !owns(source) {
          drops := drops.(sourceSpoof := drops.sourceSpoof + 1);
        } else if !failed && hasSink {
          if accepts(sinkCalls) { handed := handed + [data]; } else { failed' := true; }
          sinkCalls := sinkCalls + 1;
        }
    }

    /** Recomputes the deadline cache from the lanes, or only clears it when
        nothing waits any more. */
    method RefreshDeadline(recompute: bool, now: int)
      requires Lanes() && reorderHeld == HeldCount(queues)
      modifies `reorderDeadline
      ensures recompute || reorderHeld == 0 ==> OnTime()
      ensures !recompute && reorderHeld != 0 ==>
                reorderDeadline == if old(reorderDeadline).None? then Some(now + config.maxDelay)
                    else old(reorderDeadline)
    {
      NothingHeld(queues, Capacity(), config.maxDelay);
      DisabledHoldsNothing();
      if !config.reorderEnabled || reorderHeld == 0 {
        reorderDeadline := None;
        return;
      }
      if !recompute && reorderDeadline.None? {
        reorderDeadline := Some(now + config.maxDelay);
        return;
      }
      if recompute { reorderDeadline := EarliestDeadline(); }
    }

    /** The scan over the lanes. */
    method EarliestDeadline() returns (deadline: Option<int>)
      requires Lanes()
      ensures deadline == Earliest(queues, config.maxDelay)
    {
      deadline := None;
      for i := 0 to LANES
        invariant deadline == Earliest(queues[..i], config.maxDelay)
      {
        assert LaneOk(i) && QueueOk(queues[i], Capacity());
        assert queues[..i + 1][..i] == queues[..i];
        if reorders[i].count != 0 {
          var candidate := reorders[i].gapStartedAt.value + config.maxDelay;
          if deadline.None? || candidate < deadline.value { deadline := Some(candidate); }
        }
      }
      assert queues[..LANES] == queues;
    }

    lemma DisabledHoldsNothing()
      requires Apart() && |queues| == LANES && LanesOk(queues, Capacity())
      ensures !config.reorderEnabled ==> HeldCount(queues) == 0
    {
      NothingHeld(queues, Capacity(), config.maxDelay);
      if !config.reorderEnabled {
        forall i | 0 <= i < |queues|
          ensures queues[i].held == map[]
        {
          assert QueueOk(queues[i], Capacity()) && |queues[i].held| == 0;
        }
      }
    }

    /** The lane that has waited longest, or -1 when none waits. */
    method OldestReorderLane() returns (oldest: int)
      requires Lanes()
      ensures oldest == OldestOf(queues)
    {
      oldest := -1;
      for i := 0 to LANES
        invariant oldest == OldestOf(queues[..i])
      {
        assert LaneOk(i) && QueueOk(queues[i], Capacity());
        assert queues[..i + 1][..i] == queues[..i];
        if oldest >= 0 { assert LaneOk(oldest); }
        if reorders[i].count != 0 && (oldest < 0 ||
           reorders[i].gapStartedAt.value < reorders[oldest].gapStartedAt.value)
        {
          oldest := i;
        }
      }
      assert queues[..LANES] == queues;
    }

    // ----- a completed packet

    ghost function RulesOf(): Rules {
      Rules(config.reorderEnabled, Capacity(), config.budget, config.maxDelay)
    }

    ghost function Start(): Turn
      reads this
    {
      Turn(queues, Desk(handed, sinkCalls, false, drops), log)
    }

    ghost predicate Ends(t: Turn, failed: bool)
      reads this
    {
      queues == t.queues && Desk(handed, sinkCalls, failed, drops) == t.desk
    }

    /** As Ends, and the log is the turn's too. */
    ghost predicate Reached(t: Turn, failed: bool)
      reads this
    {
      Ends(t, failed) && log == t.log
    }

    /** Every lane's packets left it in the order of their sequence numbers and
        reached the sink in that order. */
    ghost predicate Ordered()
      reads this
    {
      TurnOk(RulesOf(), PolicyOf(true), Start())
    }

    ghost predicate Mine(packet: Packet) {
      packet.key == Key(0, config.session, packet.key.lane, packet.key.sequence) && packet.key.lane < LANES
    }

    /** Hands out what lane i sent, once the lane has moved. */
    method Finish(out: seq<Packet>, hasSink: bool, ghost rest: seq<Packet>) returns (failed: bool)
      requires Ready(out + rest) && OnTime()
      modifies `drops, `sinkCalls, `handed, PoolParts()
      ensures Ready(rest) && OnTime()
      ensures Desk(handed, sinkCalls, failed, drops)
              == HandAll(PolicyOf(hasSink), old(Desk(handed, sinkCalls, false, drops)), out)
    {
      failed := Deliver(out, hasSink, rest);
    }

    /** Books held as the number of packets that still wait. */
    method Account(held: int, now: int, ghost flight: seq<Packet>)
      requires Sound(flight) && held == HeldCount(queues)
      modifies `reorderHeld, `reorderDeadline
      ensures Ready(flight) && OnTime() && reorderHeld == held
    {
      OpensLanes(flight);
      reorderHeld := held;
      RefreshDeadline(true, now);
    }

    /** The lane gives up its gap together with packet. */
    method GiveUpWith(i: nat, now: int, packet: Packet) returns (out: seq<Packet>)
      requires Ready([packet]) && config.reorderEnabled && i < LANES &&
               packet.key == Key(0, config.session, i, packet.key.sequence)
      modifies `queues, `reorderHeld, `reorderDeadline, reorders[i], reorders[i].entries
      ensures Ready(out) && OnTime() && |out| > 0 && reorderHeld == old(reorderHeld) + 1 - |out|
      ensures out == Packets(FlushIncludingQueue(old(queues[i]), packet).out)
      ensures queues == old(queues)[i := FlushIncludingQueue(old(queues[i]), packet).queue]
    {
      out := LaneFlushWith(i, packet);
      Account(reorderHeld - (|out| - 1), now, out);
    }

    /** The lane gives up its gap. */
    method GiveUp(i: nat, now: int, ghost flight: seq<Packet>) returns (out: seq<Packet>)
      requires Ready(flight) && config.reorderEnabled && i < LANES
      modifies `queues, `reorderHeld, `reorderDeadline, reorders[i], reorders[i].entries
      ensures Ready(out + flight) && OnTime() && reorderHeld == old(reorderHeld) - |out|
      ensures out == Packets(FlushQueue(old(queues[i])).out)
      ensures queues == old(queues)[i := FlushQueue(old(queues[i])).queue]
    {
      out := LaneFlush(i, flight);
      Account(reorderHeld - |out|, now, out + flight);
    }

    /** The oldest lane is the packet's own. */
    method FlushOwn(now: int, packet: Packet, hasSink: bool) returns (failed: bool)
      requires Ready([packet]) && config.reorderEnabled && Mine(packet)
      modifies `queues, `reorderHeld, `reorderDeadline, `drops, `sinkCalls, `handed, PoolParts(),
               reorders[packet.key.lane], reorders[packet.key.lane].entries
      ensures Ready([]) && OnTime() && reorderHeld <= old(reorderHeld)
      ensures Ends(Then(PolicyOf(hasSink), old(Start()), packet.key.lane,
              FlushIncludingQueue(old(queues[packet.key.lane]), packet)), failed)
    {
      var out := GiveUpWith(packet.key.lane, now, packet);
      assert out + [] == out;
      failed := Finish(out, hasSink, []);
    }

    /** Another lane waits longest and makes room. */
    method FlushOldest(k: nat, now: int, hasSink: bool, ghost packet: Packet) returns (failed: bool)
      requires Ready([packet]) && config.reorderEnabled && k < LANES && queues[k].gap.Some?
      modifies `queues, `reorderHeld, `reorderDeadline, `drops, `sinkCalls, `handed, PoolParts(), reorders[k],
               reorders[k].entries
      ensures Ready([packet]) && OnTime() && reorderHeld < old(reorderHeld)
      ensures Ends(Then(PolicyOf(hasSink), old(Start()), k, FlushQueue(old(queues[k]))), failed)
    {
      Opens([packet]);
      assert QueueOk(queues[k], Capacity());
      FlushBalances(reassembly.Abs(), queues, k, Capacity(), [packet]);
      var out := GiveUp(k, now, [packet]);
      failed := Finish(out, hasSink, [packet]);
    }

    /** A lane has queued one more packet. */
    method Enqueued(i: nat)
      requires Sound([]) && config.reorderEnabled && i < LANES && reorderHeld + 1 == HeldCount(queues) &&
               queues[i].gap.Some?
      requires Earliest(queues, config.maxDelay) == Earlier(reorderDeadline, DeadlineOf(queues[i], config.maxDelay))
      modifies `reorderHeld, `reorderDeadline
      ensures Ready([]) && OnTime() && reorderHeld == old(reorderHeld) + 1 && reorderDeadline.Some?
    {
      OpensLanes([]);
      assert LaneOk(i);
      reorderHeld := reorderHeld + 1;
      var candidate := reorders[i].gapStartedAt.value + config.maxDelay;
      if reorderDeadline.None? || candidate < reorderDeadline.value { reorderDeadline := Some(candidate); }
    }

    /** Brings the deadline up to date after an arrival; n packets leave. */
    method Settle(fate: Fate, n: int, before: int, now: int, ghost flight: seq<Packet>)
      requires Ready(flight) && fate in {Queued, Delivered, Flushed}
      requires fate == Queued || (fate == Delivered && n <= 1) ==> OnTime()
      requires before == 0 && reorderHeld != 0 ==> OnTime() && reorderDeadline.Some?
      modifies `reorderDeadline
      ensures Ready(flight) && OnTime()
    {
      OpensLanes(flight);
      if reorderHeld == 0 || before == 0 {
        RefreshDeadline(false, now);
      } else if fate == Flushed || (fate == Delivered && n > 1) {
        RefreshDeadline(true, now);
      }
    }

    /** Books an arrival that its lane queued or that made n packets leave. */
    method Book(fate: Fate, i: nat, n: int, before: int, now: int, ghost flight: seq<Packet>)
      requires Sound(flight) && config.reorderEnabled && i < LANES && fate in {Queued, Delivered, Flushed}
      requires HeldCount(queues) == if fate == Queued then reorderHeld + 1 else reorderHeld - (n - 1)
      requires if fate == Queued then flight == [] && queues[i].gap.Some? else n > 0
      requires fate == Queued ==>
               Earliest(queues, config.maxDelay) == Earlier(reorderDeadline, DeadlineOf(queues[i], config.maxDelay))
      requires fate == Delivered && n == 1 ==> OnTime()
      requires before == 0 ==> reorderHeld == 0
      modifies `reorderHeld, `reorderDeadline
      ensures Ready(flight) && OnTime()
      ensures reorderHeld == if fate == Queued then old(reorderHeld) + 1 else old(reorderHeld) - (n - 1)
    {
      if fate == Queued {
        Enqueued(i);
      } else {
        reorderHeld := reorderHeld - (n - 1);
      }
      Settle(fate, n, before, now, flight);
    }

    /** The lane takes a packet in; before is the number held when it came. */
    method EnterLane(now: int, packet: Packet, before: int, ghost m: Move) returns (fate: Fate, out: seq<Packet>)
      requires Ready([packet]) && OnTime() && config.reorderEnabled && Mine(packet) &&
               (before == 0 ==> reorderHeld == 0)
      requires m == AcceptQueue(Capacity(), queues[packet.key.lane], now, packet)
      modifies `queues, `reorderHeld, `reorderDeadline, reorders[packet.key.lane], reorders[packet.key.lane].entries
      ensures fate == m.fate && out == Packets(m.out) && queues == old(queues)[packet.key.lane := m.queue]
      ensures Ready(out + if fate.Late? || fate.Repeated? then [packet] else []) && OnTime()
      ensures reorderHeld <= old(reorderHeld)
              + if WouldQueue(Capacity(), old(queues[packet.key.lane]), packet.key.sequence) then 1 else 0
      ensures fate.Late? || fate.Repeated? ==> out == []
    {
      OpensLanes([packet]);
      var i := packet.key.lane;
      assert QueueOk(queues[i], Capacity());
      AfterArrival(queues, i, Capacity(), now, packet, config.maxDelay);
      QueuedIffWould(Capacity(), queues[i], now, packet);
      fate, out := LaneAccept(i, now, packet);
      if fate == Late || fate == Repeated { return; }
      assert out + [] == out;
      Book(fate, i, |out|, before, now, out);
    }

    method ArriveLane(now: int, packet: Packet, before: int, hasSink: bool, ghost m: Move) returns (failed: bool)
      requires Ready([packet]) && OnTime() && config.reorderEnabled && Mine(packet) &&
               (before == 0 ==> reorderHeld == 0)
      requires m == AcceptQueue(Capacity(), queues[packet.key.lane], now, packet)
      modifies `queues, `reorderHeld, `reorderDeadline, `drops, `sinkCalls, `handed, PoolParts(),
               reorders[packet.key.lane], reorders[packet.key.lane].entries
      ensures Ready([]) && OnTime()
      ensures reorderHeld <= old(reorderHeld)
              + if WouldQueue(Capacity(), old(queues[packet.key.lane]), packet.key.sequence) then 1 else 0
      ensures Ends(Then(PolicyOf(hasSink), old(Start()), packet.key.lane, m), failed)
    {
      var fate, out := EnterLane(now, packet, before, m);
      failed := Depart(fate, out, packet, hasSink);
    }

    /** A late or repeated packet gives its slot back; others leave their lane. */
    method Depart(fate: Fate, out: seq<Packet>, packet: Packet, hasSink: bool) returns (failed: bool)
      requires Ready(out + if fate.Late? || fate.Repeated? then [packet] else []) && OnTime()
      requires fate.Late? || fate.Repeated? ==> out == []
      modifies `drops, `sinkCalls, `handed, PoolParts()
      ensures Ready([]) && OnTime()
      ensures Desk(handed, sinkCalls, failed, drops)
              == HandAll(PolicyOf(hasSink), old(Desk(handed, sinkCalls, false, drops)), out)
    {
      if fate == Late || fate == Repeated {
        assert out + [packet] == [packet] && [packet][1..] == [];
        PoolRelease([packet], packet);
        return false;
      }
      failed := Finish(out, hasSink, []);
    }

    /** Without reordering a packet goes straight out. */
    method Pass(now: int, packet: Packet, hasSink: bool) returns (failed: bool)
      requires Ready([packet]) && OnTime() && !config.reorderEnabled && Mine(packet)
      modifies `queues, `reorderHeld, `reorderDeadline, `drops, `sinkCalls, `handed, PoolParts(),
               reorders[packet.key.lane], reorders[packet.key.lane].entries
      ensures Ready([]) && OnTime() && reorderHeld == old(reorderHeld)
      ensures queues == old(queues)
      ensures Desk(handed, sinkCalls, failed, drops)
              == HandAll(PolicyOf(hasSink), old(Desk(handed, sinkCalls, false, drops)), [packet])
    {
      PassLane(packet.key.lane, now, packet);
      assert [packet] + [] == [packet];
      failed := Finish([packet], hasSink, []);
    }

    method PassLane(i: nat, now: int, packet: Packet)
      requires Ready([packet]) && OnTime() && !config.reorderEnabled && i < LANES &&
               packet.key == Key(0, config.session, i, packet.key.sequence)
      modifies this`queues, reorders[i], reorders[i].entries
      ensures Ready([packet]) && OnTime() && queues == old(queues)
    {
      Opens([packet]);
      assert LaneOk(i);
      var err, fate, out := reorders[i].Accept(now, packet, 1);
      assert err.None? && fate == Delivered && out == [packet];
      forall j | 0 <= j < LANES && j != i ensures LaneOk(j) { assert old(LaneOk(j)); }
      assert LaneOk(i);
      Seals([packet]);
    }

    /** Another lane k gives way first; if delivering its packets fails, the
        packet that came is dropped. */
    method ArriveAfter(k: nat, now: int, packet: Packet, hasSink: bool) returns (failed: bool)
      requires Ready([packet]) && OnTime() && config.reorderEnabled && Mine(packet) && k < LANES && k != packet.key.lane
      requires queues[k].gap.Some? && reorderHeld > 0
      modifies `queues, `reorderHeld, `reorderDeadline, `drops, `sinkCalls, `handed, PoolParts(), LaneParts()
      ensures Ready([]) && OnTime() && reorderHeld <= old(reorderHeld)
      ensures var u := Then(PolicyOf(hasSink), old(Start()), k, FlushQueue(old(queues[k])));
              Ends(if u.desk.failed then u
                   else Then(PolicyOf(hasSink), u, packet.key.lane,
                       AcceptQueue(Capacity(), u.queues[packet.key.lane], now, packet)), failed)
    {
      var before := reorderHeld;
      failed := FlushOldest(k, now, hasSink, packet);
      if failed {
        DropArrived(packet);
      } else {
        failed := ArriveLane(now, packet, before, hasSink,
            AcceptQueue(Capacity(), queues[packet.key.lane], now, packet));
      }
    }

    method DropArrived(packet: Packet)
      requires Ready([packet])
      modifies PoolParts()
      ensures Ready([])
    {
      assert [packet][1..] == [];
      PoolRelease([packet], packet);
    }

    method PickOldest() returns (k: int)
      requires Lanes() && HeldCount(queues) > 0
      ensures 0 <= k < LANES && k == OldestOf(queues)
    {
      NothingHeld(queues, Capacity(), config.maxDelay);
      EarliestIsMinimum(queues, config.maxDelay);
      OldestIsOldest(queues);
      k := OldestReorderLane();
    }

    /** Whether the packet would have to wait although the budget is used up,
        and the lane that then has to give way. */
    method Blocked(packet: Packet) returns (over: bool, k: int)
      requires Ready([packet]) && config.reorderEnabled && Mine(packet)
      ensures over <==> OverBudget(RulesOf(), queues, packet)
      ensures over ==> 0 <= k < LANES && k == OldestOf(queues) && reorderHeld > 0
    {
      OpensLanes([packet]);
      assert LaneOk(packet.key.lane);
      over := reorderHeld >= config.budget;
      if over { over := reorders[packet.key.lane].WouldQueue(packet.key.sequence); }
      k := -1;
      if over { k := PickOldest(); }
    }

    method AcceptReordered(now: int, packet: Packet, hasSink: bool) returns (failed: bool)
      requires Ready([packet]) && OnTime() && Mine(packet) && config.reorderEnabled && reorderHeld <= config.budget
      modifies `queues, `reorderHeld, `reorderDeadline, `drops, `sinkCalls, `handed, PoolParts(), LaneParts()
      ensures Ready([]) && OnTime() && reorderHeld <= config.budget
      ensures Ends(ArriveTurn(RulesOf(), PolicyOf(hasSink), old(Start()), now, packet), failed)
    {
      var over, oldest := Blocked(packet);
      if !over {
        failed := ArriveLane(now, packet, reorderHeld, hasSink,
            AcceptQueue(Capacity(), queues[packet.key.lane], now, packet));
      } else if oldest == packet.key.lane {
        failed := FlushOwn(now, packet, hasSink);
      } else {
        failed := ArriveAfter(oldest, now, packet, hasSink);
      }
    }

    /** A completed packet goes to its lane, under the budget. */
    method AcceptCompleted(now: int, packet: Packet, hasSink: bool) returns (failed: bool)
      requires Ready([packet]) && OnTime() && Mine(packet) && (config.reorderEnabled ==> reorderHeld <= config.budget)
      modifies `queues, `reorderHeld, `reorderDeadline, `drops, `sinkCalls, `handed, PoolParts(), LaneParts()
      ensures Valid()
      ensures Ends(ArriveTurn(RulesOf(), PolicyOf(hasSink), old(Start()), now, packet), failed)
    {
      if config.reorderEnabled {
        failed := AcceptReordered(now, packet, hasSink);
      } else {
        failed := Pass(now, packet, hasSink);
      }
    }

    // ----- records and payloads

    function KeyOf(r: Record): Key {
      Key(0, r.header.dataSessionID, r.header.laneID, r.header.laneSequence)
    }

    /** The reorder queues leave at least one slot, so with all slots open to
        the one peer no record is refused for want of a slot. */
    lemma RoomForOne(now: int, r: Record)
      requires Valid() && config.pool.perPeerSlots == config.pool.slots
      ensures Inv(config.pool, reassembly.Abs())
      ensures PoolSpec.Accept(config.pool, reassembly.Abs(), now, KeyOf(r), r).outcome !in {Failed(PeerQuota),
              Failed(NoSlot)}
    {
      Opens([]);
      DisabledHoldsNothing();
      NeverOutOfSlots(config.pool, reassembly.Abs(), now, KeyOf(r), r);
    }

    lemma PoolIsInv()
      requires Valid()
      ensures Inv(config.pool, reassembly.Abs())
    {
      Opens([]);
    }

    /** The lanes and the desk after the pool's answer. */
    ghost function After(out: Outcome, t: Turn, now: int, hasSink: bool): Turn
      requires out.Done? && out.status.Completed? ==> out.status.packet.key.lane < |t.queues|
    {
      if out.Done? && out.status.Completed? then ArriveTurn(RulesOf(), PolicyOf(hasSink), t, now, out.status.packet)
          else t
    }

    /** Goes on with the pool's answer. */
    method Answered(out: Outcome, now: int, hasSink: bool) returns (err: Option<ReceiveError>)
      requires OnTime() && (config.reorderEnabled ==> reorderHeld <= config.budget)
      requires if out.Done? && out.status.Completed? then Ready([out.status.packet]) && Mine(out.status.packet)
               else Ready([])
      modifies `queues, `reorderHeld, `reorderDeadline, `drops, `sinkCalls, `handed, PoolParts(), LaneParts()
      ensures Valid() && Ends(After(out, old(Start()), now, hasSink), err == Some(SinkFailed))
      ensures if out.Failed? then err == Some(ReassemblyFailed(out.error)) else err == None || err == Some(SinkFailed)
    {
      if out.Failed? { return Some(ReassemblyFailed(out.error)); }
      if !out.status.Completed? { return None; }
      var failed := AcceptCompleted(now, out.status.packet, hasSink);
      err := if failed then Some(SinkFailed) else None;
    }

    /** A record of this session. */
    method AcceptOwn(now: int, r: Record, hasSink: bool, ghost p: Pool)
      returns (err: Option<ReceiveError>, ghost out: Outcome)
      requires Valid() && r.header.dataSessionID == config.session && p == reassembly.Abs()
      modifies `queues, `reorderHeld, `reorderDeadline, `drops, `sinkCalls, `handed, PoolParts(), LaneParts()
      ensures Valid() && Inv(config.pool, p)
      ensures out == PoolSpec.Accept(config.pool, p, now, KeyOf(r), r).outcome
      ensures out.Done? && out.status.Completed? ==> out.status.packet.key.lane < LANES
      ensures Ends(After(out, old(Start()), now, hasSink), err == Some(SinkFailed))
      ensures if out.Failed? then err == Some(ReassemblyFailed(out.error)) else err == None || err == Some(SinkFailed)
      ensures config.pool.perPeerSlots == config.pool.slots ==> err !in OUT_OF_SLOTS
    {
      if config.pool.perPeerSlots == config.pool.slots { RoomForOne(now, r); }
      var got := PoolAccept(now, KeyOf(r), r);
      out := got;
      err := Answered(got, now, hasSink);
    }

    method AcceptRecord(now: int, r: Record, hasSink: bool, ghost p: Pool)
      returns (err: Option<ReceiveError>, ghost out: Outcome)
      requires Valid() && p == reassembly.Abs()
      modifies `queues, `reorderHeld, `reorderDeadline, `drops, `sinkCalls, `handed, `unknownSession
      modifies PoolParts(), LaneParts()
      ensures Valid() && (err.Some? ==> !err.value.WireFailed?)
      ensures err == Some(WrongSession) <==> r.header.dataSessionID != config.session
      ensures unknownSession == if err == Some(WrongSession) then r.header.dataSessionID else old(unknownSession)
      ensures Inv(config.pool, p)
      ensures out == if err == Some(WrongSession) then Failed(InvalidKey)
              else PoolSpec.Accept(config.pool, p, now, KeyOf(r), r).outcome
      ensures out.Done? && out.status.Completed? ==> out.status.packet.key.lane < LANES
      ensures Ends(After(out, old(Start()), now, hasSink), err == Some(SinkFailed))
      ensures err != Some(WrongSession) ==>
              if out.Failed? then err == Some(ReassemblyFailed(out.error)) else err == None || err == Some(SinkFailed)
      ensures config.pool.perPeerSlots == config.pool.slots ==> err !in OUT_OF_SLOTS
    {
      PoolIsInv();
      if r.header.dataSessionID != config.session {
        unknownSession := r.header.dataSessionID;
        return Some(WrongSession), Failed(InvalidKey);
      }
      err, out := AcceptOwn(now, r, hasSink, p);
    }

    /** The packet that a record completes in pool p, if it does. */
    ghost function ArrivalOf(p: Pool, now: int, r: Record): seq<Event>
      requires Inv(config.pool, p)
    {
      if r.header.dataSessionID != config.session then []
      else
        var t := PoolSpec.Accept(config.pool, p, now, KeyOf(r), r);
        if Completes(t) then [Arrival(now, t.outcome.status.packet)] else []
    }

    /** The packets that records complete, each in the pool it comes to. */
    ghost function ArrivalsOf(pools: seq<Pool>, now: int, rs: seq<Record>): seq<Event>
      requires |pools| == |rs| && PoolsOk(pools)
    {
      if rs == [] then []
      else
        var n := |rs| - 1;
        ArrivalsOf(pools[..n], now, rs[..n]) + ArrivalOf(pools[n], now, rs[n])
    }

    ghost predicate PoolsOk(pools: seq<Pool>) {
      forall k :: 0 <= k < |pools| ==> Inv(config.pool, pools[k])
    }

    /** The state is the one that a run over events leads to from start. */
    ghost predicate Along(start: Turn, hasSink: bool, events: seq<Event>, failed: bool)
      reads this
    {
      && |start.queues| == LANES && ForLanes(events, LANES)
      && Reached(RunTurns(RulesOf(), PolicyOf(hasSink), start, events), failed)
    }

    /** Writes down which packets left the lanes. */
    ghost method Chronicle(t: Turn, failed: bool)
      requires Valid() && Ends(t, failed)
      modifies `log
      ensures Valid() && Reached(t, failed)
    {
      log := t.log;
    }

    method TakeRecord(now: int, r: Record, hasSink: bool, ghost p: Pool)
      returns (err: Option<ReceiveError>, ghost events: seq<Event>)
      requires Valid() && p == reassembly.Abs()
      modifies this, PoolParts(), LaneParts()
      ensures Valid() && seen == old(seen) && (err.Some? ==> !err.value.WireFailed?)
      ensures Inv(config.pool, p) && events == ArrivalOf(p, now, r) &&
              Along(old(Start()), hasSink, events, err == Some(SinkFailed))
      ensures config.pool.perPeerSlots == config.pool.slots ==> err !in OUT_OF_SLOTS
    {
      ghost var start := Start();
      ghost var out;
      err, out := AcceptRecord(now, r, hasSink, p);
      Chronicle(After(out, start, now, hasSink), err == Some(SinkFailed));
      events := ArrivalOf(p, now, r);
      AlongOne(out, start, now, hasSink, events, err == Some(SinkFailed));
    }

    lemma AlongOne(out: Outcome, start: Turn, now: int, hasSink: bool, events: seq<Event>, failed: bool)
      requires |start.queues| == LANES && !start.desk.failed
      requires out.Done? && out.status.Completed? ==> out.status.packet.key.lane < LANES
      requires events == if out.Done? && out.status.Completed? then [Arrival(now, out.status.packet)] else []
      requires Reached(After(out, start, now, hasSink), failed)
      ensures Along(start, hasSink, events, failed)
    {
      if events != [] {
        NotFailed(start);
        RunOfOne(RulesOf(), PolicyOf(hasSink), start, events[0]);
      }
    }

    lemma RunStaysOrdered(start: Turn, hasSink: bool, events: seq<Event>, failed: bool)
      requires ReceiverConfigOk(config) && TurnOk(RulesOf(), PolicyOf(true), start) &&
               Along(start, hasSink, events, failed)
      ensures Ordered() && start.desk.handed <= handed && start.log <= log
    {
      TurnsGrow(RulesOf(), PolicyOf(hasSink), start, events);
      AnySink(RulesOf(), PolicyOf(true), start, hasSink);
      EveryRunIsInOrder(RulesOf(), PolicyOf(hasSink), start, events);
      AnySink(RulesOf(), PolicyOf(hasSink), RunTurns(RulesOf(), PolicyOf(hasSink), start, events), true);
    }

    /** The records visited so far met these pools, the first of them p, and
        completed these packets, over which the state is a run from start. */
    ghost predicate Took(start: Turn, p: Pool, now: int, hasSink: bool, visited: seq<Record>, pools: seq<Pool>,
                         events: seq<Event>, failed: bool)
      reads this
    {
      && |pools| == |visited| && PoolsOk(pools) && (visited != [] ==> pools[0] == p)
      && events == ArrivalsOf(pools, now, visited) && Along(start, hasSink, events, failed)
    }

    lemma TookNone(start: Turn, p: Pool, now: int, hasSink: bool)
      requires start == Start() && |queues| == LANES
      ensures Took(start, p, now, hasSink, [], [], [], false)
    {}

    /** What left the lanes since log was before, or came in when there are no lanes
        to wait in. */
    ghost function Departed(before: seq<Logged>, events: seq<Event>): seq<Packet>
      requires |before| <= |log|
      reads this
    {
      if config.reorderEnabled then LogPackets(log[|before|..]) else Arrived(events)
    }

    lemma RunSettlesHere(start: Turn, hasSink: bool, events: seq<Event>, failed: bool)
      requires Along(start, hasSink, events, failed) && start.log <= log
      ensures Settles(PolicyOf(hasSink), start.desk, Desk(handed, sinkCalls, failed, drops),
              Departed(start.log, events))
    {
      if config.reorderEnabled {
        EveryRunSettles(RulesOf(), PolicyOf(hasSink), start, events);
      } else {
        EveryArrivalSettles(RulesOf(), PolicyOf(hasSink), start, events);
      }
    }

    lemma AlongIs(start: Turn, hasSink: bool, events: seq<Event>)
      requires Along(start, hasSink, events, false)
      ensures RunTurns(RulesOf(), PolicyOf(hasSink), start, events) == Start() && |queues| == LANES
    {}

    lemma ArrivalsMore(pools: seq<Pool>, now: int, visited: seq<Record>, q: Pool, r: Record)
      requires |pools| == |visited| && PoolsOk(pools) && Inv(config.pool, q)
      ensures PoolsOk(pools + [q])
      ensures ArrivalsOf(pools + [q], now, visited + [r]) == ArrivalsOf(pools, now, visited) + ArrivalOf(q, now, r)
    {
      assert (pools + [q])[..|pools|] == pools && (visited + [r])[..|visited|] == visited;
    }

    lemma AlongMore(start: Turn, hasSink: bool, events: seq<Event>, mid: Turn, es: seq<Event>, failed: bool)
      requires |start.queues| == LANES && ForLanes(events, LANES) && Along(mid, hasSink, es, failed)
      requires mid == RunTurns(RulesOf(), PolicyOf(hasSink), start, events)
      ensures Along(start, hasSink, events + es, failed)
    {
      RunGoesOn(RulesOf(), PolicyOf(hasSink), start, events, es);
    }

    lemma TookOneMore(start: Turn, p: Pool, now: int, hasSink: bool, visited: seq<Record>, pools: seq<Pool>,
                      events: seq<Event>,
                      mid: Turn, q: Pool, r: Record, es: seq<Event>, failed: bool)
      requires |pools| == |visited| && PoolsOk(pools) && (if visited != [] then pools[0] == p else q == p)
      requires events == ArrivalsOf(pools, now, visited) && Inv(config.pool, q) && es == ArrivalOf(q, now, r)
      requires |start.queues| == LANES && ForLanes(events, LANES) && Along(mid, hasSink, es, failed)
      requires mid == RunTurns(RulesOf(), PolicyOf(hasSink), start, events)
      ensures Took(start, p, now, hasSink, visited + [r], pools + [q], events + es, failed)
    {
      ArrivalsMore(pools, now, visited, q, r);
      AlongMore(start, hasSink, events, mid, es, failed);
    }

    /** The next record of a payload. */
    method NextRecord(now: int, r: Record, hasSink: bool, ghost start: Turn, ghost p: Pool, ghost visited: seq<Record>,
                      ghost pools: seq<Pool>, ghost events: seq<Event>)
      returns (err: Option<ReceiveError>, ghost pools': seq<Pool>, ghost events': seq<Event>)
      requires Valid() && Took(start, p, now, hasSink, visited, pools, events, false)
      requires visited == [] ==> reassembly.Abs() == p
      modifies this, PoolParts(), LaneParts()
      ensures Valid() && seen == old(seen) && (err.Some? ==> !err.value.WireFailed?)
      ensures Took(start, p, now, hasSink, visited + [r], pools', events', err == Some(SinkFailed))
      ensures config.pool.perPeerSlots == config.pool.slots ==> err !in OUT_OF_SLOTS
    {
      ghost var q, mid := reassembly.Abs(), Start();
      AlongIs(start, hasSink, events);
      ghost var es;
      err, es := TakeRecord(now, r, hasSink, q);
      pools', events' := pools + [q], events + es;
      TookOneMore(start, p, now, hasSink, visited, pools, events, mid, q, r, es, err == Some(SinkFailed));
    }

    /** One authenticated carrier payload: its records in order, up to the first
        error. Each packet that a record completes goes through the lanes. */
    method AcceptPayload(now: int, payload: seq<byte>, hasSink: bool)
      returns (err: Option<ReceiveError>, ghost visited: seq<Record>, ghost pools: seq<Pool>, ghost events: seq<Event>)
      requires Valid() && Ordered()
      modifies this, PoolParts(), LaneParts()
      ensures Valid() && Ordered() && seen == old(seen) + visited && AllValid(visited) && EncodeAll(visited) <= payload
      ensures err.None? ==> ParseAll(payload) == Ok(visited)
      ensures err.Some? && err.value.WireFailed? ==> ParseAll(payload) == Err(err.value.wire)
      ensures err.Some? && !err.value.WireFailed? ==> visited != []
      ensures Took(old(Start()), old(reassembly.Abs()), now, hasSink, visited, pools, events, err == Some(SinkFailed))
      ensures old(handed) <= handed && old(log) <= log
      ensures Settles(PolicyOf(hasSink), old(Start()).desk, Desk(handed, sinkCalls, err == Some(SinkFailed), drops),
                      Departed(old(log), events))
      ensures config.pool.perPeerSlots == config.pool.slots ==> err !in OUT_OF_SLOTS
    {
      err, visited, pools, events := Records(now, payload, hasSink, Start());
      RunStaysOrdered(old(Start()), hasSink, events, err == Some(SinkFailed));
      RunSettlesHere(old(Start()), hasSink, events, err == Some(SinkFailed));
      seen := seen + visited;
    }

    method Records(now: int, payload: seq<byte>, hasSink: bool, ghost start: Turn)
      returns (err: Option<ReceiveError>, ghost visited: seq<Record>, ghost pools: seq<Pool>, ghost events: seq<Event>)
      requires Valid() && start == Start()
      modifies this, PoolParts(), LaneParts()
      ensures Valid() && seen == old(seen) && Reports(payload, visited, err)
      ensures Took(start, old(reassembly.Abs()), now, hasSink, visited, pools, events, err == Some(SinkFailed))
      ensures config.pool.perPeerSlots == config.pool.slots ==> err !in OUT_OF_SLOTS
    {
      if payload == [] { return Some(WireFailed(HeaderTooShort)), [], [], []; }
      var rest;
      err, rest, visited, pools, events := VisitAll(now, payload, hasSink, start, reassembly.Abs());
      ReportsAll(payload, visited, rest, err);
    }

    method VisitAll(now: int, payload: seq<byte>, hasSink: bool, ghost start: Turn, ghost p: Pool)
      returns (err: Option<ReceiveError>, rest: seq<byte>, ghost visited: seq<Record>, ghost pools: seq<Pool>,
               ghost events: seq<Event>)
      requires Valid() && start == Start() && p == reassembly.Abs()
      modifies this, PoolParts(), LaneParts()
      ensures Valid() && seen == old(seen) && Visited(payload, visited, rest, err) && (rest == [] || err.Some?)
      ensures Took(start, p, now, hasSink, visited, pools, events, err == Some(SinkFailed))
      ensures config.pool.perPeerSlots == config.pool.slots ==> err !in OUT_OF_SLOTS
    {
      err, rest, visited, pools, events := None, payload, [], [], [];
      TookNone(start, p, now, hasSink);
      while rest != [] && err.None?
        invariant Valid() && seen == old(seen) && Visited(payload, visited, rest, err)
        invariant Took(start, p, now, hasSink, visited, pools, events, err == Some(SinkFailed))
        invariant visited == [] ==> reassembly.Abs() == p
        invariant config.pool.perPeerSlots == config.pool.slots ==> err !in OUT_OF_SLOTS
        decreases |rest| + if err.None? then 1 else 0
      {
        err, rest, visited, pools, events :=
          Visit(now, payload, rest, hasSink, start, p, visited, pools, events);
      }
    }

    /** Decodes the record at the head of rest and takes it. */
    method Visit(now: int, payload: seq<byte>, rest: seq<byte>, hasSink: bool, ghost start: Turn, ghost p: Pool,
                 ghost visited: seq<Record>, ghost pools: seq<Pool>, ghost events: seq<Event>)
      returns (err: Option<ReceiveError>, rest': seq<byte>, ghost visited': seq<Record>, ghost pools': seq<Pool>,
               ghost events': seq<Event>)
      requires Valid() && Visiting(payload, visited, rest) && rest != []
      requires Took(start, p, now, hasSink, visited, pools, events, false) && (visited == [] ==> reassembly.Abs() == p)
      modifies this, PoolParts(), LaneParts()
      ensures Valid() && seen == old(seen) && Visited(payload, visited', rest', err)
      ensures |rest'| < |rest| || (rest' == rest && err.Some?)
      ensures Took(start, p, now, hasSink, visited', pools', events', err == Some(SinkFailed))
      ensures visited' == [] ==> reassembly.Abs() == p
      ensures config.pool.perPeerSlots == config.pool.slots ==> err !in OUT_OF_SLOTS
    {
      var d := DecodeRecord(rest);
      if d.Err? { return Some(WireFailed(d.error)), rest, visited, pools, events; }
      VisitOne(payload, visited, rest);
      err, pools', events' := NextRecord(now, d.value.0, hasSink, start, p, visited, pools, events);
      rest', visited' := rest[d.value.1..], visited + [d.value.0];
    }

    // ----- timers

    method ExpireReassembly(now: int) returns (expired: nat)
      requires Valid()
      modifies PoolParts()
      ensures Valid() && (old(Ordered()) ==> Ordered())
      ensures old(Inv(config.pool, reassembly.Abs())) &&
              expired == ExpireCount(config.pool, old(reassembly.Abs()), now, config.pool.slots)
      ensures reassembly.Abs() == ExpireUpTo(config.pool, old(reassembly.Abs()), now, config.pool.slots)
    {
      Opens([]);
      ExpireBalances(config.pool, reassembly.Abs(), queues, now);
      expired := reassembly.Expire(now);
      Seals([]);
    }

    method Shrink(n: nat, ghost out: seq<Packet>)
      requires Sound(out) && reorderHeld - n == HeldCount(queues)
      modifies `reorderHeld
      ensures Ready(out + []) && reorderHeld == old(reorderHeld) - n
    {
      assert out + [] == out;
      reorderHeld := reorderHeld - n;
    }

    /** The timer visits lane i. */
    method TickLane(i: nat, now: int, hasSink: bool, ghost t: Turn) returns (n: nat, failed: bool)
      requires Ready([]) && config.reorderEnabled && i < LANES && Ends(t, false)
      modifies `queues, `reorderHeld, `drops, `sinkCalls, `handed, PoolParts(), reorders[i], reorders[i].entries
      ensures Ready([]) && reorderHeld == old(reorderHeld) - n && (failed ==> n > 0) &&
              (n == 0 ==> queues == old(queues))
      ensures Ends(TickOne(RulesOf(), PolicyOf(hasSink), t, now, i), failed)
    {
      OpensLanes([]);
      TickIdle(queues, i, now);
      var out := LaneTick(i, now);
      n := |out|;
      Shrink(n, out);
      failed := Deliver(out, hasSink, []);
    }

    lemma TickIdle(qs: seq<Queue>, i: nat, now: int)
      requires LanesOk(qs, Capacity()) && i < |qs|
      ensures TickQueue(qs[i], config.maxDelay, now).out == [] ==>
              qs[i := TickQueue(qs[i], config.maxDelay, now).queue] == qs
    {
      assert QueueOk(qs[i], Capacity());
    }

    method TickLanes(now: int, hasSink: bool, ghost start: Turn) returns (flushed: bool, failed: bool)
      requires Ready([]) && OnTime() && config.reorderEnabled && reorderHeld <= config.budget && start == Start()
      modifies `queues, `reorderHeld, `drops, `sinkCalls, `handed, PoolParts(), LaneParts()
      ensures Ready([]) && (flushed || OnTime()) && reorderHeld <= config.budget
      ensures Ends(TickTurn(RulesOf(), PolicyOf(hasSink), start, now, |start.queues|), failed)
    {
      flushed, failed := false, false;
      for i := 0 to |reorders|
        invariant Ready([]) && (flushed || OnTime()) && reorderHeld <= config.budget && !failed
        invariant Ends(TickTurn(RulesOf(), PolicyOf(hasSink), start, now, i), false)
      {
        flushed, failed := TickNext(i, now, hasSink, start, flushed);
        if failed { return; }
      }
    }

    /** The round of the timer goes on with lane i. */
    method TickNext(i: nat, now: int, hasSink: bool, ghost start: Turn, flushed: bool)
      returns (flushed': bool, failed: bool)
      requires Ready([]) && (flushed || OnTime()) && config.reorderEnabled && reorderHeld <= config.budget
      requires i < LANES == |start.queues| && Ends(TickTurn(RulesOf(), PolicyOf(hasSink), start, now, i), false)
      modifies `queues, `reorderHeld, `drops, `sinkCalls, `handed, PoolParts(), LaneParts()
      ensures Ready([]) && (flushed' || OnTime()) && reorderHeld <= config.budget
      ensures Ends(TickTurn(RulesOf(), PolicyOf(hasSink), start, now, if failed then |start.queues| else i + 1), failed)
    {
      var n;
      n, failed := TickLane(i, now, hasSink, TickTurn(RulesOf(), PolicyOf(hasSink), start, now, i));
      flushed' := flushed || n != 0;
      if failed { FailureEndsRound(RulesOf(), PolicyOf(hasSink), start, now, i + 1, |start.queues|); }
    }

    /** Flushes every gap that has waited its full time. */
    method TickReorder(now: int, hasSink: bool) returns (failed: bool)
      requires Valid() && Ordered()
      modifies this, PoolParts(), LaneParts()
      ensures Valid() && Ordered() && Along(old(Start()), hasSink, [Timer(now)], failed)
      ensures old(handed) <= handed && old(log) <= log
      ensures Settles(PolicyOf(hasSink), old(Start()).desk, Desk(handed, sinkCalls, failed, drops),
                      Departed(old(log), [Timer(now)]))
    {
      ghost var start := Start();
      NotFailed(start);
      RunOfOne(RulesOf(), PolicyOf(hasSink), start, Timer(now));
      if !config.reorderEnabled || reorderHeld == 0 {
        OpensLanes([]);
        DisabledHoldsNothing();
        NothingHeld(queues, Capacity(), config.maxDelay);
        EarliestIsMinimum(queues, config.maxDelay);
        IdleTick(RulesOf(), PolicyOf(hasSink), start, now, |start.queues|);
        failed := false;
      } else {
        failed := TickAll(now, hasSink, start);
      }
      RunStaysOrdered(start, hasSink, [Timer(now)], failed);
      RunSettlesHere(start, hasSink, [Timer(now)], failed);
    }

    method TickAll(now: int, hasSink: bool, ghost start: Turn) returns (failed: bool)
      requires Valid() && config.reorderEnabled && start == Start()
      modifies this, PoolParts(), LaneParts()
      ensures Valid() && Reached(TickTurn(RulesOf(), PolicyOf(hasSink), start, now, |start.queues|), failed)
    {
      var flushed;
      flushed, failed := TickLanes(now, hasSink, start);
      AfterTick(flushed, failed, now);
      Chronicle(TickTurn(RulesOf(), PolicyOf(hasSink), start, now, |start.queues|), failed);
    }

    method AfterTick(flushed: bool, failed: bool, now: int)
      requires Ready([]) && (flushed || OnTime()) && reorderHeld <= config.budget
      modifies `reorderDeadline
      ensures Valid()
    {
      OpensLanes([]);
      if flushed {
        RefreshDeadline(true, now);
      } else if !failed && reorderHeld == 0 {
        RefreshDeadline(false, now);
      }
    }

    /** None exactly when no packet waits, else the earliest deadline of a lane. */
    method NextReorderDeadline() returns (at: Option<int>)
      requires Valid()
      ensures at == Earliest(queues, config.maxDelay)
      ensures at.None? <==> HeldCount(queues) == 0
    {
      OpensLanes([]);
      NothingHeld(queues, Capacity(), config.maxDelay);
      DisabledHoldsNothing();
      if !config.reorderEnabled || reorderHeld == 0 { return None; }
      at := reorderDeadline;
    }
  }

  /** A budget of zero stands for all slots but one. */
  function WithBudget(c: ReceiverConfig): ReceiverConfig {
    if c.reorderEnabled && c.budget == 0 then c.(budget := c.pool.slots - 1) else c
  }

  /** Refuses exactly the configurations the reassembler, the lanes or the budget cannot work with. */
  method NewReceiver(c: ReceiverConfig, hash: Key -> nat, parse: seq<byte> -> Inner, owns: seq<byte> -> bool,
                     accepts: nat -> bool)
    returns (r: Option<Receiver>)
    ensures r.Some? <==> ReceiverConfigOk(WithBudget(c)) && MIN_INNER_MTU <= c.pool.maxPacketSize <= MAX_INNER_MTU
    ensures r.Some? ==> fresh(r.value) && r.value.Valid() && r.value.Ordered() && r.value.config == WithBudget(c)
  {
    if !ReceiverConfigOk(WithBudget(c)) || c.pool.maxPacketSize < MIN_INNER_MTU ||
       c.pool.maxPacketSize > MAX_INNER_MTU
    {
      return None;
    }
    var receiver := new Receiver(WithBudget(c), hash, parse, owns, accepts);
    r := Some(receiver);
  }
}
