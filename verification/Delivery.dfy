/** What a receiver hands to the local interface: delivery and the turns of its
    reorder lanes (internal/core/datapath/receiver.go). */
module Delivery {
  import opened Wire
  import opened PoolSpec
  import opened Reorder
  import opened ReceiverSpec

  /** What the inner IP parser says of a packet. */
  datatype Inner = NativeFragment | Malformed | Parsed(source: seq<byte>, data: seq<byte>)

  datatype Drops = Drops(sourceSpoof: nat, nativeFragment: nat, innerInvalid: nat)

  // ----- handing packets to the sink

  /** What delivery changes besides the pool. */
  datatype Desk = Desk(handed: seq<seq<byte>>, calls: nat, failed: bool, drops: Drops)

  datatype Policy = Policy(parse: seq<byte> -> Inner, owns: seq<byte> -> bool, accepts: nat -> bool, hasSink: bool)

  /** One packet: dropped by policy, or offered to the sink unless it failed before. */
  function HandOne(o: Policy, d: Desk, packet: Packet): Desk {
    match o.parse(packet.data)
    case NativeFragment => d.(drops := d.drops.(nativeFragment := d.drops.nativeFragment + 1))
    case Malformed => d.(drops := d.drops.(innerInvalid := d.drops.innerInvalid + 1))
    case Parsed(source, data) =>
      if !o.owns(source) then d.(drops := d.drops.(sourceSpoof := d.drops.sourceSpoof + 1))
      else if d.failed || !o.hasSink then d
      else if o.accepts(d.calls) then d.(handed := d.handed + [data], calls := d.calls + 1)
      else d.(calls := d.calls + 1, failed := true)
  }

  function HandAll(o: Policy, d: Desk, ps: seq<Packet>): Desk
    decreases |ps|
  {
    if ps == [] then d else HandAll(o, HandOne(o, d, ps[0]), ps[1..])
  }

  lemma HandStep(o: Policy, d: Desk, ps: seq<Packet>, i: nat, rest: seq<Packet>)
    requires i < |ps|
    ensures HandAll(o, d, ps[i..]) == HandAll(o, HandOne(o, d, ps[i]), ps[i + 1..])
    ensures ps[i..] + rest != [] && (ps[i..] + rest)[0] == ps[i] && (ps[i..] + rest)[1..] == ps[i + 1..] + rest
  {
    assert ps[i..][1..] == ps[i + 1..];
  }

  /** The sink got data out of packet, a whole inner packet whose source belongs
      to the peer. */
  predicate Carries(o: Policy, packet: Packet, data: seq<byte>) {
    o.parse(packet.data).Parsed? && o.owns(o.parse(packet.data).source) && o.parse(packet.data).data == data
  }

  /** The sink sees only whole inner packets whose source belongs to the peer. */
  predicate Admissible(o: Policy, data: seq<byte>, ps: seq<Packet>) {
    exists i :: 0 <= i < |ps| && Carries(o, ps[i], data)
  }

  lemma {:induction false} OnlyAdmissibleHanded(o: Policy, d: Desk, ps: seq<Packet>)
    ensures d.handed <= HandAll(o, d, ps).handed
    ensures forall k :: |d.handed| <= k < |HandAll(o, d, ps).handed| ==> Admissible(o, HandAll(o, d, ps).handed[k], ps)
    decreases |ps|
  {
    if ps != [] {
      var d', rest := HandOne(o, d, ps[0]), ps[1..];
      OnlyAdmissibleHanded(o, d', rest);
      var out := HandAll(o, d, ps).handed;
      forall k | |d.handed| <= k < |out| ensures Admissible(o, out[k], ps) {
        if k < |d'.handed| {
          assert Carries(o, ps[0], out[k]);
        } else {
          var i :| 0 <= i < |rest| && Carries(o, rest[i], out[k]);
          assert ps[i + 1] == rest[i];
        }
      }
    }
  }

  // ----- one turn of the lanes

  datatype Rules = Rules(enabled: bool, capacity: nat, budget: int, maxDelay: int)

  /** A packet that left lane. */
  datatype Logged = Logged(lane: nat, at: Slotted)

  function Tag(lane: nat, out: seq<Slotted>): (log: seq<Logged>)
    ensures |log| == |out| && forall k :: 0 <= k < |out| ==> log[k] == Logged(lane, out[k])
  {
    seq(|out|, k requires 0 <= k < |out| => Logged(lane, out[k]))
  }

  /** The lanes after a turn, the desk, and what left the lanes in order. */
  datatype Turn = Turn(queues: seq<Queue>, desk: Desk, log: seq<Logged>)

  /** Lane i makes move m and what it sends out is delivered. */
  function Then(o: Policy, t: Turn, i: nat, m: Move): Turn
    requires i < |t.queues|
  {
    Turn(t.queues[i := m.queue], HandAll(o, t.desk, Packets(m.out)), t.log + Tag(i, m.out))
  }

  /** The first lane with the earliest gap, -1 when no lane waits. */
  function OldestOf(qs: seq<Queue>): (k: int)
    ensures -1 <= k < |qs| && (k >= 0 ==> qs[k].gap.Some?)
  {
    if qs == [] then -1
    else
      var n := |qs| - 1;
      var k := OldestOf(qs[..n]);
      if qs[n].gap.Some? && (k < 0 || qs[n].gap.value < qs[k].gap.value) then n else k
  }

  lemma {:induction false} OldestIsOldest(qs: seq<Queue>)
    ensures OldestOf(qs) == -1 <==> forall i :: 0 <= i < |qs| ==> qs[i].gap.None?
    ensures OldestOf(qs) >= 0 ==>
            forall i :: 0 <= i < |qs| && qs[i].gap.Some? ==> qs[OldestOf(qs)].gap.value <= qs[i].gap.value
  {
    if qs != [] {
      var n := |qs| - 1;
      OldestIsOldest(qs[..n]);
      assert forall i :: 0 <= i < n ==> qs[..n][i] == qs[i];
    }
  }

  predicate OverBudget(r: Rules, qs: seq<Queue>, packet: Packet)
    requires packet.key.lane < |qs|
  {
    HeldCount(qs) >= r.budget && WouldQueue(r.capacity, qs[packet.key.lane], packet.key.sequence)
  }

  /** A completed packet arrives. At the budget a packet that would have to
      wait first makes the oldest lane give up its gap. */
  ghost function ArriveTurn(r: Rules, o: Policy, t: Turn, now: int, packet: Packet): Turn
    requires packet.key.lane < |t.queues|
  {
    var i, k := packet.key.lane, OldestOf(t.queues);
    if !r.enabled then t.(desk := HandAll(o, t.desk, [packet]))
    else if !OverBudget(r, t.queues, packet) then Then(o, t, i, AcceptQueue(r.capacity, t.queues[i], now, packet))
    else if k < 0 then t
    else if k == i then Then(o, t, i, FlushIncludingQueue(t.queues[i], packet))
    else
      var u := Then(o, t, k, FlushQueue(t.queues[k]));
      if u.desk.failed then u else Then(o, u, i, AcceptQueue(r.capacity, u.queues[i], now, packet))
  }

  ghost function TickOne(r: Rules, o: Policy, t: Turn, now: int, i: nat): Turn
    requires i < |t.queues|
  {
    if t.desk.failed then t else Then(o, t, i, TickQueue(t.queues[i], r.maxDelay, now))
  }

  /** The timer visits the first n lanes; a failing sink ends the round. */
  ghost function TickTurn(r: Rules, o: Policy, t: Turn, now: int, n: nat): (u: Turn)
    requires n <= |t.queues|
    ensures |u.queues| == |t.queues|
  {
    if n == 0 then t else TickOne(r, o, TickTurn(r, o, t, now, n - 1), now, n - 1)
  }

  lemma {:induction false} FailureEndsRound(r: Rules, o: Policy, t: Turn, now: int, n: nat, all: nat)
    requires n <= all <= |t.queues| && TickTurn(r, o, t, now, n).desk.failed
    ensures TickTurn(r, o, t, now, all) == TickTurn(r, o, t, now, n)
    decreases all
  {
    if n < all { FailureEndsRound(r, o, t, now, n, all - 1); }
  }

  /** After a round that no sink failure cut short, no gap is overdue. */
  lemma {:induction false} NoneOverdueAfterTick(r: Rules, o: Policy, t: Turn, now: int, n: nat, i: nat)
    requires n <= |t.queues| && i < n && !TickTurn(r, o, t, now, n).desk.failed
    ensures var gap := TickTurn(r, o, t, now, n).queues[i].gap; gap.None? || now < gap.value + r.maxDelay
  {
    if i < n - 1 { NoneOverdueAfterTick(r, o, t, now, n - 1, i); }
  }

  // ----- order over whole runs

  /** Every lane's packets left it in the order of their sequence numbers, each
      at a position of its own sequence and behind the lane's next one. */
  ghost predicate InOrder(log: seq<Logged>, qs: seq<Queue>) {
    && (forall a :: 0 <= a < |log| ==> log[a].lane < |qs| && log[a].at.pos < qs[log[a].lane].base)
    && (forall a :: 0 <= a < |log| ==> log[a].at.packet.key.sequence == Wrap(log[a].at.pos))
    && (forall a, b :: 0 <= a < b < |log| && log[a].lane == log[b].lane ==> log[a].at.pos < log[b].at.pos)
  }

  /** What the sink got is what the logged packets at these places carry. */
  predicate Picks(o: Policy, handed: seq<seq<byte>>, log: seq<Logged>, at: seq<nat>) {
    && |at| == |handed|
    && (forall k :: 0 <= k < |at| ==> at[k] < |log| && Carries(o, log[at[k]].at.packet, handed[k]))
    && (forall j, k :: 0 <= j < k < |at| ==> at[j] < at[k])
  }

  /** The sink got its packets in the order they left the lanes. */
  ghost predicate InStep(o: Policy, handed: seq<seq<byte>>, log: seq<Logged>) {
    exists at: seq<nat> :: Picks(o, handed, log, at)
  }

  lemma PicksOn(o: Policy, handed: seq<seq<byte>>, log: seq<Logged>, x: Logged, at: seq<nat>)
    requires Picks(o, handed, log, at)
    ensures Picks(o, handed, log + [x], at)
  {
    forall k | 0 <= k < |at| ensures at[k] < |log + [x]| && Carries(o, (log + [x])[at[k]].at.packet, handed[k]) {
      assert (log + [x])[at[k]] == log[at[k]];
    }
  }

  lemma PicksOne(o: Policy, handed: seq<seq<byte>>, data: seq<byte>, log: seq<Logged>, x: Logged, at: seq<nat>)
    requires Picks(o, handed, log, at) && Carries(o, x.at.packet, data)
    ensures Picks(o, handed + [data], log + [x], at + [|log|])
  {
    PicksOn(o, handed, log, x, at);
    var at' := at + [|log|];
    forall k | 0 <= k < |at'|
      ensures at'[k] < |log + [x]| && Carries(o, (log + [x])[at'[k]].at.packet, (handed + [data])[k])
    {
      if k == |at| { assert (log + [x])[at'[k]] == x; }
    }
    forall j, k | 0 <= j < k < |at'| ensures at'[j] < at'[k] {
      assert at'[j] == at[j];
      if k < |at| { assert at'[k] == at[k]; }
    }
  }

  lemma OfferInStep(o: Policy, d: Desk, log: seq<Logged>, x: Logged, at: seq<nat>) returns (at': seq<nat>)
    requires Picks(o, d.handed, log, at)
    ensures Picks(o, HandOne(o, d, x.at.packet).handed, log + [x], at')
  {
    var handed := HandOne(o, d, x.at.packet).handed;
    if handed == d.handed {
      PicksOn(o, d.handed, log, x, at);
      at' := at;
    } else {
      PicksOne(o, d.handed, o.parse(x.at.packet.data).data, log, x, at);
      at' := at + [|log|];
    }
  }

  lemma HandHead(o: Policy, d: Desk, out: seq<Slotted>)
    requires out != []
    ensures HandAll(o, d, Packets(out)) == HandAll(o, HandOne(o, d, out[0].packet), Packets(out[1..]))
  {
    assert Packets(out)[1..] == Packets(out[1..]);
  }

  lemma TagHead(log: seq<Logged>, i: nat, out: seq<Slotted>)
    requires out != []
    ensures log + Tag(i, out) == log + [Logged(i, out[0])] + Tag(i, out[1..])
  {
    var x, rest := Logged(i, out[0]), Tag(i, out[1..]);
    assert Tag(i, out) == [x] + rest;
    Assoc(log, [x], rest);
  }

  lemma {:induction false} HandInStep(o: Policy, d: Desk, log: seq<Logged>, i: nat, out: seq<Slotted>, at: seq<nat>)
    returns (at': seq<nat>)
    requires Picks(o, d.handed, log, at)
    ensures Picks(o, HandAll(o, d, Packets(out)).handed, log + Tag(i, out), at')
    decreases |out|
  {
    if out == [] {
      assert log + Tag(i, out) == log;
      at' := at;
    } else {
      at' := OfferInStep(o, d, log, Logged(i, out[0]), at);
      at' := HandInStep(o, HandOne(o, d, out[0].packet), log + [Logged(i, out[0])], i, out[1..], at');
      HandHead(o, d, out);
      TagHead(log, i, out);
    }
  }

  /** The lanes are well-formed, their packets left them in order and reached
      the sink in that order. */
  ghost predicate TurnOk(r: Rules, o: Policy, t: Turn) {
    && LanesOk(t.queues, r.capacity) && InOrder(t.log, t.queues)
    && (r.enabled ==> InStep(o, t.desk.handed, t.log))
  }

  lemma AnySink(r: Rules, o: Policy, t: Turn, hasSink: bool)
    requires TurnOk(r, o, t)
    ensures TurnOk(r, o.(hasSink := hasSink), t)
  {
    if r.enabled {
      var at: seq<nat> :| Picks(o, t.desk.handed, t.log, at);
      assert Picks(o.(hasSink := hasSink), t.desk.handed, t.log, at);
    }
  }

  /** In such a turn, of two packets that the sink got out of one lane the first
      has the earlier position in that lane. */
  lemma HandedInOrder(r: Rules, o: Policy, t: Turn) returns (at: seq<nat>)
    requires TurnOk(r, o, t) && r.enabled
    ensures |at| == |t.desk.handed|
    ensures forall k :: 0 <= k < |at| ==> at[k] < |t.log| && Carries(o, t.log[at[k]].at.packet, t.desk.handed[k])
    ensures forall j, k :: 0 <= j < k < |at| && t.log[at[j]].lane == t.log[at[k]].lane ==>
              t.log[at[j]].at.pos < t.log[at[k]].at.pos
  {
    at :| Picks(o, t.desk.handed, t.log, at);
  }

  lemma LogGrows(log: seq<Logged>, qs: seq<Queue>, i: nat, m: Move)
    requires InOrder(log, qs) && i < |qs| && Increasing(m.out, qs[i].base, m.queue.base)
    ensures InOrder(log + Tag(i, m.out), qs[i := m.queue])
  {
    var log', qs' := log + Tag(i, m.out), qs[i := m.queue];
    forall a | 0 <= a < |log'|
      ensures log'[a].lane < |qs'| && log'[a].at.pos < qs'[log'[a].lane].base &&
              log'[a].at.packet.key.sequence == Wrap(log'[a].at.pos)
    {
      assert a >= |log| ==> log'[a] == Logged(i, m.out[a - |log|]);
    }
    forall a, b | 0 <= a < b < |log'| && log'[a].lane == log'[b].lane ensures log'[a].at.pos < log'[b].at.pos {
      assert b >= |log| ==> log'[b] == Logged(i, m.out[b - |log|]);
      assert a >= |log| ==> log'[a] == Logged(i, m.out[a - |log|]);
    }
  }

  lemma ThenKeeps(r: Rules, o: Policy, t: Turn, i: nat, op: QueueOp)
    requires TurnOk(r, o, t) && i < |t.queues| && 0 < r.capacity < HALF
    ensures TurnOk(r, o, Then(o, t, i, Moves(r.capacity, r.maxDelay, t.queues[i], op)))
  {
    assert QueueOk(t.queues[i], r.capacity);
    var m := Moves(r.capacity, r.maxDelay, t.queues[i], op);
    MoveKeeps(r.capacity, r.maxDelay, t.queues[i], op);
    LogGrows(t.log, t.queues, i, m);
    if r.enabled {
      var at: seq<nat> :| Picks(o, t.desk.handed, t.log, at);
      at := HandInStep(o, t.desk, t.log, i, m.out, at);
    }
    SetKeepsLanes(t.queues, i, m.queue, r.capacity);
  }

  lemma ArriveKeeps(r: Rules, o: Policy, t: Turn, now: int, packet: Packet)
    requires TurnOk(r, o, t) && packet.key.lane < |t.queues| && (r.enabled ==> 0 < r.capacity < HALF)
    ensures TurnOk(r, o, ArriveTurn(r, o, t, now, packet)) && |ArriveTurn(r, o, t, now, packet).queues| == |t.queues|
  {
    var i, k := packet.key.lane, OldestOf(t.queues);
    if !r.enabled {
    } else if !OverBudget(r, t.queues, packet) {
      ThenKeeps(r, o, t, i, Arrive(now, packet));
    } else if k == i {
      ThenKeeps(r, o, t, i, FlushWith(packet));
    } else if k >= 0 {
      ThenKeeps(r, o, t, k, FlushAll);
      ThenKeeps(r, o, Then(o, t, k, FlushQueue(t.queues[k])), i, Arrive(now, packet));
    }
  }

  lemma TickOneKeeps(r: Rules, o: Policy, t: Turn, now: int, i: nat)
    requires TurnOk(r, o, t) && i < |t.queues| && 0 < r.capacity < HALF
    ensures TurnOk(r, o, TickOne(r, o, t, now, i))
  {
    ThenKeeps(r, o, t, i, TickAt(now));
  }

  lemma {:induction false} TickKeeps(r: Rules, o: Policy, t: Turn, now: int, n: nat)
    requires TurnOk(r, o, t) && n <= |t.queues| && 0 < r.capacity < HALF
    ensures TurnOk(r, o, TickTurn(r, o, t, now, n))
  {
    if n > 0 {
      TickKeeps(r, o, t, now, n - 1);
      TickOneKeeps(r, o, TickTurn(r, o, t, now, n - 1), now, n - 1);
    }
  }

  datatype Event = Arrival(now: int, packet: Packet) | Timer(now: int)

  /** Every call to the receiver starts with a sink that has not failed. */
  function Again(t: Turn): Turn { t.(desk := t.desk.(failed := false)) }

  /** The packets that arrive belong to one of n lanes. */
  predicate ForLanes(events: seq<Event>, n: nat) {
    forall i :: 0 <= i < |events| && events[i].Arrival? ==> events[i].packet.key.lane < n
  }

  ghost function TurnOf(r: Rules, o: Policy, t: Turn, e: Event): (u: Turn)
    requires e.Arrival? ==> e.packet.key.lane < |t.queues|
    ensures |u.queues| == |t.queues|
  {
    match e
    case Arrival(now, packet) => ArriveTurn(r, o, Again(t), now, packet)
    case Timer(now) => if r.enabled then TickTurn(r, o, Again(t), now, |t.queues|) else Again(t)
  }

  ghost function RunTurns(r: Rules, o: Policy, t: Turn, events: seq<Event>): (u: Turn)
    requires ForLanes(events, |t.queues|)
    ensures |u.queues| == |t.queues|
    decreases |events|
  {
    if events == [] then t
    else
      var n := |events| - 1;
      TurnOf(r, o, RunTurns(r, o, t, events[..n]), events[n])
  }

  lemma RunOneMore(r: Rules, o: Policy, t: Turn, events: seq<Event>, e: Event)
    requires ForLanes(events + [e], |t.queues|)
    ensures ForLanes(events, |t.queues|) && (e.Arrival? ==> e.packet.key.lane < |t.queues|)
    ensures RunTurns(r, o, t, events + [e]) == TurnOf(r, o, RunTurns(r, o, t, events), e)
  {
    assert (events + [e])[..|events|] == events && (events + [e])[|events|] == e;
    assert forall i :: 0 <= i < |events| ==> (events + [e])[i] == events[i];
  }

  lemma RunOfNone(r: Rules, o: Policy, t: Turn)
    ensures ForLanes([], |t.queues|) && RunTurns(r, o, t, []) == t
  {}

  lemma RunOfOne(r: Rules, o: Policy, t: Turn, e: Event)
    requires e.Arrival? ==> e.packet.key.lane < |t.queues|
    ensures ForLanes([e], |t.queues|) && RunTurns(r, o, t, [e]) == TurnOf(r, o, t, e)
  {
    RunOfNone(r, o, t);
    assert [e][..0] == [];
  }

  lemma NotFailed(t: Turn)
    requires !t.desk.failed
    ensures Again(t) == t
  {}

  /** A run goes on where the run before it ended. */
  lemma {:induction false} RunGoesOn(r: Rules, o: Policy, t: Turn, before: seq<Event>, after: seq<Event>)
    requires ForLanes(before, |t.queues|) && ForLanes(after, |t.queues|)
    ensures ForLanes(before + after, |t.queues|)
    ensures RunTurns(r, o, t, before + after) == RunTurns(r, o, RunTurns(r, o, t, before), after)
    decreases |after|
  {
    if after == [] {
      assert before + after == before;
    } else {
      var n := |after| - 1;
      RunGoesOn(r, o, t, before, after[..n]);
      assert before + after == before + after[..n] + [after[n]] && after == after[..n] + [after[n]];
      RunOneMore(r, o, t, before + after[..n], after[n]);
    }
  }

  /** Whatever arrives and however sink failures, budget flushes and the timer
      interleave, each lane's packets leave in the order of their sequence
      numbers, across any number of wraps, and reach the sink in that order. */
  lemma {:induction false} EveryRunIsInOrder(r: Rules, o: Policy, t: Turn, events: seq<Event>)
    requires TurnOk(r, o, t) && (r.enabled ==> 0 < r.capacity < HALF) && ForLanes(events, |t.queues|)
    ensures TurnOk(r, o, RunTurns(r, o, t, events))
    decreases |events|
  {
    if events != [] {
      var n := |events| - 1;
      EveryRunIsInOrder(r, o, t, events[..n]);
      TurnKeeps(r, o, RunTurns(r, o, t, events[..n]), events[n]);
    }
  }

  lemma TurnKeeps(r: Rules, o: Policy, t: Turn, e: Event)
    requires TurnOk(r, o, t) && (r.enabled ==> 0 < r.capacity < HALF)
    requires e.Arrival? ==> e.packet.key.lane < |t.queues|
    ensures TurnOk(r, o, TurnOf(r, o, t, e))
  {
    match e
    case Arrival(now, packet) => ArriveKeeps(r, o, Again(t), now, packet);
    case Timer(now) => if r.enabled { TickKeeps(r, o, Again(t), now, |t.queues|); }
  }

  /** What the sink got and what left the lanes is only added to. */
  ghost predicate Grows(t: Turn, u: Turn) {
    t.desk.handed <= u.desk.handed && t.log <= u.log
  }

  lemma ThenGrows(o: Policy, t: Turn, i: nat, m: Move)
    requires i < |t.queues|
    ensures Grows(t, Then(o, t, i, m))
  {
    OnlyAdmissibleHanded(o, t.desk, Packets(m.out));
  }

  lemma ArriveGrows(r: Rules, o: Policy, t: Turn, now: int, packet: Packet)
    requires packet.key.lane < |t.queues|
    ensures Grows(t, ArriveTurn(r, o, t, now, packet))
  {
    var i, k := packet.key.lane, OldestOf(t.queues);
    if !r.enabled {
      OnlyAdmissibleHanded(o, t.desk, [packet]);
    } else if !OverBudget(r, t.queues, packet) {
      ThenGrows(o, t, i, AcceptQueue(r.capacity, t.queues[i], now, packet));
    } else if k == i {
      ThenGrows(o, t, i, FlushIncludingQueue(t.queues[i], packet));
    } else if k >= 0 {
      var u := Then(o, t, k, FlushQueue(t.queues[k]));
      ThenGrows(o, t, k, FlushQueue(t.queues[k]));
      ThenGrows(o, u, i, AcceptQueue(r.capacity, u.queues[i], now, packet));
    }
  }

  lemma {:induction false} TickGrows(r: Rules, o: Policy, t: Turn, now: int, n: nat)
    requires n <= |t.queues|
    ensures Grows(t, TickTurn(r, o, t, now, n))
  {
    if n > 0 {
      TickGrows(r, o, t, now, n - 1);
      var u := TickTurn(r, o, t, now, n - 1);
      ThenGrows(o, u, n - 1, TickQueue(u.queues[n - 1], r.maxDelay, now));
    }
  }

  lemma {:induction false} TurnsGrow(r: Rules, o: Policy, t: Turn, events: seq<Event>)
    requires ForLanes(events, |t.queues|)
    ensures Grows(t, RunTurns(r, o, t, events))
    decreases |events|
  {
    if events != [] {
      var n := |events| - 1;
      TurnsGrow(r, o, t, events[..n]);
      var u := RunTurns(r, o, t, events[..n]);
      match events[n]
      case Arrival(now, packet) => ArriveGrows(r, o, Again(u), now, packet);
      case Timer(now) => TickGrows(r, o, Again(u), now, |u.queues|);
    }
  }

  /** The timer has nothing to do while no packet waits. */
  lemma {:induction false} IdleTick(r: Rules, o: Policy, t: Turn, now: int, n: nat)
    requires n <= |t.queues| && forall i :: 0 <= i < |t.queues| ==> t.queues[i].gap.None?
    ensures TickTurn(r, o, t, now, n) == t
  {
    if n > 0 {
      IdleTick(r, o, t, now, n - 1);
      assert t.queues[n - 1 := t.queues[n - 1]] == t.queues;
      assert t.log + Tag(n - 1, []) == t.log;
    }
  }
}
