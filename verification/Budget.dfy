/** The reorder budget of a receiver (internal/core/datapath/receiver.go): all lanes
    together never hold more, and no lane gives way below it. */
module Budget {
  import opened Wire
  import opened PoolSpec
  import opened Reorder
  import opened ReceiverSpec
  import opened Delivery

  const NO_PACKET := Packet(Handle(0, 0), NO_KEY, [])

  /** The packets held when lane i makes the move m. */
  lemma ThenHeld(o: Policy, t: Turn, i: nat, m: Move)
    requires i < |t.queues|
    ensures HeldCount(Then(o, t, i, m).queues) + |t.queues[i].held| == HeldCount(t.queues) + |m.queue.held|
  {
    HeldUpdate(t.queues, i, m.queue, NO_PACKET);
  }

  lemma {:induction false} LaneWithinAll(qs: seq<Queue>, i: nat)
    requires i < |qs|
    ensures |qs[i].held| <= HeldCount(qs)
  {
    if i < |qs| - 1 { LaneWithinAll(qs[..|qs| - 1], i); }
  }

  /** A lane comes to hold one packet more exactly if that is ahead of the next
      one, not yet held and the lane not full. */
  lemma HoldsOneMore(capacity: nat, q: Queue, now: int, packet: Packet)
    requires QueueOk(q, capacity) && 0 < capacity < HALF
    ensures var held := |AcceptQueue(capacity, q, now, packet).queue.held|;
            held <= |q.held| + (if WouldQueue(capacity, q, packet.key.sequence) then 1 else 0)
  {
    AcceptQueueKeeps(capacity, q, now, packet);
    QueuedIffWould(capacity, q, now, packet);
  }

  lemma ArrivalWithinBudget(r: Rules, o: Policy, t: Turn, now: int, packet: Packet)
    requires r.enabled && 0 < r.capacity < HALF && LanesOk(t.queues, r.capacity) && packet.key.lane < |t.queues|
    requires HeldCount(t.queues) <= r.budget
    ensures HeldCount(ArriveTurn(r, o, t, now, packet).queues) <= r.budget
  {
    var i, k := packet.key.lane, OldestOf(t.queues);
    assert QueueOk(t.queues[i], r.capacity);
    if !OverBudget(r, t.queues, packet) {
      HoldsOneMore(r.capacity, t.queues[i], now, packet);
      ThenHeld(o, t, i, AcceptQueue(r.capacity, t.queues[i], now, packet));
    } else if k == i {
      FlushIncludingKeeps(t.queues[i], packet, r.capacity);
      ThenHeld(o, t, i, FlushIncludingQueue(t.queues[i], packet));
    } else if k >= 0 {
      RoomWithinBudget(r, o, t, now, packet, k);
    }
  }

  lemma RoomWithinBudget(r: Rules, o: Policy, t: Turn, now: int, packet: Packet, k: nat)
    requires 0 < r.capacity < HALF && LanesOk(t.queues, r.capacity) && packet.key.lane < |t.queues|
    requires HeldCount(t.queues) <= r.budget && k < |t.queues| && k != packet.key.lane && t.queues[k].gap.Some?
    ensures var u := Then(o, t, k, FlushQueue(t.queues[k]));
            var v := Then(o, u, packet.key.lane, AcceptQueue(r.capacity, u.queues[packet.key.lane], now, packet));
            HeldCount(u.queues) <= r.budget && HeldCount(v.queues) <= r.budget
  {
    var i, u := packet.key.lane, Then(o, t, k, FlushQueue(t.queues[k]));
    assert QueueOk(t.queues[k], r.capacity) && QueueOk(t.queues[i], r.capacity);
    MoveKeeps(r.capacity, r.maxDelay, t.queues[k], FlushAll);
    ThenHeld(o, t, k, FlushQueue(t.queues[k]));
    LaneWithinAll(t.queues, k);
    assert u.queues[i] == t.queues[i] && |t.queues[k].held| >= 1;
    HoldsOneMore(r.capacity, u.queues[i], now, packet);
    ThenHeld(o, u, i, AcceptQueue(r.capacity, u.queues[i], now, packet));
  }

  lemma {:induction false} TickWithinBudget(r: Rules, o: Policy, t: Turn, now: int, n: nat)
    requires n <= |t.queues|
    ensures HeldCount(TickTurn(r, o, t, now, n).queues) <= HeldCount(t.queues)
  {
    if n > 0 {
      TickWithinBudget(r, o, t, now, n - 1);
      var u := TickTurn(r, o, t, now, n - 1);
      ThenHeld(o, u, n - 1, TickQueue(u.queues[n - 1], r.maxDelay, now));
    }
  }

  /** Over every run the lanes together hold no more than the budget. */
  lemma {:induction false} EveryRunWithinBudget(r: Rules, o: Policy, t: Turn, events: seq<Event>)
    requires r.enabled && 0 < r.capacity < HALF && TurnOk(r, o, t) && ForLanes(events, |t.queues|)
    requires HeldCount(t.queues) <= r.budget
    ensures HeldCount(RunTurns(r, o, t, events).queues) <= r.budget
    decreases |events|
  {
    if events != [] {
      var n := |events| - 1;
      EveryRunWithinBudget(r, o, t, events[..n]);
      EveryRunIsInOrder(r, o, t, events[..n]);
      var u := Again(RunTurns(r, o, t, events[..n]));
      match events[n]
      case Arrival(now, packet) => ArrivalWithinBudget(r, o, u, now, packet);
      case Timer(now) => TickWithinBudget(r, o, u, now, |u.queues|);
    }
  }

  /** Below the budget, and for a packet that does not have to wait, no other lane is
      touched. At the budget the lane whose gap is oldest sends all it holds. */
  lemma GivesWayExactly(r: Rules, o: Policy, t: Turn, now: int, packet: Packet, i: nat)
    requires r.enabled && LanesOk(t.queues, r.capacity) && packet.key.lane < |t.queues|
    requires i < |t.queues| && i != packet.key.lane
    ensures var u, w := ArriveTurn(r, o, t, now, packet),
            AcceptQueue(r.capacity, t.queues[packet.key.lane], now, packet);
            && (HeldCount(t.queues) < r.budget || w.fate != Queued || i != OldestOf(t.queues) ==>
                  u.queues[i] == t.queues[i])
            && (HeldCount(t.queues) >= r.budget && w.fate == Queued && i == OldestOf(t.queues) ==>
                  u.queues[i].held == map[])
  {
    assert QueueOk(t.queues[packet.key.lane], r.capacity);
    QueuedIffWould(r.capacity, t.queues[packet.key.lane], now, packet);
  }
}
