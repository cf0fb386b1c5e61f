/** The accounts of a receiver (internal/core/datapath/receiver.go): which completed
    packets exist, where they wait and until when. */
module ReceiverSpec {
  import opened Wire
  import opened PoolSpec
  import opened PoolTheorems
  import opened Reorder

  // ----- completed packets

  /** x is the packet of a completed slot. */
  predicate IsDone(p: Pool, x: Packet) {
    && 0 <= x.handle.index < |p.slots| && p.slots[x.handle.index].state == Whole
    && p.slots[x.handle.index].packetLen <= |p.slots[x.handle.index].buf|
    && x == PacketOf(p.slots[x.handle.index], x.handle.index)
  }

  function Done(p: Pool, x: Packet): nat { if IsDone(p, x) then 1 else 0 }

  /** How many slots hold a completed packet. */
  function CountWhole(slots: seq<Slot>): nat {
    if slots == [] then 0 else CountWhole(slots[..|slots| - 1]) + if slots[|slots| - 1].state == Whole then 1 else 0
  }

  lemma {:induction false} CountWholeUpdate(slots: seq<Slot>, i: nat, s: Slot)
    requires i < |slots|
    ensures CountWhole(slots[i := s])
         == CountWhole(slots) - (if slots[i].state == Whole then 1 else 0) + (if s.state == Whole then 1 else 0)
  {
    var n := |slots| - 1;
    if i == n {
      assert slots[i := s][..n] == slots[..n];
    } else {
      CountWholeUpdate(slots[..n], i, s);
      assert slots[i := s][..n] == slots[..n][i := s];
    }
  }

  lemma {:induction false} CountWholeSame(a: seq<Slot>, b: seq<Slot>)
    requires |a| == |b| && forall i :: 0 <= i < |a| ==> (a[i].state == Whole <==> b[i].state == Whole)
    ensures CountWhole(a) == CountWhole(b)
  {
    if a != [] { CountWholeSame(a[..|a| - 1], b[..|b| - 1]); }
  }

  lemma {:induction false} CountWholeAll(slots: seq<Slot>)
    ensures CountWhole(slots) <= |slots|
    ensures CountWhole(slots) < |slots| ==> exists i :: 0 <= i < |slots| && slots[i].state != Whole
  {
    if slots != [] { CountWholeAll(slots[..|slots| - 1]); }
  }

  /** Both pools have the same completed packets. */
  predicate SameWhole(p: Pool, q: Pool) {
    |p.slots| == |q.slots|
    && forall i {:trigger WholeKept(p, q, i)} :: 0 <= i < |p.slots| ==> WholeKept(p, q, i)
  }

  predicate WholeKept(p: Pool, q: Pool, i: nat)
    requires i < |p.slots| == |q.slots|
  {
    p.slots[i].state == Whole || q.slots[i].state == Whole ==> p.slots[i] == q.slots[i]
  }

  lemma SameWholeSameDone(p: Pool, q: Pool, x: Packet)
    requires SameWhole(p, q)
    ensures Done(p, x) == Done(q, x) && CountWhole(p.slots) == CountWhole(q.slots)
  {
    if 0 <= x.handle.index < |p.slots| { assert WholeKept(p, q, x.handle.index); }
    forall i | 0 <= i < |p.slots|
      ensures p.slots[i].state == Whole <==> q.slots[i].state == Whole
    {
      assert WholeKept(p, q, i);
    }
    CountWholeSame(p.slots, q.slots);
  }

  lemma ReleaseDone(c: Config, p: Pool, y: Packet, x: Packet)
    requires Inv(c, p) && IsDone(p, y)
    ensures Release(p, y.handle).1.None?
    ensures var q := Release(p, y.handle).0;
            Inv(c, q) && Done(q, x) + One(y, x) == Done(p, x) && CountWhole(q.slots) + 1 == CountWhole(p.slots)
  {
    var i := y.handle.index;
    StepKeepsInv(c, p, ReleaseOp(y.handle));
    CountWholeUpdate(p.slots, i, Cleared(p.slots[i]));
  }

  /** A pool with one more completed packet y. */
  lemma OneMoreDone(p: Pool, q: Pool, y: Packet, x: Packet)
    requires |p.slots| == |q.slots| && IsDone(q, y) && p.slots[y.handle.index].state != Whole
    requires forall i :: 0 <= i < |p.slots| && i != y.handle.index ==> WholeKept(p, q, i)
    ensures Done(q, x) == Done(p, x) + One(y, x) && CountWhole(q.slots) == CountWhole(p.slots) + 1
  {
    var j := y.handle.index;
    var back := q.(slots := q.slots[j := p.slots[j]]);
    forall i | 0 <= i < |p.slots| ensures WholeKept(p, back, i) { assert i != j ==> WholeKept(p, q, i); }
    SameWholeSameDone(p, back, x);
    CountWholeUpdate(q.slots, j, p.slots[j]);
  }

  predicate Completes(t: Step) {
    t.outcome.Done? && t.outcome.status.Completed?
  }

  lemma AcceptKeepsWhole(c: Config, p: Pool, now: int, key: Key, r: Record, i: nat)
    requires Inv(c, p) && i < |p.slots|
    ensures var t := Accept(c, p, now, key, r);
            (Completes(t) && i == t.outcome.status.packet.handle.index) || WholeKept(p, t.pool, i)
  {
    if p.slots[i].state == Whole { AcceptSparesWhole(c, p, now, key, r, i); }
    AcceptCompletesItsOwn(c, p, now, key, r);
  }

  lemma AcceptDone(c: Config, p: Pool, now: int, key: Key, r: Record, x: Packet)
    requires Inv(c, p)
    ensures var t := Accept(c, p, now, key, r);
            Inv(c, t.pool)
            && (Completes(t) ==>
                 t.outcome.status.packet.key == key && CountWhole(t.pool.slots) == CountWhole(p.slots) + 1)
            && (Completes(t) ==> Done(t.pool, x) == Done(p, x) + One(t.outcome.status.packet, x))
            && (!Completes(t) ==> Done(t.pool, x) == Done(p, x) && CountWhole(t.pool.slots) == CountWhole(p.slots))
  {
    var t := Accept(c, p, now, key, r);
    AcceptKeepsInv(c, p, now, key, r);
    AcceptCompletesItsOwn(c, p, now, key, r);
    forall i | 0 <= i < |p.slots| && !(Completes(t) && i == t.outcome.status.packet.handle.index)
      ensures WholeKept(p, t.pool, i)
    {
      AcceptKeepsWhole(c, p, now, key, r, i);
    }
    if Completes(t) {
      var y := t.outcome.status.packet;
      if p.slots[y.handle.index].state == Whole { AcceptSparesWhole(c, p, now, key, r, y.handle.index); }
      OneMoreDone(p, t.pool, y, x);
    } else {
      SameWholeSameDone(p, t.pool, x);
    }
  }

  lemma ExpireDone(c: Config, p: Pool, now: int, x: Packet)
    requires Inv(c, p)
    ensures var q := ExpireUpTo(c, p, now, |p.slots|);
            Inv(c, q) && Done(q, x) == Done(p, x) && CountWhole(q.slots) == CountWhole(p.slots)
  {
    var q := ExpireUpTo(c, p, now, |p.slots|);
    StepKeepsInv(c, p, ExpireOp(now));
    forall i | 0 <= i < |p.slots| ensures WholeKept(p, q, i) {
      if p.slots[i].state == Whole { ExpireSparesWhole(c, p, now, |p.slots|, i); }
      ExpireMakesNone(c, p, now, |p.slots|, i);
    }
    SameWholeSameDone(p, q, x);
  }

  lemma {:induction false} ExpireMakesNone(c: Config, p: Pool, now: int, n: nat, i: nat)
    requires n <= |p.slots| && i < |p.slots|
    ensures ExpireUpTo(c, p, now, n).slots[i].state == Whole ==> ExpireUpTo(c, p, now, n).slots[i] == p.slots[i]
  {
    if n > 0 { ExpireMakesNone(c, p, now, n - 1, i); }
  }

  // ----- packets waiting in the lanes

  /** How often x is held over all lanes, and how many packets are held. */
  ghost function HeldOcc(qs: seq<Queue>, x: Packet): nat {
    if qs == [] then 0 else HeldOcc(qs[..|qs| - 1], x) + OccHeld(qs[|qs| - 1].held, x)
  }

  function HeldCount(qs: seq<Queue>): nat {
    if qs == [] then 0 else HeldCount(qs[..|qs| - 1]) + |qs[|qs| - 1].held|
  }

  lemma {:induction false} HeldUpdate(qs: seq<Queue>, i: nat, q: Queue, x: Packet)
    requires i < |qs|
    ensures HeldOcc(qs[i := q], x) + OccHeld(qs[i].held, x) == HeldOcc(qs, x) + OccHeld(q.held, x)
    ensures HeldCount(qs[i := q]) + |qs[i].held| == HeldCount(qs) + |q.held|
  {
    var n := |qs| - 1;
    if i == n {
      assert qs[i := q][..n] == qs[..n];
    } else {
      HeldUpdate(qs[..n], i, q, x);
      assert qs[i := q][..n] == qs[..n][i := q];
    }
  }

  /** The packets that wait in the lanes or are on their way out are exactly the
      completed packets of the pool, each once. */
  ghost predicate Balanced(p: Pool, qs: seq<Queue>, flight: seq<Packet>) {
    && (forall x {:trigger Done(p, x)} :: HeldOcc(qs, x) + Occ(flight, x) == Done(p, x))
    && HeldCount(qs) + |flight| == CountWhole(p.slots)
  }

  // ----- the earliest deadline

  function Earlier(a: Option<int>, b: Option<int>): Option<int> {
    if a.None? then b else if b.None? then a else if b.value < a.value then b else a
  }

  function DeadlineOf(q: Queue, maxDelay: int): Option<int> {
    if q.gap.Some? then Some(q.gap.value + maxDelay) else None
  }

  function Earliest(qs: seq<Queue>, maxDelay: int): Option<int> {
    if qs == [] then None else Earlier(Earliest(qs[..|qs| - 1], maxDelay), DeadlineOf(qs[|qs| - 1], maxDelay))
  }

  /** Earliest is the minimum of the lanes' deadlines. */
  lemma {:induction false} EarliestIsMinimum(qs: seq<Queue>, maxDelay: int)
    ensures Earliest(qs, maxDelay).None? <==> forall i :: 0 <= i < |qs| ==> qs[i].gap.None?
    ensures Earliest(qs, maxDelay).Some? ==>
              (exists i :: 0 <= i < |qs| && DeadlineOf(qs[i], maxDelay) == Earliest(qs, maxDelay))
              && forall i ::
                   0 <= i < |qs| && qs[i].gap.Some? ==> Earliest(qs, maxDelay).value <= qs[i].gap.value + maxDelay
  {
    if qs != [] {
      var n := |qs| - 1;
      EarliestIsMinimum(qs[..n], maxDelay);
      assert forall i :: 0 <= i < n ==> qs[..n][i] == qs[i];
    }
  }

  lemma EarliestDetermined(qs: seq<Queue>, maxDelay: int, d: int, i: nat)
    requires i < |qs| && DeadlineOf(qs[i], maxDelay) == Some(d)
    requires forall j :: 0 <= j < |qs| && qs[j].gap.Some? ==> d <= qs[j].gap.value + maxDelay
    ensures Earliest(qs, maxDelay) == Some(d)
  {
    EarliestIsMinimum(qs, maxDelay);
  }

  // ----- how each step moves packets

  lemma {:induction false} OccPackets(out: seq<Slotted>, x: Packet)
    ensures Occ(Packets(out), x) == OccOut(out, x)
  {
    if out != [] {
      OccPackets(out[1..], x);
      assert out == [out[0]] + out[1..];
      PacketsCons(out[0], out[1..]);
      assert Packets(out)[1..] == Packets(out[1..]);
    }
  }

  lemma AcceptBalances(c: Config, p: Pool, qs: seq<Queue>, now: int, key: Key, r: Record)
    requires Inv(c, p) && Balanced(p, qs, [])
    ensures var t := Accept(c, p, now, key, r);
            && Inv(c, t.pool) && Balanced(t.pool, qs, if Completes(t) then [t.outcome.status.packet] else [])
            && (Completes(t) ==> t.outcome.status.packet.key == key)
  {
    var t := Accept(c, p, now, key, r);
    AcceptDone(c, p, now, key, r, Packet(Handle(0, 0), NO_KEY, []));
    forall x
      ensures HeldOcc(qs, x) + Occ(if Completes(t) then [t.outcome.status.packet] else [], x) == Done(t.pool, x)
    {
      AcceptDone(c, p, now, key, r, x);
      assert HeldOcc(qs, x) + Occ([], x) == Done(p, x);
    }
  }

  lemma ExpireBalances(c: Config, p: Pool, qs: seq<Queue>, now: int)
    requires Inv(c, p) && Balanced(p, qs, [])
    ensures var q := ExpireUpTo(c, p, now, |p.slots|); Inv(c, q) && Balanced(q, qs, [])
  {
    var q := ExpireUpTo(c, p, now, |p.slots|);
    ExpireDone(c, p, now, Packet(Handle(0, 0), NO_KEY, []));
    forall x ensures HeldOcc(qs, x) + Occ([], x) == Done(q, x) {
      ExpireDone(c, p, now, x);
      assert HeldOcc(qs, x) + Occ([], x) == Done(p, x);
    }
  }

  /** A packet on its way out can be released, which takes it off the accounts. */
  lemma ReleaseBalances(c: Config, p: Pool, qs: seq<Queue>, flight: seq<Packet>)
    requires Inv(c, p) && Balanced(p, qs, flight) && flight != []
    ensures IsDone(p, flight[0]) && Release(p, flight[0].handle).1.None?
    ensures var q := Release(p, flight[0].handle).0; Inv(c, q) && Balanced(q, qs, flight[1..])
  {
    var y := flight[0];
    assert HeldOcc(qs, y) + Occ(flight, y) == Done(p, y);
    var q := Release(p, y.handle).0;
    ReleaseDone(c, p, y, y);
    forall x ensures HeldOcc(qs, x) + Occ(flight[1..], x) == Done(q, x) {
      ReleaseDone(c, p, y, x);
      assert HeldOcc(qs, x) + Occ(flight, x) == Done(p, x);
    }
  }

  /** A lane that trades held packets for packets on their way out keeps the balance. */
  lemma LaneBalances(p: Pool, qs: seq<Queue>, i: nat, q: Queue, flight: seq<Packet>, flight': seq<Packet>)
    requires Balanced(p, qs, flight) && i < |qs|
    requires forall x {:trigger OccHeld(q.held, x)} ::
             OccHeld(qs[i].held, x) + Occ(flight, x) == OccHeld(q.held, x) + Occ(flight', x)
    requires |qs[i].held| + |flight| == |q.held| + |flight'|
    ensures Balanced(p, qs[i := q], flight')
  {
    HeldUpdate(qs, i, q, Packet(Handle(0, 0), NO_KEY, []));
    var qs' := qs[i := q];
    forall x ensures HeldOcc(qs', x) + Occ(flight', x) == Done(p, x) {
      HeldUpdate(qs, i, q, x);
      assert HeldOcc(qs, x) + Occ(flight, x) == Done(p, x);
    }
  }

  lemma ArriveBalances(p: Pool, qs: seq<Queue>, i: nat, capacity: nat, now: int, packet: Packet)
    requires Balanced(p, qs, [packet]) && i < |qs| && QueueOk(qs[i], capacity) && 0 < capacity < HALF
    ensures var m := AcceptQueue(capacity, qs[i], now, packet);
            QueueOk(m.queue, capacity) && |m.out| <= capacity + 1 &&
                |m.queue.held| + |m.out| + |Dropped(m, packet)| == |qs[i].held| + 1
            && Balanced(p, qs[i := m.queue], Packets(m.out) + Dropped(m, packet))
  {
    var m := AcceptQueue(capacity, qs[i], now, packet);
    AcceptQueueKeeps(capacity, qs[i], now, packet);
    forall x
      ensures OccHeld(qs[i].held, x) + Occ([packet], x) == OccHeld(m.queue.held, x)
              + Occ(Packets(m.out) + Dropped(m, packet), x)
    {
      AcceptQueueConserves(capacity, qs[i], now, packet, x);
      OccPackets(m.out, x);
      OccAppend(Packets(m.out), Dropped(m, packet), x);
    }
    LaneBalances(p, qs, i, m.queue, [packet], Packets(m.out) + Dropped(m, packet));
  }

  lemma FlushBalances(p: Pool, qs: seq<Queue>, i: nat, capacity: nat, flight: seq<Packet>)
    requires Balanced(p, qs, flight) && i < |qs| && QueueOk(qs[i], capacity)
    ensures var m := FlushQueue(qs[i]);
            QueueOk(m.queue, capacity) && |m.out| == |qs[i].held| <= capacity && m.queue.held == map[]
            && Balanced(p, qs[i := m.queue], Packets(m.out) + flight)
  {
    var m := FlushQueue(qs[i]);
    HeldAhead(qs[i].base, qs[i].held);
    HeldPlaced(qs[i].base, qs[i].held);
    FlushQueueKeeps(qs[i], capacity);
    forall x
      ensures OccHeld(qs[i].held, x) + Occ(flight, x) == OccHeld(m.queue.held, x) + Occ(Packets(m.out) + flight, x)
    {
      FlushConserves(qs[i].base, qs[i].held, x);
      OccPackets(m.out, x);
      OccAppend(Packets(m.out), flight, x);
    }
    LaneBalances(p, qs, i, m.queue, flight, Packets(m.out) + flight);
  }

  lemma FlushWithBalances(p: Pool, qs: seq<Queue>, i: nat, capacity: nat, packet: Packet)
    requires Balanced(p, qs, [packet]) && i < |qs| && QueueOk(qs[i], capacity) && 0 < capacity < HALF
    ensures var m := FlushIncludingQueue(qs[i], packet);
            QueueOk(m.queue, capacity) && |m.out| == |qs[i].held| + 1 && m.queue.held == map[]
            && Balanced(p, qs[i := m.queue], Packets(m.out))
  {
    var m := FlushIncludingQueue(qs[i], packet);
    FlushIncludingKeeps(qs[i], packet, capacity);
    forall x ensures OccHeld(qs[i].held, x) + Occ([packet], x) == OccHeld(m.queue.held, x) + Occ(Packets(m.out), x) {
      MoveConserves(capacity, 0, qs[i], FlushWith(packet), x);
      OccPackets(m.out, x);
    }
    LaneBalances(p, qs, i, m.queue, [packet], Packets(m.out));
  }

  // ----- deadlines after a step

  lemma {:induction false} EarliestAppendSame(qs: seq<Queue>, i: nat, q: Queue, maxDelay: int)
    requires i < |qs| && q.gap == qs[i].gap
    ensures Earliest(qs[i := q], maxDelay) == Earliest(qs, maxDelay)
  {
    var n := |qs| - 1;
    if i == n {
      assert qs[i := q][..n] == qs[..n];
    } else {
      EarliestAppendSame(qs[..n], i, q, maxDelay);
      assert qs[i := q][..n] == qs[..n][i := q];
    }
  }

  /** A lane that starts to wait, or goes on waiting, can only make the deadline earlier. */
  lemma {:induction false} EarliestAfterQueued(qs: seq<Queue>, i: nat, q: Queue, maxDelay: int)
    requires i < |qs| && q.gap.Some? && (qs[i].gap.None? || qs[i].gap == q.gap)
    ensures Earliest(qs[i := q], maxDelay) == Earlier(Earliest(qs, maxDelay), DeadlineOf(q, maxDelay))
  {
    EarliestIsMinimum(qs, maxDelay);
    var qs' := qs[i := q];
    var d := Earlier(Earliest(qs, maxDelay), DeadlineOf(q, maxDelay)).value;
    if d == q.gap.value + maxDelay {
      EarliestDetermined(qs', maxDelay, d, i);
    } else {
      var j :| 0 <= j < |qs| && DeadlineOf(qs[j], maxDelay) == Earliest(qs, maxDelay);
      EarliestDetermined(qs', maxDelay, d, j);
    }
  }

  ghost predicate LanesOk(qs: seq<Queue>, capacity: nat) {
    forall i {:trigger QueueOk(qs[i], capacity)} :: 0 <= i < |qs| ==> QueueOk(qs[i], capacity)
  }

  lemma SetKeepsLanes(qs: seq<Queue>, i: nat, q: Queue, capacity: nat)
    requires LanesOk(qs, capacity) && i < |qs| && QueueOk(q, capacity)
    ensures LanesOk(qs[i := q], capacity)
  {
    var qs' := qs[i := q];
    forall j | 0 <= j < |qs'| ensures QueueOk(qs'[j], capacity) { assert j != i ==> QueueOk(qs[j], capacity); }
  }

  lemma {:induction false} NothingHeld(qs: seq<Queue>, capacity: nat, maxDelay: int)
    requires LanesOk(qs, capacity)
    ensures HeldCount(qs) == 0 <==> Earliest(qs, maxDelay).None?
    ensures HeldCount(qs) == 0 <==> forall i :: 0 <= i < |qs| ==> qs[i].held == map[]
  {
    if qs != [] {
      var n := |qs| - 1;
      forall i | 0 <= i < n ensures QueueOk(qs[..n][i], capacity) { assert QueueOk(qs[i], capacity); }
      NothingHeld(qs[..n], capacity, maxDelay);
      assert QueueOk(qs[n], capacity);
      assert forall i :: 0 <= i < n ==> qs[..n][i] == qs[i];
    }
  }

  /** Of an arriving packet only a queued one makes the lane hold more. */
  lemma QueuedIffWould(capacity: nat, q: Queue, now: int, packet: Packet)
    requires QueueOk(q, capacity)
    ensures AcceptQueue(capacity, q, now, packet).fate == Queued <==> WouldQueue(capacity, q, packet.key.sequence)
  {}

  /** What an arrival does to its lane's gap. */
  lemma GapAfterArrival(capacity: nat, q: Queue, now: int, packet: Packet)
    requires QueueOk(q, capacity)
    ensures var m := AcceptQueue(capacity, q, now, packet);
            && (m.fate == Queued ==> m.queue.gap.Some? && (q.gap.None? || q.gap == m.queue.gap))
            && (m.fate == Delivered && |m.out| == 1 ==> m.queue.gap == q.gap)
  {
    var m := AcceptQueue(capacity, q, now, packet);
    if m.fate == Queued && q.held != map[] { assert q.gap.Some?; }
  }

  /** What an arrival does to the number of held packets and to the deadline. */
  lemma AfterArrival(qs: seq<Queue>, i: nat, capacity: nat, now: int, packet: Packet, maxDelay: int)
    requires i < |qs| && QueueOk(qs[i], capacity) && 0 < capacity < HALF
    ensures var m := AcceptQueue(capacity, qs[i], now, packet); var qs' := qs[i := m.queue];
            && HeldCount(qs') + |m.out| + |Dropped(m, packet)| == HeldCount(qs) + 1
            && (m.fate == Late || m.fate == Repeated ==> qs' == qs && m.out == [])
            && (m.fate == Queued ==>
                 m.out == [] && m.queue.gap.Some? &&
                 Earliest(qs', maxDelay) == Earlier(Earliest(qs, maxDelay), DeadlineOf(m.queue, maxDelay)))
            && (m.fate == Delivered || m.fate == Flushed ==> |m.out| > 0)
            && (m.fate == Delivered && |m.out| == 1 ==> Earliest(qs', maxDelay) == Earliest(qs, maxDelay))
  {
    var q := qs[i];
    var m := AcceptQueue(capacity, q, now, packet);
    AcceptQueueKeeps(capacity, q, now, packet);
    GapAfterArrival(capacity, q, now, packet);
    HeldUpdate(qs, i, m.queue, packet);
    if m.fate == Queued { EarliestAfterQueued(qs, i, m.queue, maxDelay); }
    if m.fate == Delivered && |m.out| == 1 { EarliestAppendSame(qs, i, m.queue, maxDelay); }
  }

  // ----- room for new packets

  lemma {:induction false} CountPeerFull(slots: seq<Slot>, peer: nat)
    ensures CountPeer(slots, peer) <= |slots|
    ensures CountPeer(slots, peer) == |slots| ==> forall i :: 0 <= i < |slots| ==> Counts(slots[i], peer)
  {
    if slots != [] {
      var n := |slots| - 1;
      CountPeerFull(slots[..n], peer);
      assert forall i :: 0 <= i < n ==> slots[..n][i] == slots[i];
    }
  }

  lemma AllocateSucceeds(c: Config, p: Pool, now: int, key: Key, count: nat)
    requires Inv(c, p) && c.perPeerSlots == c.slots && CountWhole(p.slots) < c.slots
    ensures Allocate(c, p, now, key, count).index >= 0
  {
    CountWholeAll(p.slots);
    var i :| 0 <= i < |p.slots| && p.slots[i].state != Whole;
    assert Shape(c, p.slots[i]);
    CountPeerFull(p.slots, key.peer);
    if p.slots[i].state == Free {
      assert i in p.free;
    } else {
      assert Evictable(p.slots[i], None) && (Counts(p.slots[i], key.peer) ==> Evictable(p.slots[i], Some(key.peer)));
    }
  }

  lemma PrepareSucceeds(c: Config, p: Pool, now: int, key: Key, count: nat)
    requires Inv(c, p) && c.perPeerSlots == c.slots && CountWhole(p.slots) < c.slots
    ensures Prepare(c, p, now, key, count).index >= 0
  {
    var i := Find(p.slots, key);
    if i >= 0 {
      ClearKeepsInv(c, p, i);
      CountWholeUpdate(p.slots, i, Cleared(p.slots[i]));
    }
    var q := DropIf(c, p, key, s => Expired(c, s, now));
    if Find(q.slots, key) < 0 { AllocateSucceeds(c, q, now, key, count); }
  }

  lemma DeliverHasRoom(c: Config, p: Pool, i: nat, r: Record, evicted: Option<Key>)
    requires Core(c, p) && i < |p.slots| && Live(p.slots[i]) && CheckRecord(c, p.slots[i].key, r).None?
    ensures Deliver(c, p, i, r, evicted).outcome != Failed(PeerQuota) &&
            Deliver(c, p, i, r, evicted).outcome != Failed(NoSlot)
  {}

  /** While the reorder queues leave one slot, no record is refused for want of a slot. */
  lemma NeverOutOfSlots(c: Config, p: Pool, now: int, key: Key, r: Record)
    requires Inv(c, p) && c.perPeerSlots == c.slots && CountWhole(p.slots) < c.slots
    ensures Accept(c, p, now, key, r).outcome != Failed(PeerQuota) &&
            Accept(c, p, now, key, r).outcome != Failed(NoSlot)
  {
    if CheckKey(c, key).None? && CheckRecord(c, key, r).None? {
      var n := r.header.fragmentCount;
      var a := Prepare(c, p, now, key, n);
      PrepareSucceeds(c, p, now, key, n);
      PrepareKeepsCore(c, p, now, key, n);
      DeliverHasRoom(c, a.pool, a.index, r, a.evicted);
    }
  }

  // ----- the beginning

  lemma {:induction false} EmptyLanes(qs: seq<Queue>, x: Packet, maxDelay: int)
    requires forall i :: 0 <= i < |qs| ==> qs[i].held == map[] && qs[i].gap == None
    ensures HeldOcc(qs, x) == 0 && HeldCount(qs) == 0 && Earliest(qs, maxDelay) == None
  {
    if qs != [] { EmptyLanes(qs[..|qs| - 1], x, maxDelay); }
  }

  lemma FreshAccounts(c: Config, qs: seq<Queue>, maxDelay: int)
    requires ConfigOk(c) && forall i :: 0 <= i < |qs| ==> qs[i] == Queue(0, map[], None)
    ensures Balanced(Fresh(c), qs, []) && HeldCount(qs) == 0 && Earliest(qs, maxDelay) == None
  {
    var p := Fresh(c);
    NoneWhole(p.slots);
    EmptyLanes(qs, Packet(Handle(0, 0), NO_KEY, []), maxDelay);
    forall x ensures HeldOcc(qs, x) + Occ([], x) == Done(p, x) { EmptyLanes(qs, x, maxDelay); }
  }

  lemma {:induction false} NoneWhole(slots: seq<Slot>)
    requires forall i :: 0 <= i < |slots| ==> slots[i].state == Free
    ensures CountWhole(slots) == 0
  {
    if slots != [] { NoneWhole(slots[..|slots| - 1]); }
  }
}
