/** The interface-wide CONTROL scheduler
    (internal/wgadapter/shimtun/control_scheduler.go): a fixed ring of descriptors. */
module ControlSchedulers {
  import opened Wire
  import opened ControlSpec
  import opened ControlRate
  import opened ControlRuns
  import opened Ring

  /** The first i descriptors of q have been filtered, the others are still to come. */
  ghost predicate Retaining(q: seq<Descriptor>, keep: Descriptor -> bool, i: nat, queue: seq<Descriptor>, offset: nat) {
    i <= |q| && offset == |FilterUpTo(q, keep, i)| && queue == FilterUpTo(q, keep, i) + q[i..]
  }

  lemma RetainStart(q: seq<Descriptor>, keep: Descriptor -> bool)
    ensures Retaining(q, keep, 0, q, 0)
  {}

  lemma RetainStep(q: seq<Descriptor>, keep: Descriptor -> bool, i: nat, queue: seq<Descriptor>, offset: nat)
    requires Retaining(q, keep, i, queue, offset) && offset < |queue|
    ensures i < |q|
    ensures if keep(queue[offset]) then Retaining(q, keep, i + 1, queue, offset + 1)
            else Retaining(q, keep, i + 1, Without(queue, offset), offset)
  {
    assert queue[offset] == q[i];
    var done := FilterUpTo(q, keep, i);
    assert queue == done + [q[i]] + q[i + 1..];
    assert Without(queue, offset) == done + q[i + 1..];
  }

  lemma RetainDone(q: seq<Descriptor>, keep: Descriptor -> bool, i: nat, queue: seq<Descriptor>, offset: nat)
    requires Retaining(q, keep, i, queue, offset) && offset >= |queue|
    ensures queue == Filter(q, keep)
  {
    assert i == |q| && q[i..] == [];
  }

  class ControlScheduler {
    const descriptors: array<Descriptor>
    var head: nat
    var count: nat
    var exploratory: int
    var peerOrder: seq<PeerID>
    var rrIndex: nat
    var peerRate: Rates
    var global: Bucket
    /** The descriptors in FIFO order. */
    ghost var queue: seq<Descriptor>

    ghost predicate Ring()
      reads this`head, this`count, this`exploratory, this`queue, descriptors
    {
      && Holds(descriptors[..], head, queue) && count == |queue| && exploratory == CountExploratory(queue)
    }

    ghost predicate Valid()
      reads this, descriptors
    {
      Ring() && exploratory <= EXPLORATORY_LIMIT && (if peerOrder == [] then rrIndex == 0 else rrIndex < |peerOrder|)
    }

    ghost function Abs(): Sched
      reads this
    {
      Sched(descriptors.Length, queue, peerOrder, rrIndex, peerRate, global)
    }

    constructor (capacity: int, peers: seq<PeerID>)
      ensures Valid() && fresh(descriptors) && Abs() == NewSched(descriptors.Length, peers)
      ensures descriptors.Length == if 0 < capacity <= DESCRIPTOR_CAPACITY then capacity else DESCRIPTOR_CAPACITY
    {
      var n := if capacity <= 0 || capacity > DESCRIPTOR_CAPACITY then DESCRIPTOR_CAPACITY else capacity;
      descriptors := new Descriptor[n](_ => NO_DESCRIPTOR);
      head, count, exploratory, peerOrder, rrIndex := 0, 0, 0, peers, 0;
      peerRate := map p | p in peers :: Bucket(PEER_BURST, None);
      global, queue := Bucket(GLOBAL_BURST, None), [];
    }

    /** The slot of the first queued descriptor that satisfies p, or -1. */
    method Find(p: Descriptor -> bool) returns (index: int)
      requires Ring()
      ensures First(queue, p) < 0 ==> index == -1
      ensures First(queue, p) >= 0 ==> index == Slot(head, First(queue, p), descriptors.Length)
    {
      var offset := 0;
      while offset < count
        invariant offset <= count && forall i :: 0 <= i < offset ==> !p(queue[i])
      {
        index := Slot(head, offset, descriptors.Length);
        if p(descriptors[index]) { return; }
        offset := offset + 1;
      }
      index := -1;
    }

    method CountForPeer(peer: PeerID) returns (n: nat)
      requires Ring()
      ensures n == CountPeer(queue, peer)
    {
      n := 0;
      for offset := 0 to count
        invariant n == CountPeerUpTo(queue, peer, offset)
      {
        if descriptors[Slot(head, offset, descriptors.Length)].peer == peer { n := n + 1; }
      }
    }

    /** Moves every descriptor behind slot at, k places behind the head, one slot back. */
    method Shift(at: nat, ghost k: nat)
      requires Holds(descriptors[..], head, queue) && count == |queue| && k < count &&
               at == Slot(head, k, descriptors.Length)
      modifies descriptors
      ensures Holds(descriptors[..], head, Without(queue, k))
    {
      var index, n := at, descriptors.Length;
      ghost var j := k;
      while index != Slot(head, count - 1, n)
        invariant k <= j < count && index == Slot(head, j, n) && Shifting(descriptors[..], head, queue, k, j)
        decreases count - j
      {
        ghost var before := descriptors[..];
        ShiftOne(before, head, queue, k, j);
        SlotNext(head, j, n);
        var next := Slot(index, 1, n);
        descriptors[index] := descriptors[next];
        assert descriptors[..] == before[index := before[next]];
        index, j := next, j + 1;
      }
      if j != count - 1 { SlotInjective(head, j, count - 1, n); }
      ghost var before := descriptors[..];
      ShiftDone(before, head, queue, k, NO_DESCRIPTOR);
      descriptors[index] := NO_DESCRIPTOR;
      assert descriptors[..] == before[index := NO_DESCRIPTOR];
    }

    /** Deletes the descriptor at slot at, keeping the order of the rest. */
    method Remove(at: nat, ghost k: nat)
      requires Ring() && k < count && at == Slot(head, k, descriptors.Length)
      modifies `count, `exploratory, `queue, descriptors
      ensures Ring() && queue == Without(old(queue), k) && exploratory <= old(exploratory)
    {
      CountWithout(queue, k);
      if Exploratory(descriptors[at]) { exploratory := exploratory - 1; }
      ShiftOut(at, k);
    }

    method ShiftOut(at: nat, ghost k: nat)
      requires Holds(descriptors[..], head, queue) && count == |queue| && k < count &&
               at == Slot(head, k, descriptors.Length)
      modifies `count, `queue, descriptors
      ensures Holds(descriptors[..], head, queue) && queue == Without(old(queue), k) && count == |queue|
    {
      Shift(at, k);
      count, queue := count - 1, Without(queue, k);
    }

    method PopHead() returns (d: Descriptor)
      requires Ring() && queue != []
      modifies `head, `count, `exploratory, `queue, descriptors
      ensures Ring() && d == old(queue)[0] && queue == Without(old(queue), 0) && exploratory <= old(exploratory)
    {
      assert Slot(head, 0, descriptors.Length) == head;
      d := descriptors[head];
      CountWithout(queue, 0);
      ghost var before := descriptors[..];
      PopFront(before, head, queue, NO_DESCRIPTOR);
      ghost var rest := Without(queue, 0);
      assert rest == queue[1..];
      if Exploratory(d) { exploratory := exploratory - 1; }
      descriptors[head] := NO_DESCRIPTOR;
      assert descriptors[..] == before[head := NO_DESCRIPTOR];
      head := Slot(head, 1, descriptors.Length);
      count, queue := count - 1, rest;
    }

    method TakeOut(index: nat, ghost k: nat) returns (d: Descriptor)
      requires Ring() && k < count && index == Slot(head, k, descriptors.Length)
      modifies `head, `count, `exploratory, `queue, descriptors
      ensures Ring() && d == old(queue)[k] && queue == Without(old(queue), k) && exploratory <= old(exploratory)
    {
      if index == head {
        if k != 0 { SlotInjective(head, 0, k, descriptors.Length); }
        d := PopHead();
      } else {
        d := descriptors[index];
        Remove(index, k);
      }
    }

    /** Takes the descriptor at index, k places behind the head, out of the queue. */
    method Pop(index: nat, ghost k: nat) returns (d: Descriptor)
      requires Valid() && k < count && index == Slot(head, k, descriptors.Length)
      modifies `head, `count, `exploratory, `queue, descriptors
      ensures Valid() && d == old(queue)[k] && queue == Without(old(queue), k) && Abs() == Apply(old(Abs()), Op.Pop(k))
    {
      d := TakeOut(index, k);
    }

    // ----- admission

    /** Removes the oldest descriptor that satisfies p, if there is one. */
    method Evict(p: Descriptor -> bool) returns (hit: bool)
      requires Ring()
      modifies `count, `exploratory, `queue, descriptors
      ensures Ring() && hit == (First(old(queue), p) >= 0)
      ensures queue == if hit then Without(old(queue), First(old(queue), p)) else old(queue)
    {
      var index := Find(p);
      hit := index >= 0;
      if hit { Remove(index, First(queue, p)); }
    }

    method Push(d: Descriptor)
      requires Ring() && count < descriptors.Length
      modifies `count, `exploratory, `queue, descriptors
      ensures Ring() && queue == old(queue) + [d]
    {
      CountPush(queue, d);
      ghost var before := descriptors[..];
      PushBack(before, head, queue, d);
      var index := Slot(head, count, descriptors.Length);
      descriptors[index] := d;
      assert descriptors[..] == before[index := d];
      count, queue := count + 1, queue + [d];
      if Exploratory(d) { exploratory := exploratory + 1; }
    }

    method Coalesce(d: Descriptor) returns (done: bool)
      requires Ring() && !Exploratory(d)
      modifies `queue, descriptors
      ensures Ring() && done == (First(old(queue), SameAs(d)) >= 0)
      ensures queue == if done then old(queue)[First(old(queue), SameAs(d)) := d] else old(queue)
    {
      var index := Find(SameAs(d));
      done := index >= 0;
      if done {
        ghost var k, before := First(queue, SameAs(d)), descriptors[..];
        Replace(before, head, queue, k, d);
        CountReplace(queue, k, d);
        descriptors[index] := d;
        assert descriptors[..] == before[index := d];
        queue := queue[k := d];
      }
    }

    method PeerAdmissionLimit() returns (limit: nat)
      ensures limit == AdmissionLimit(descriptors.Length, |peerOrder|)
    {
      var peers := |peerOrder|;
      if peers < 1 { peers := 1; }
      limit := descriptors.Length / peers;
      if limit < 1 { limit := 1; }
    }

    /** The peer's share and the ring's capacity, in the order the source checks them. */
    method FindRoom(d: Descriptor, limit: nat) returns (dropped: bool, evicted: bool)
      requires Ring()
      modifies `count, `exploratory, `queue, descriptors
      ensures Ring() && Admission(queue, dropped, evicted, false)
              == MakeRoom(Roomy(old(queue), limit, d), descriptors.Length, d)
    {
      dropped, evicted := FindPeerRoom(d, limit);
      if !dropped && count == descriptors.Length {
        if Exploratory(d) { return true, evicted; }
        var hit := Evict(AnyProbe());
        dropped, evicted := !hit, evicted || hit;
      }
    }

    method FindPeerRoom(d: Descriptor, limit: nat) returns (dropped: bool, evicted: bool)
      requires Ring()
      modifies `count, `exploratory, `queue, descriptors
      ensures Ring() && Admission(queue, dropped, evicted, false) == Roomy(old(queue), limit, d)
    {
      dropped, evicted := false, false;
      if Exploratory(d) { return; }
      var n := CountForPeer(d.peer);
      if n >= limit {
        evicted := Evict(ProbeOf(d.peer));
        dropped := !evicted;
      }
    }

    /** Offers one decoded message to the ring. */
    method Enqueue(d: Descriptor) returns (dropped: bool, evicted: bool, coalesced: bool)
      requires Valid()
      modifies `count, `exploratory, `queue, descriptors
      ensures Valid() && Admission(queue, dropped, evicted, coalesced)
              == ControlSpec.Enqueue(old(queue), descriptors.Length, AdmissionLimit(descriptors.Length, |peerOrder|), d)
      ensures Abs() == Apply(old(Abs()), Op.Enqueue(d))
    {
      var limit := PeerAdmissionLimit();
      dropped, evicted, coalesced := Offer(d, limit);
    }

    method Offer(d: Descriptor, limit: nat) returns (dropped: bool, evicted: bool, coalesced: bool)
      requires Valid()
      modifies `count, `exploratory, `queue, descriptors
      ensures Valid() && Admission(queue, dropped, evicted, coalesced)
              == ControlSpec.Enqueue(old(queue), descriptors.Length, limit, d)
    {
      EnqueueKeeps(queue, descriptors.Length, limit, d);
      if Exploratory(d) && exploratory >= EXPLORATORY_LIMIT { return true, false, false; }
      if !Exploratory(d) {
        var done := Coalesce(d);
        if done { return false, false, true; }
      }
      dropped, evicted := FindRoom(d, limit);
      coalesced := false;
      if dropped { return true, false, false; }
      Push(d);
    }

    // ----- removing peers

    /** Removes every descriptor that does not satisfy keep. */
    method Retain(keep: Descriptor -> bool) returns (removed: nat)
      requires Valid()
      modifies `count, `exploratory, `queue, descriptors
      ensures Valid() && queue == Filter(old(queue), keep) && removed == old(count) - count
    {
      ghost var q := queue;
      removed := Sweep(keep);
      FilterCounts(q, keep, |q|);
    }

    method Sweep(keep: Descriptor -> bool) returns (removed: nat)
      requires Ring()
      modifies `count, `exploratory, `queue, descriptors
      ensures Ring() && queue == Filter(old(queue), keep) && removed == old(count) - count
    {
      removed := 0;
      var offset: nat := 0;
      ghost var q: seq<Descriptor>, i: nat := queue, 0;
      RetainStart(q, keep);
      while offset < count
        invariant Ring() && Retaining(q, keep, i, queue, offset) && removed == |q| - count
        modifies `count, `exploratory, `queue, descriptors
        decreases |q| - i
      {
        offset, removed := RetainOne(keep, offset, removed, q, i);
        i := i + 1;
      }
      RetainDone(q, keep, i, queue, offset);
    }

    method RetainOne(keep: Descriptor -> bool, offset: nat, removed: nat, ghost q: seq<Descriptor>, ghost i: nat)
      returns (offset': nat, removed': nat)
      requires Ring() && Retaining(q, keep, i, queue, offset) && offset < count && removed == |q| - count
      modifies `count, `exploratory, `queue, descriptors
      ensures Ring() && i < |q| && Retaining(q, keep, i + 1, queue, offset') && removed' == |q| - count
    {
      RetainStep(q, keep, i, queue, offset);
      var index := Slot(head, offset, descriptors.Length);
      offset', removed' := offset, removed;
      if keep(descriptors[index]) {
        offset' := offset + 1;
      } else {
        Remove(index, offset);
        removed' := removed + 1;
      }
    }

    method RemovePeer(peer: PeerID) returns (removed: nat)
      requires Valid()
      modifies `count, `exploratory, `queue, descriptors
      ensures Valid() && removed == old(count) - count && Abs() == Apply(old(Abs()), Op.RemovePeer(peer))
    {
      removed := Retain(NotPeer(peer));
    }

    /** Installs a new peer set: other peers' messages go, survivors keep their tokens. */
    method UpdatePeers(peers: seq<PeerID>)
      requires Valid()
      modifies this, descriptors
      ensures Valid() && Abs() == Apply(old(Abs()), Op.UpdatePeers(peers))
    {
      var removed := Retain(AmongPeers(peers));
      peerOrder := peers;
      peerRate := map p | p in peers :: BucketOf(peerRate, p);
      if |peerOrder| == 0 {
        rrIndex := 0;
      } else if rrIndex >= |peerOrder| {
        rrIndex := rrIndex % |peerOrder|;
      }
    }

    // ----- choosing

    /** The next message to send: the first of the first eligible peer in round-robin order. */
    method Choose(now: int) returns (d: Descriptor, index: nat, ok: bool, ghost rank: nat)
      requires Valid()
      modifies `rrIndex, `peerRate, `global
      ensures Valid() && Abs() == Apply(old(Abs()), Op.Choose(now))
      ensures Picks(old(Abs()), now) == if ok then Some(rank) else None
      ensures ok <==> queue != [] && Available(Refill(old(global), now, GLOBAL_RATE, GLOBAL_BURST))
                      && EligibleSet(queue, peerOrder, old(peerRate), now) != {}
      ensures ok ==> IsFirstEligible(|peerOrder|, old(rrIndex), EligibleSet(queue, peerOrder, old(peerRate), now), rank)
      ensures ok ==>
              var k := First(queue, OfPeer(peerOrder[rank]));
              k >= 0 && d == queue[k] && index == Slot(head, k, descriptors.Length)
    {
      d, index, ok, rank := NO_DESCRIPTOR, 0, false, 0;
      if count == 0 { return; }
      global := Refill(global, now, GLOBAL_RATE, GLOBAL_BURST);
      if !Available(global) || |peerOrder| == 0 { return; }
      d, index, ok, rank := ChoosePeer(now);
    }

    method ChoosePeer(now: int) returns (d: Descriptor, index: nat, ok: bool, ghost rank: nat)
      requires Valid() && peerOrder != []
      modifies `rrIndex, `peerRate, `global
      ensures peerRate == Search(queue, peerOrder, old(rrIndex), 0, old(peerRate), now).rates
      ensures Search(queue, peerOrder, old(rrIndex), 0, old(peerRate), now).rank == if ok then Some(rank) else None
      ensures ok <==> EligibleSet(queue, peerOrder, old(peerRate), now) != {}
      ensures ok ==> IsFirstEligible(|peerOrder|, old(rrIndex), EligibleSet(queue, peerOrder, old(peerRate), now), rank)
      ensures ok ==>
              var k := First(queue, OfPeer(peerOrder[rank]));
              k >= 0 && d == queue[k] && index == Slot(head, k, descriptors.Length)
      ensures rrIndex == if ok then Slot(rank, 1, |peerOrder|) else old(rrIndex)
      ensures global == if ok then old(global).(tokens := old(global).tokens - 1.0) else old(global)
    {
      SearchFindsFirst(queue, peerOrder, rrIndex, 0, peerRate, now);
      var at, found := Scan(now);
      d, index, ok, rank := NO_DESCRIPTOR, 0, found >= 0, 0;
      if ok {
        global := global.(tokens := global.tokens - 1.0);
        rrIndex := Slot(at, 1, |peerOrder|);
        d, index, rank := descriptors[found], found, at;
      }
    }

    /** Visits the peers in round-robin order up to the first eligible one. */
    method Scan(now: int) returns (at: nat, found: int)
      requires Valid() && peerOrder != []
      modifies `peerRate
      ensures peerRate == Search(queue, peerOrder, rrIndex, 0, old(peerRate), now).rates
      ensures found >= 0 <==> Search(queue, peerOrder, rrIndex, 0, old(peerRate), now).rank.Some?
      ensures found >= 0 ==>
              at < |peerOrder| && Search(queue, peerOrder, rrIndex, 0, old(peerRate), now).rank == Some(at)
      ensures found >= 0 ==>
              var k := First(queue, OfPeer(peerOrder[at])); k >= 0 && found == Slot(head, k, descriptors.Length)
    {
      ghost var result := Search(queue, peerOrder, rrIndex, 0, peerRate, now);
      at, found := 0, -1;
      var step := 0;
      while step < |peerOrder|
        invariant step <= |peerOrder| && found == -1 && Search(queue, peerOrder, rrIndex, step, peerRate, now) == result
      {
        at := Slot(rrIndex, step, |peerOrder|);
        found := Visit(peerOrder[at], now);
        if found >= 0 { return; }
        step := step + 1;
      }
    }

    /** Refills a peer's bucket and takes a token if a message of the peer waits. */
    method Visit(peer: PeerID, now: int) returns (found: int)
      requires Ring()
      modifies `peerRate
      ensures found >= 0 <==> Available(RefillPeer(old(peerRate), peer, now)) && First(queue, OfPeer(peer)) >= 0
      ensures found >= 0 ==> found == Slot(head, First(queue, OfPeer(peer)), descriptors.Length)
      ensures found < 0 ==> found == -1
      ensures var b := RefillPeer(old(peerRate), peer, now);
              peerRate == old(peerRate)[peer := if found >= 0 then b.(tokens := b.tokens - 1.0) else b]
    {
      var bucket := RefillPeer(peerRate, peer, now);
      found := -1;
      if Available(bucket) { found := Find(OfPeer(peer)); }
      peerRate := peerRate[peer := if found >= 0 then bucket.(tokens := bucket.tokens - 1.0) else bucket];
    }

    /** Gives both tokens back for a message that could not be sent. */
    method RefundTokens(peer: PeerID)
      requires Valid()
      modifies `peerRate, `global
      ensures Valid() && Abs() == Apply(old(Abs()), Op.Refund(peer))
    {
      if peer in peerRate { peerRate := peerRate[peer := ControlRate.Refund(peerRate[peer], PEER_BURST)]; }
      global := ControlRate.Refund(global, GLOBAL_BURST);
    }
  }
}
