/** Splitting and reassembling are inverse to each other: the records of a packet,
    in any order and any number of times, complete it exactly once. */
module RoundTrip {
  import opened Wire
  import opened Packing
  import opened PoolSpec
  import opened PoolTheorems

  lemma {:induction false} SplitOrdered(frags: seq<Record>, packet: seq<byte>, meta: Metadata, i: nat, j: nat)
    requires IsSplitOf(frags, packet, meta) && i < j < |frags|
    ensures EndOf(frags[i]) <= frags[j].header.offset
    decreases j
  {
    assert CutAt(frags, j, packet, meta, |frags|);
    assert CutAt(frags, j - 1, packet, meta, |frags|);
    if i < j - 1 { SplitOrdered(frags, packet, meta, i, j - 1); }
  }

  lemma {:induction false} SplitCovers(frags: seq<Record>, packet: seq<byte>, meta: Metadata, b: nat, k: nat)
    returns (i: nat)
    requires IsSplitOf(frags, packet, meta) && k < |frags| && b < EndOf(frags[k])
    ensures i <= k && frags[i].header.offset <= b < EndOf(frags[i])
    decreases k
  {
    assert CutAt(frags, k, packet, meta, |frags|);
    if frags[k].header.offset <= b {
      i := k;
    } else {
      i := SplitCovers(frags, packet, meta, b, k - 1);
    }
  }

  function KeyOf(peer: nat, meta: Metadata): Key {
    Key(peer, meta.dataSessionID, meta.laneID, meta.laneSequence)
  }

  /** Slot s has taken exactly the records seen of the split. */
  ghost predicate Holding(c: Config, s: Slot, key: Key, frags: seq<Record>, seen: set<nat>) {
    && Settled(c, s) && Live(s) && s.key == key && s.count == |frags| && s.present == seen
    && forall i {:trigger i in seen} :: i in seen ==> Taken(s, frags, i)
  }

  predicate Taken(s: Slot, frags: seq<Record>, i: nat) {
    && i < |frags| && i < |s.offsets| && i < |s.lengths| && EndOf(frags[i]) <= |s.buf|
    && s.offsets[i] == frags[i].header.offset && s.lengths[i] == |frags[i].data|
    && s.buf[frags[i].header.offset..EndOf(frags[i])] == frags[i].data
  }

  predicate AllOf(frags: seq<Record>, seen: set<nat>) {
    forall i :: 0 <= i < |frags| ==> i in seen
  }

  ghost predicate Carries(c: Config, peer: nat, frags: seq<Record>, packet: seq<byte>, meta: Metadata) {
    && ConfigOk(c) && peer < c.maxPeers && IsSplitOf(frags, packet, meta) && |packet| <= c.maxPacketSize
  }

  lemma RecordIsAdmitted(c: Config, peer: nat, frags: seq<Record>, packet: seq<byte>, meta: Metadata, k: nat)
    requires Carries(c, peer, frags, packet, meta) && k < |frags|
    ensures CheckKey(c, KeyOf(peer, meta)).None? && CheckRecord(c, KeyOf(peer, meta), frags[k]).None?
    ensures frags[k].header.fragmentIndex == k && frags[k].header.fragmentCount == |frags| &&
            EndOf(frags[k]) <= |packet|
  {
    assert CutAt(frags, k, packet, meta, |frags|);
  }

  /** A new record of the split never collides with one already taken. */
  lemma NoCollision(c: Config, s: Slot, peer: nat, frags: seq<Record>, packet: seq<byte>, meta: Metadata,
                    seen: set<nat>, k: nat, j: nat)
    requires Carries(c, peer, frags, packet, meta) && Holding(c, s, KeyOf(peer, meta), frags, seen) && k < |frags| &&
             k !in seen
    requires j in seen && j < MAX_FRAGMENTS
    ensures !Collides(s, j, frags[k].header.offset, EndOf(frags[k]))
  {
    assert Taken(s, frags, j);
    if j < k { SplitOrdered(frags, packet, meta, j, k); } else { SplitOrdered(frags, packet, meta, k, j); }
  }

  lemma TakenStays(s: Slot, frags: seq<Record>, k: nat, i: nat)
    requires Bounded(s) && Taken(s, frags, i) && k < |frags| && k != i &&
             frags[k].header.fragmentIndex == k < MAX_FRAGMENTS
    requires EndOf(frags[k]) <= |s.buf| &&
             (EndOf(frags[i]) <= frags[k].header.offset || EndOf(frags[k]) <= frags[i].header.offset)
    ensures Taken(PlaceFragment(s, frags[k]), frags, i)
  {
    var t := PlaceFragment(s, frags[k]);
    var lo, hi, start, end := frags[i].header.offset, EndOf(frags[i]), frags[k].header.offset, EndOf(frags[k]);
    assert t.buf == s.buf[..start] + frags[k].data + s.buf[end..];
    assert t.buf[lo..hi] == s.buf[lo..hi];
  }

  lemma TakenNew(s: Slot, frags: seq<Record>, k: nat)
    requires Bounded(s) && k < |frags| && frags[k].header.fragmentIndex == k < MAX_FRAGMENTS &&
             EndOf(frags[k]) <= |s.buf|
    ensures Taken(PlaceFragment(s, frags[k]), frags, k)
  {
    var t := PlaceFragment(s, frags[k]);
    var start, end := frags[k].header.offset, EndOf(frags[k]);
    assert t.buf == s.buf[..start] + frags[k].data + s.buf[end..];
    assert t.buf[start..end] == frags[k].data;
  }

  lemma PlacedHolds(c: Config, s: Slot, peer: nat, frags: seq<Record>, packet: seq<byte>, meta: Metadata,
                    seen: set<nat>, k: nat, i: nat)
    requires Carries(c, peer, frags, packet, meta) && Holding(c, s, KeyOf(peer, meta), frags, seen) && k < |frags| &&
             k !in seen
    requires frags[k].header.fragmentIndex == k && EndOf(frags[k]) <= |s.buf|
    requires i in seen || i == k
    ensures Taken(PlaceFragment(s, frags[k]), frags, i)
  {
    if i == k {
      TakenNew(s, frags, k);
    } else {
      assert Taken(s, frags, i);
      if i < k { SplitOrdered(frags, packet, meta, i, k); } else { SplitOrdered(frags, packet, meta, k, i); }
      TakenStays(s, frags, k, i);
    }
  }

  /** When every record has been taken the bytes are the packet's and tile it. */
  lemma AllTaken(t: Slot, frags: seq<Record>, packet: seq<byte>, meta: Metadata)
    requires IsSplitOf(frags, packet, meta) && |packet| <= |t.buf| && Bounded(t)
    requires (forall i :: i in t.present ==> i < |frags|) && forall i ::
             0 <= i < |frags| ==> i in t.present && Taken(t, frags, i)
    ensures Tiles(t, |packet|) && t.buf[..|packet|] == packet
  {
    var last := |frags| - 1;
    forall i | i in t.present && i < MAX_FRAGMENTS ensures t.offsets[i] + t.lengths[i] <= |packet| {
      assert Taken(t, frags, i) && CutAt(frags, i, packet, meta, |frags|);
    }
    forall b: nat | b < |packet| ensures Covered(t, b) && t.buf[b] == packet[b] {
      var i := SplitCovers(frags, packet, meta, b, last);
      assert Taken(t, frags, i) && CutAt(frags, i, packet, meta, |frags|);
      assert Covers(t, i, b);
      var off := frags[i].header.offset;
      assert t.buf[b] == t.buf[off..EndOf(frags[i])][b - off] == frags[i].data[b - off]
          == packet[off..EndOf(frags[i])][b - off];
    }
  }

  /** One record against a slot that already took seen of them. */
  lemma JudgeSplit(c: Config, s: Slot, peer: nat, frags: seq<Record>, packet: seq<byte>, meta: Metadata, seen: set<nat>,
                   k: nat)
    requires Carries(c, peer, frags, packet, meta) && Holding(c, s, KeyOf(peer, meta), frags, seen) && k < |frags|
    requires frags[k].header.fragmentIndex == k && frags[k].header.fragmentCount == |frags| &&
             EndOf(frags[k]) <= |packet|
    ensures k in seen ==> Judge(s, frags[k]) == Same
    ensures k !in seen && !AllOf(frags, seen + {k}) ==> Judge(s, frags[k]) == Keep(PlaceFragment(s, frags[k]))
    ensures k !in seen && AllOf(frags, seen + {k}) ==>
              Judge(s, frags[k]) == Finish(PlaceFragment(s, frags[k]).(state := Whole, packetLen := |packet|))
              && PlaceFragment(s, frags[k]).buf[..|packet|] == packet
  {
    if k in seen {
      assert Taken(s, frags, k);
    } else {
      var t := PlaceFragment(s, frags[k]);
      forall j | j in s.present && 0 <= j < s.count && j < MAX_FRAGMENTS
        ensures !Collides(s, j, frags[k].header.offset, EndOf(frags[k]))
      {
        NoCollision(c, s, peer, frags, packet, meta, seen, k, j);
      }
      assert Full(t) <==> AllOf(frags, seen + {k});
      if Full(t) {
        forall i | 0 <= i < |frags| ensures i in t.present && Taken(t, frags, i) {
          PlacedHolds(c, s, peer, frags, packet, meta, seen, k, i);
        }
        PlacedBounded(c, s, frags, k);
        AllTaken(t, frags, packet, meta);
        var v := Judge(s, frags[k]);
        assert v.Finish?;
        TilesTransfer(v.slot, t, v.slot.packetLen);
        TilesUnique(t, v.slot.packetLen, |packet|);
      }
    }
  }

  lemma PlacedBounded(c: Config, s: Slot, frags: seq<Record>, k: nat)
    requires Shape(c, s) && s.state != Free && s.count == |frags| <= MAX_FRAGMENTS && k < |frags| && k !in s.present
    requires frags[k].header.fragmentIndex == k && EndOf(frags[k]) <= |s.buf|
    ensures Bounded(PlaceFragment(s, frags[k])) && forall i :: i in PlaceFragment(s, frags[k]).present ==> i < |frags|
  {}

  // ----- in the pool

  ghost predicate PoolHolding(c: Config, p: Pool, i: nat, key: Key, frags: seq<Record>, seen: set<nat>) {
    Inv(c, p) && i < |p.slots| && Holding(c, p.slots[i], key, frags, seen)
  }

  function WholePacket(p: Pool, i: nat, key: Key, packet: seq<byte>): Packet
    requires i < |p.slots|
  {
    Packet(Handle(i, p.slots[i].generation), key, packet)
  }

  /** What a record does that reaches the slot of its packet. */
  ghost function Expected(p: Pool, i: nat, key: Key, frags: seq<Record>, packet: seq<byte>, seen: set<nat>,
                          k: nat): Status
    requires i < |p.slots|
  {
    if k in seen then Duplicate
    else if AllOf(frags, seen + {k}) then Completed(WholePacket(p, i, key, packet))
    else Accepted
  }

  lemma DeliverFeeds(c: Config, p: Pool, i: nat, peer: nat, frags: seq<Record>, packet: seq<byte>, meta: Metadata,
                     seen: set<nat>, k: nat, evicted: Option<Key>)
    requires Carries(c, peer, frags, packet, meta) && PoolHolding(c, p, i, KeyOf(peer, meta), frags, seen) &&
             k < |frags|
    requires CheckRecord(c, KeyOf(peer, meta), frags[k]).None?
    requires frags[k].header.fragmentIndex == k && frags[k].header.fragmentCount == |frags| &&
             EndOf(frags[k]) <= |packet|
    ensures var t := Deliver(c, p, i, frags[k], evicted);
            PoolHolding(c, t.pool, i, KeyOf(peer, meta), frags, seen + {k})
            && t.pool.slots[i].generation == p.slots[i].generation && t.pool.slots[i].firstSeen == p.slots[i].firstSeen
            && t.outcome == Done(Expected(p, i, KeyOf(peer, meta), frags, packet, seen, k), evicted)
  {
    var s, t := p.slots[i], Deliver(c, p, i, frags[k], evicted);
    JudgeSplit(c, s, peer, frags, packet, meta, seen, k);
    DeliverKeepsInv(c, p, i, frags[k], evicted);
    assert Settled(c, t.pool.slots[i]);
    if k in seen {
      assert seen + {k} == seen;
    } else {
      forall j | j in seen + {k} ensures Taken(t.pool.slots[i], frags, j) {
        PlacedHolds(c, s, peer, frags, packet, meta, seen, k, j);
      }
    }
  }

  /** The first record of a packet opens a slot that holds just that record. */
  lemma FirstRecord(c: Config, p: Pool, now: int, peer: nat, frags: seq<Record>, packet: seq<byte>, meta: Metadata,
                    k: nat)
    requires Carries(c, peer, frags, packet, meta) && Inv(c, p) && k < |frags| && Find(p.slots, KeyOf(peer, meta)) == -1
    requires var a := Allocate(c, p, now, KeyOf(peer, meta), |frags|); a.index >= 0
    ensures var a, t := Allocate(c, p, now, KeyOf(peer, meta), |frags|), Accept(c, p, now, KeyOf(peer, meta), frags[k]);
            a.index < |p.slots| && PoolHolding(c, t.pool, a.index, KeyOf(peer, meta), frags, {k})
            && t.pool.slots[a.index].firstSeen == now
            && t.outcome == Done(Expected(t.pool, a.index, KeyOf(peer, meta), frags, packet, {}, k), a.evicted)
  {
    var key := KeyOf(peer, meta);
    var a := Allocate(c, p, now, key, |frags|);
    RecordIsAdmitted(c, peer, frags, packet, meta, k);
    AllocateKeepsInv(c, p, now, key, |frags|);
    AllocateKeepsCore(c, p, now, key, |frags|);
    assert Settled(c, a.pool.slots[a.index]);
    DeliverFeeds(c, a.pool, a.index, peer, frags, packet, meta, {}, k, a.evicted);
    assert {} + {k} == {k};
  }

  /** Every further record that arrives within the lifetime of the first, or after
      completion. */
  lemma NextRecord(c: Config, p: Pool, i: nat, now: int, peer: nat, frags: seq<Record>, packet: seq<byte>,
                   meta: Metadata, seen: set<nat>, k: nat)
    requires Carries(c, peer, frags, packet, meta) && PoolHolding(c, p, i, KeyOf(peer, meta), frags, seen) &&
             k < |frags|
    requires p.slots[i].state == Whole || now < p.slots[i].firstSeen + c.lifetime
    ensures var t := Accept(c, p, now, KeyOf(peer, meta), frags[k]);
            PoolHolding(c, t.pool, i, KeyOf(peer, meta), frags, seen + {k})
            && t.pool.slots[i].generation == p.slots[i].generation && t.pool.slots[i].firstSeen == p.slots[i].firstSeen
            && t.outcome == Done(Expected(p, i, KeyOf(peer, meta), frags, packet, seen, k), None)
  {
    var key := KeyOf(peer, meta);
    RecordIsAdmitted(c, peer, frags, packet, meta, k);
    assert HoldsKey(p.slots, key, i) && HoldsKey(p.slots, key, Find(p.slots, key));
    assert Prepare(c, p, now, key, |frags|) == Allocation(p, i, None);
    DeliverFeeds(c, p, i, peer, frags, packet, meta, seen, k, None);
  }

  // ----- over whole runs

  /** op brings a record of the packet within the lifetime of its first record,
      or after completion. */
  ghost predicate Brings(c: Config, p: Pool, i: nat, first: int, op: Op, key: Key, frags: seq<Record>)
    requires i < |p.slots|
  {
    && op.AcceptOp? && op.key == key && IsRecordOf(op.record, frags)
    && (p.slots[i].state == Whole || op.now < first + c.lifetime)
  }

  predicate IsRecordOf(r: Record, frags: seq<Record>) {
    r.header.fragmentIndex < |frags| && r == frags[r.header.fragmentIndex]
  }

  /** Each operation either brings a record of the packet in time or leaves its
      slot alone; in particular nothing expires, evicts, purges or releases it. */
  ghost predicate Undisturbing(c: Config, p: Pool, i: nat, first: int, ops: seq<Op>, key: Key, frags: seq<Record>)
    requires Inv(c, p) && i < |p.slots|
    decreases |ops|
  {
    ops == [] ||
    (var q := Apply(c, p, ops[0]);
     StepKeepsInv(c, p, ops[0]);
     (Brings(c, p, i, first, ops[0], key, frags) || (!BringsAny(ops[0], key, frags) && q.slots[i] == p.slots[i]))
     && Undisturbing(c, q, i, first, ops[1..], key, frags))
  }

  predicate BringsAny(op: Op, key: Key, frags: seq<Record>) {
    op.AcceptOp? && op.key == key && IsRecordOf(op.record, frags)
  }

  function SeenAfter(seen: set<nat>, ops: seq<Op>, key: Key, frags: seq<Record>): set<nat>
    decreases |ops|
  {
    if ops == [] then seen
    else SeenAfter(if BringsAny(ops[0], key, frags) then seen + {ops[0].record.header.fragmentIndex}
        else seen, ops[1..], key, frags)
  }

  function CompletedNow(out: Outcome, key: Key): seq<Packet> {
    if out.Done? && out.status.Completed? && out.status.packet.key == key then [out.status.packet] else []
  }

  /** The packets of one key that a run completes, in order. */
  ghost function Completions(c: Config, p: Pool, ops: seq<Op>, key: Key): seq<Packet>
    requires Inv(c, p)
    decreases |ops|
  {
    if ops == [] then []
    else
      StepKeepsInv(c, p, ops[0]);
      var rest := Completions(c, Apply(c, p, ops[0]), ops[1..], key);
      if ops[0].AcceptOp? then CompletedNow(Accept(c, p, ops[0].now, ops[0].key, ops[0].record).outcome, key) + rest
          else rest
  }

  lemma CompletionsStep(c: Config, p: Pool, ops: seq<Op>, key: Key, out: Outcome)
    requires Inv(c, p) && ops != [] && ops[0].AcceptOp?
    requires out == Accept(c, p, ops[0].now, ops[0].key, ops[0].record).outcome
    ensures Inv(c, Apply(c, p, ops[0]))
    ensures Completions(c, p, ops, key) == CompletedNow(out, key) + Completions(c, Apply(c, p, ops[0]), ops[1..], key)
  {
    StepKeepsInv(c, p, ops[0]);
  }

  lemma OthersCompleteOthers(c: Config, p: Pool, i: nat, op: Op, key: Key, frags: seq<Record>, seen: set<nat>)
    requires PoolHolding(c, p, i, key, frags, seen) && op.AcceptOp? && Apply(c, p, op).slots[i] == p.slots[i]
    ensures var out := Accept(c, p, op.now, op.key, op.record).outcome;
            !(out.Done? && out.status.Completed? && out.status.packet.key == key)
  {
    var t := Accept(c, p, op.now, op.key, op.record);
    AcceptCompletesItsOwn(c, p, op.now, op.key, op.record);
    AcceptKeepsInv(c, p, op.now, op.key, op.record);
    if t.outcome.Done? && t.outcome.status.Completed? && t.outcome.status.packet.key == key {
      assert HoldsKey(t.pool.slots, key, i) && HoldsKey(t.pool.slots, key, t.outcome.status.packet.handle.index);
    }
  }

  lemma {:induction false} SeenGrows(seen: set<nat>, ops: seq<Op>, key: Key, frags: seq<Record>)
    ensures seen <= SeenAfter(seen, ops, key, frags)
    decreases |ops|
  {
    if ops != [] {
      SeenGrows(if BringsAny(ops[0], key, frags) then seen + {ops[0].record.header.fragmentIndex}
          else seen, ops[1..], key, frags);
    }
  }

  /** The round trip: whatever else the receiver does in between, the records of
      a packet, in any order and with repetitions, complete it exactly once, as
      soon as all of them have arrived, and with the bytes that were split. */
  lemma {:induction false} RecordsCompleteOnce(c: Config, p: Pool, i: nat, ops: seq<Op>, peer: nat, frags: seq<Record>,
                                packet: seq<byte>, meta: Metadata, seen: set<nat>)
    requires Carries(c, peer, frags, packet, meta) && PoolHolding(c, p, i, KeyOf(peer, meta), frags, seen)
    requires Undisturbing(c, p, i, p.slots[i].firstSeen, ops, KeyOf(peer, meta), frags)
    ensures var key, after := KeyOf(peer, meta), SeenAfter(seen, ops, KeyOf(peer, meta), frags);
            PoolHolding(c, Run(c, p, ops), i, key, frags, after)
            && Run(c, p, ops).slots[i].firstSeen == p.slots[i].firstSeen
            && Completions(c, p, ops, key) == if !AllOf(frags, seen) &&
                 AllOf(frags, after) then [WholePacket(p, i, key, packet)] else []
    decreases |ops|
  {
    var key := KeyOf(peer, meta);
    if ops != [] {
      var op, q := ops[0], Apply(c, p, ops[0]);
      StepKeepsInv(c, p, op);
      if BringsAny(op, key, frags) {
        var k := op.record.header.fragmentIndex;
        CompletionsOfOwn(c, p, i, ops, peer, frags, packet, meta, seen, k);
        RecordsCompleteOnce(c, q, i, ops[1..], peer, frags, packet, meta, seen + {k});
        SeenGrows(seen + {k}, ops[1..], key, frags);
      } else {
        CompletionsOfOthers(c, p, i, ops, key, frags, seen);
        RecordsCompleteOnce(c, q, i, ops[1..], peer, frags, packet, meta, seen);
        SeenGrows(seen, ops[1..], key, frags);
      }
    }
  }

  lemma CompletionsOfOwn(c: Config, p: Pool, i: nat, ops: seq<Op>, peer: nat, frags: seq<Record>, packet: seq<byte>,
                         meta: Metadata, seen: set<nat>, k: nat)
    requires Carries(c, peer, frags, packet, meta) && PoolHolding(c, p, i, KeyOf(peer, meta), frags, seen)
    requires ops != [] && BringsAny(ops[0], KeyOf(peer, meta), frags) && k == ops[0].record.header.fragmentIndex
    requires p.slots[i].state == Whole || ops[0].now < p.slots[i].firstSeen + c.lifetime
    ensures var key, q := KeyOf(peer, meta), Apply(c, p, ops[0]);
            && PoolHolding(c, q, i, key, frags, seen + {k}) &&
                 WholePacket(q, i, key, packet) == WholePacket(p, i, key, packet)
            && q.slots[i].firstSeen == p.slots[i].firstSeen
            && Completions(c, p, ops, key)
            == (if !AllOf(frags, seen) && AllOf(frags, seen + {k}) then [WholePacket(p, i, key, packet)] else [])
                + Completions(c, q, ops[1..], key)
  {
    var key, out := KeyOf(peer, meta), Accept(c, p, ops[0].now, KeyOf(peer, meta), ops[0].record).outcome;
    NextRecord(c, p, i, ops[0].now, peer, frags, packet, meta, seen, k);
    CompletionsStep(c, p, ops, key, out);
    if k !in seen {
      assert !AllOf(frags, seen);
    } else {
      assert seen + {k} == seen;
    }
  }

  lemma CompletionsOfOthers(c: Config, p: Pool, i: nat, ops: seq<Op>, key: Key, frags: seq<Record>, seen: set<nat>)
    requires ops != [] && PoolHolding(c, p, i, key, frags, seen) && Apply(c, p, ops[0]).slots[i] == p.slots[i]
    ensures Inv(c, Apply(c, p, ops[0])) &&
            Completions(c, p, ops, key) == Completions(c, Apply(c, p, ops[0]), ops[1..], key)
  {
    StepKeepsInv(c, p, ops[0]);
    if ops[0].AcceptOp? { OthersCompleteOthers(c, p, i, ops[0], key, frags, seen); }
  }

  // ----- from the first record on

  /** Up to the first record of the key, which is one of the packet and finds a
      slot, every run is allowed; after it, the slot is left alone and the others
      arrive within a lifetime of the first. */
  ghost predicate Spared(c: Config, p: Pool, ops: seq<Op>, key: Key, frags: seq<Record>)
    requires Inv(c, p)
    decreases |ops|
  {
    ops == [] ||
    (var q := Apply(c, p, ops[0]);
     StepKeepsInv(c, p, ops[0]);
     if ops[0].AcceptOp? && ops[0].key == key then
       && BringsAny(ops[0], key, frags) && Opening(c, p, ops[0].now, key, frags) >= 0
       && Undisturbing(c, q, Opening(c, p, ops[0].now, key, frags), ops[0].now, ops[1..], key, frags)
     else Spared(c, q, ops[1..], key, frags))
  }

  /** The slot that the first record of a packet opens, -1 when there is none. */
  ghost function Opening(c: Config, p: Pool, now: int, key: Key, frags: seq<Record>): (i: int)
    requires Inv(c, p)
    ensures i < |p.slots|
  {
    if Find(p.slots, key) == -1 then Allocate(c, p, now, key, |frags|).index else -1
  }

  /** The only packet of the list, if any, is this one under this key. */
  predicate IsOnly(done: seq<Packet>, key: Key, packet: seq<byte>) {
    |done| == 1 && done[0].key == key && done[0].data == packet
  }

  /** The round trip: from a pool without the packet, its records complete it
      exactly once if all of them arrive and not at all otherwise. */
  lemma {:induction false} PacketCompletesOnce(c: Config, p: Pool, ops: seq<Op>, peer: nat, frags: seq<Record>,
                                               packet: seq<byte>, meta: Metadata)
    requires Carries(c, peer, frags, packet, meta) && Inv(c, p) && Spared(c, p, ops, KeyOf(peer, meta), frags)
    ensures var key, done := KeyOf(peer, meta), Completions(c, p, ops, KeyOf(peer, meta));
            if AllOf(frags, SeenAfter({}, ops, key, frags)) then IsOnly(done, key, packet) else done == []
    decreases |ops|
  {
    var key := KeyOf(peer, meta);
    if ops == [] {
      assert 0 !in SeenAfter({}, ops, key, frags);
    } else if ops[0].AcceptOp? && ops[0].key == key {
      FirstOfMany(c, p, ops, peer, frags, packet, meta);
    } else {
      var q := Apply(c, p, ops[0]);
      StepKeepsInv(c, p, ops[0]);
      if ops[0].AcceptOp? { AcceptCompletesItsOwn(c, p, ops[0].now, ops[0].key, ops[0].record); }
      assert Completions(c, p, ops, key) == Completions(c, q, ops[1..], key);
      PacketCompletesOnce(c, q, ops[1..], peer, frags, packet, meta);
    }
  }

  lemma FirstOfMany(c: Config, p: Pool, ops: seq<Op>, peer: nat, frags: seq<Record>, packet: seq<byte>, meta: Metadata)
    requires Carries(c, peer, frags, packet, meta) && Inv(c, p) && Spared(c, p, ops, KeyOf(peer, meta), frags)
    requires ops != [] && ops[0].AcceptOp? && ops[0].key == KeyOf(peer, meta)
    ensures var key, done := KeyOf(peer, meta), Completions(c, p, ops, KeyOf(peer, meta));
            if AllOf(frags, SeenAfter({}, ops, key, frags)) then IsOnly(done, key, packet) else done == []
  {
    var op, key, k := ops[0], KeyOf(peer, meta), ops[0].record.header.fragmentIndex;
    var i, t := Opening(c, p, op.now, key, frags), Accept(c, p, op.now, key, frags[k]);
    FirstRecord(c, p, op.now, peer, frags, packet, meta, k);
    CompletionsStep(c, p, ops, key, t.outcome);
    RecordsCompleteOnce(c, t.pool, i, ops[1..], peer, frags, packet, meta, {k});
    SeenGrows({k}, ops[1..], key, frags);
    assert {} + {k} == {k};
  }
}
