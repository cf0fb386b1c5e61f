/** A pool that only takes in records of as many packets as fit: nothing is evicted,
    so each packet's slot is left alone until the packet is complete. */
module QuietPool {
  import opened Wire
  import opened Basics
  import opened Packing
  import opened PoolSpec
  import opened PoolTheorems
  import opened RoundTrip

  /** Every slot in use is open for one of these keys. */
  ghost predicate Hosts(p: Pool, keys: set<Key>) {
    forall i {:trigger Hosted(p.slots[i], keys)} :: 0 <= i < |p.slots| ==> Hosted(p.slots[i], keys)
  }

  predicate Hosted(s: Slot, keys: set<Key>) {
    s.state != Free ==> !s.detached && s.key in keys
  }

  // ----- how many slots are in use

  /** Slots in use among the first n. */
  function UsedBelow(slots: seq<Slot>, n: nat): set<nat>
    requires n <= |slots|
  {
    set i | 0 <= i < n && slots[i].state != Free
  }

  function KeysBelow(slots: seq<Slot>, n: nat): set<Key>
    requires n <= |slots|
  {
    if n == 0 then {} else KeysBelow(slots, n - 1) + if slots[n - 1].state != Free then {slots[n - 1].key} else {}
  }

  lemma {:induction false} KeyBelow(slots: seq<Slot>, n: nat, key: Key) returns (i: nat)
    requires n <= |slots| && key in KeysBelow(slots, n)
    ensures i < n && slots[i].state != Free && slots[i].key == key
  {
    if slots[n - 1].state != Free && slots[n - 1].key == key {
      i := n - 1;
    } else {
      i := KeyBelow(slots, n - 1, key);
    }
  }

  lemma KeyIsNew(c: Config, p: Pool, keys: set<Key>, n: nat)
    requires Inv(c, p) && Hosts(p, keys) && n < |p.slots| && p.slots[n].state != Free
    ensures p.slots[n].key in keys && p.slots[n].key !in KeysBelow(p.slots, n)
  {
    var key := p.slots[n].key;
    assert Hosted(p.slots[n], keys);
    if key in KeysBelow(p.slots, n) {
      var i := KeyBelow(p.slots, n, key);
      assert Hosted(p.slots[i], keys);
      assert HoldsKey(p.slots, key, i) && HoldsKey(p.slots, key, n);
    }
  }

  lemma UsedStep(slots: seq<Slot>, n: nat)
    requires n < |slots|
    ensures UsedBelow(slots, n + 1) == if slots[n].state != Free then UsedBelow(slots, n) + {n} else UsedBelow(slots, n)
  {}

  /** Distinct keys: as many keys as slots in use. */
  lemma {:induction false} UsedByKey(c: Config, p: Pool, keys: set<Key>, n: nat)
    requires Inv(c, p) && Hosts(p, keys) && n <= |p.slots|
    ensures KeysBelow(p.slots, n) <= keys && |UsedBelow(p.slots, n)| == |KeysBelow(p.slots, n)|
  {
    if n > 0 {
      UsedByKey(c, p, keys, n - 1);
      UsedStep(p.slots, n - 1);
      if p.slots[n - 1].state != Free { KeyIsNew(c, p, keys, n - 1); }
    }
  }

  lemma {:induction false} CountBelow(slots: seq<Slot>, n: nat, peer: nat)
    requires n <= |slots| && forall i :: 0 <= i < |slots| && slots[i].counted ==> slots[i].state != Free
    ensures CountPeer(slots[..n], peer) <= |UsedBelow(slots, n)|
  {
    if n > 0 {
      CountBelow(slots, n - 1, peer);
      assert slots[..n][..n - 1] == slots[..n - 1];
      var before, all := UsedBelow(slots, n - 1), UsedBelow(slots, n);
      assert all == if slots[n - 1].state != Free then before + {n - 1} else before;
    }
  }

  /** A packet that has no slot yet finds a free one within its quota. */
  lemma RoomForKey(c: Config, p: Pool, keys: set<Key>, key: Key)
    requires Inv(c, p) && Hosts(p, keys) && |keys| <= c.perPeerSlots <= c.slots && key in keys
    requires Find(p.slots, key) == -1
    ensures CountPeer(p.slots, key.peer) < c.perPeerSlots && p.free != []
  {
    var n := |p.slots|;
    UsedByKey(c, p, keys, n);
    if key in KeysBelow(p.slots, n) {
      var i := KeyBelow(p.slots, n, key);
      assert Hosted(p.slots[i], keys) && HoldsKey(p.slots, key, i);
    }
    SubsetSize(KeysBelow(p.slots, n), keys - {key});
    forall i | 0 <= i < n && p.slots[i].counted ensures p.slots[i].state != Free { assert Shape(c, p.slots[i]); }
    CountBelow(p.slots, n, key.peer);
    assert p.slots[..n] == p.slots;
    if p.free == [] { AllUsed(p); }
  }

  lemma AllUsed(p: Pool)
    requires FreeExact(p) && p.free == []
    ensures |UsedBelow(p.slots, |p.slots|)| == |p.slots|
  {
    forall i | 0 <= i < |p.slots| ensures p.slots[i].state != Free { assert i !in p.free; }
    assert UsedBelow(p.slots, |p.slots|) == Below(|p.slots|);
  }

  // ----- a record of another packet

  /** What a record of the key does before it is stored. */
  lemma PrepareHosts(c: Config, p: Pool, keys: set<Key>, now: int, key: Key, count: nat)
    requires Inv(c, p) && Hosts(p, keys) && |keys| <= c.perPeerSlots <= c.slots && key in keys
    requires key.peer < c.maxPeers && 1 <= count <= MAX_FRAGMENTS
    ensures var a := Prepare(c, p, now, key, count);
            && Hosts(a.pool, keys) && 0 <= a.index < |p.slots|
            && forall i :: 0 <= i < |p.slots| && Live(p.slots[i]) && p.slots[i].key != key ==>
                 i != a.index && a.pool.slots[i] == p.slots[i]
  {
    var q := DropIf(c, p, key, s => Expired(c, s, now));
    DropHosts(c, p, keys, key, s => Expired(c, s, now));
    if Find(q.slots, key) == -1 {
      RoomForKey(c, q, keys, key);
      FreeHead(c, q);
      var t := Start(q, now, key, count);
      forall i | 0 <= i < |t.slots| ensures Hosted(t.slots[i], keys) { assert Hosted(q.slots[i], keys); }
    }
  }

  lemma DropHosts(c: Config, p: Pool, keys: set<Key>, key: Key, cond: Slot -> bool)
    requires Inv(c, p) && Hosts(p, keys)
    ensures var q := DropIf(c, p, key, cond);
            && Inv(c, q) && Hosts(q, keys)
            && forall i :: 0 <= i < |p.slots| && Live(p.slots[i]) && p.slots[i].key != key ==> q.slots[i] == p.slots[i]
  {
    var q, f := DropIf(c, p, key, cond), Find(p.slots, key);
    if f >= 0 { ClearKeepsInv(c, p, f); }
    forall i | 0 <= i < |q.slots| ensures Hosted(q.slots[i], keys) { assert Hosted(p.slots[i], keys); }
  }

  lemma DeliverHosts(c: Config, p: Pool, keys: set<Key>, i: nat, r: Record, evicted: Option<Key>)
    requires Inv(c, p) && Hosts(p, keys) && i < |p.slots| && Live(p.slots[i])
    requires CheckRecord(c, p.slots[i].key, r).None?
    ensures Hosts(Deliver(c, p, i, r, evicted).pool, keys)
  {
    var q := Deliver(c, p, i, r, evicted).pool;
    assert Shape(c, p.slots[i]);
    forall j | 0 <= j < |q.slots| ensures Hosted(q.slots[j], keys) { assert Hosted(p.slots[j], keys); }
  }

  /** A record of a hosted key keeps the pool hosted and touches no slot of another key. */
  lemma AcceptHosts(c: Config, p: Pool, keys: set<Key>, now: int, key: Key, r: Record)
    requires Inv(c, p) && Hosts(p, keys) && |keys| <= c.perPeerSlots <= c.slots && key in keys
    ensures var q := Accept(c, p, now, key, r).pool;
            && Hosts(q, keys)
            && forall i :: 0 <= i < |p.slots| && Live(p.slots[i]) && p.slots[i].key != key ==> q.slots[i] == p.slots[i]
  {
    DropHosts(c, p, keys, key, s => true);
    if CheckKey(c, key).None? && CheckRecord(c, key, r).None? {
      var n := r.header.fragmentCount;
      PrepareHosts(c, p, keys, now, key, n);
      PrepareKeepsInv(c, p, now, key, n);
      PrepareKeepsCore(c, p, now, key, n);
      var a := Prepare(c, p, now, key, n);
      DeliverHosts(c, a.pool, keys, a.index, r, a.evicted);
    }
  }

  // ----- whole runs

  /** Records of hosted keys only, and those of key are records of the packet that
      arrive before the time limit. */
  ghost predicate Quiet(ops: seq<Op>, keys: set<Key>, key: Key, frags: seq<Record>, limit: int) {
    forall j {:trigger QuietOp(ops[j], keys, key, frags, limit)} :: 0 <= j < |ops| ==>
      QuietOp(ops[j], keys, key, frags, limit)
  }

  predicate QuietOp(op: Op, keys: set<Key>, key: Key, frags: seq<Record>, limit: int) {
    && op.AcceptOp? && op.key in keys
    && (op.key == key ==> IsRecordOf(op.record, frags) && op.now < limit)
  }

  lemma QuietRest(ops: seq<Op>, keys: set<Key>, key: Key, frags: seq<Record>, limit: int)
    requires Quiet(ops, keys, key, frags, limit) && ops != []
    ensures QuietOp(ops[0], keys, key, frags, limit) && Quiet(ops[1..], keys, key, frags, limit)
  {
    forall j | 0 <= j < |ops[1..]| ensures QuietOp(ops[1..][j], keys, key, frags, limit) {
      assert QuietOp(ops[j + 1], keys, key, frags, limit);
    }
  }

  /** Once a packet has its slot, a quiet run leaves the slot to it. */
  lemma {:induction false} QuietIsUndisturbing(c: Config, p: Pool, i: nat, ops: seq<Op>, keys: set<Key>, peer: nat,
                                               frags: seq<Record>, packet: seq<byte>, meta: Metadata, seen: set<nat>)
    requires Carries(c, peer, frags, packet, meta) && PoolHolding(c, p, i, KeyOf(peer, meta), frags, seen)
    requires Hosts(p, keys) && |keys| <= c.perPeerSlots
    requires Quiet(ops, keys, KeyOf(peer, meta), frags, p.slots[i].firstSeen + c.lifetime)
    ensures Undisturbing(c, p, i, p.slots[i].firstSeen, ops, KeyOf(peer, meta), frags)
    decreases |ops|
  {
    var key, first := KeyOf(peer, meta), p.slots[i].firstSeen;
    if ops != [] {
      var op, q := ops[0], Apply(c, p, ops[0]);
      QuietRest(ops, keys, key, frags, first + c.lifetime);
      StepKeepsInv(c, p, op);
      AcceptHosts(c, p, keys, op.now, op.key, op.record);
      if op.key == key {
        var k := op.record.header.fragmentIndex;
        NextRecord(c, p, i, op.now, peer, frags, packet, meta, seen, k);
        QuietIsUndisturbing(c, q, i, ops[1..], keys, peer, frags, packet, meta, seen + {k});
      } else {
        QuietIsUndisturbing(c, q, i, ops[1..], keys, peer, frags, packet, meta, seen);
      }
    }
  }

  lemma NotHosted(p: Pool, keys: set<Key>, key: Key)
    requires Hosts(p, keys) && key !in keys
    ensures Find(p.slots, key) == -1
  {
    forall j ensures !HoldsKey(p.slots, key, j) {
      if 0 <= j < |p.slots| { assert Hosted(p.slots[j], keys); }
    }
  }

  /** From a pool without the packet, a quiet run spares its slot from the first
      record on. Arrivals lie within a lifetime of each other. */
  lemma {:induction false} QuietIsSpared(c: Config, p: Pool, ops: seq<Op>, keys: set<Key>, peer: nat,
                                frags: seq<Record>,
                                         packet: seq<byte>, meta: Metadata, limit: int)
    requires Carries(c, peer, frags, packet, meta) && Inv(c, p) && Hosts(p, keys - {KeyOf(peer, meta)})
    requires KeyOf(peer, meta) in keys && |keys| <= c.perPeerSlots
    requires Quiet(ops, keys, KeyOf(peer, meta), frags, limit) && NotBefore(ops, limit - c.lifetime)
    ensures Spared(c, p, ops, KeyOf(peer, meta), frags)
    decreases |ops|
  {
    var key := KeyOf(peer, meta);
    if ops != [] {
      var op, q := ops[0], Apply(c, p, ops[0]);
      QuietRest(ops, keys, key, frags, limit);
      StepKeepsInv(c, p, op);
      if op.key == key {
        FirstIsSpared(c, p, ops, keys, peer, frags, packet, meta, limit);
      } else {
        AcceptHosts(c, p, keys - {key}, op.now, op.key, op.record);
        QuietIsSpared(c, q, ops[1..], keys, peer, frags, packet, meta, limit);
      }
    }
  }

  predicate NotBefore(ops: seq<Op>, start: int) {
    forall j :: 0 <= j < |ops| && ops[j].AcceptOp? ==> start <= ops[j].now
  }

  lemma FirstIsSpared(c: Config, p: Pool, ops: seq<Op>, keys: set<Key>, peer: nat, frags: seq<Record>,
                      packet: seq<byte>, meta: Metadata, limit: int)
    requires Carries(c, peer, frags, packet, meta) && Inv(c, p) && Hosts(p, keys - {KeyOf(peer, meta)})
    requires KeyOf(peer, meta) in keys && |keys| <= c.perPeerSlots
    requires Quiet(ops, keys, KeyOf(peer, meta), frags, limit) && NotBefore(ops, limit - c.lifetime)
    requires ops != [] && ops[0].AcceptOp? && ops[0].key == KeyOf(peer, meta)
    ensures Spared(c, p, ops, KeyOf(peer, meta), frags)
  {
    var op, key, q := ops[0], KeyOf(peer, meta), Apply(c, p, ops[0]);
    QuietRest(ops, keys, key, frags, limit);
    StepKeepsInv(c, p, op);
    OpensRoom(c, p, keys, key, op.now, frags);
    var i, k := Opening(c, p, op.now, key, frags), op.record.header.fragmentIndex;
    FirstRecord(c, p, op.now, peer, frags, packet, meta, k);
    AcceptHosts(c, p, keys, op.now, key, op.record);
    QuietLater(ops[1..], keys, key, frags, limit, op.now + c.lifetime);
    QuietIsUndisturbing(c, q, i, ops[1..], keys, peer, frags, packet, meta, {k});
  }

  lemma OpensRoom(c: Config, p: Pool, keys: set<Key>, key: Key, now: int, frags: seq<Record>)
    requires Inv(c, p) && Hosts(p, keys - {key}) && key in keys && |keys| <= c.perPeerSlots
    ensures Hosts(p, keys) && Find(p.slots, key) == -1 && Opening(c, p, now, key, frags) >= 0
  {
    NotHosted(p, keys - {key}, key);
    HostsMore(p, keys - {key}, keys);
    RoomForKey(c, p, keys, key);
  }

  lemma HostsMore(p: Pool, keys: set<Key>, more: set<Key>)
    requires Hosts(p, keys) && keys <= more
    ensures Hosts(p, more)
  {
    forall i | 0 <= i < |p.slots| ensures Hosted(p.slots[i], more) { assert Hosted(p.slots[i], keys); }
  }

  lemma QuietLater(ops: seq<Op>, keys: set<Key>, key: Key, frags: seq<Record>, limit: int, later: int)
    requires Quiet(ops, keys, key, frags, limit) && limit <= later
    ensures Quiet(ops, keys, key, frags, later)
  {
    forall j | 0 <= j < |ops| ensures QuietOp(ops[j], keys, key, frags, later) {
      assert QuietOp(ops[j], keys, key, frags, limit);
    }
  }

  lemma EmptyHosts(c: Config, keys: set<Key>)
    requires ConfigOk(c)
    ensures Hosts(Fresh(c), keys)
  {}
}
