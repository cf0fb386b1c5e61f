/** What holds in every state and over every run of the reassembler. */
module PoolTheorems {
  import opened Wire
  import opened PoolSpec

  // ----- operations and runs

  datatype Op =
    | AcceptOp(now: int, key: Key, record: Record)
    | ExpireOp(now: int)
    | PurgeOp(peer: nat)
    | ReleaseOp(handle: Handle)

  ghost function Apply(c: Config, p: Pool, op: Op): (q: Pool)
    requires Core(c, p)
    ensures |q.slots| == |p.slots|
  {
    match op
    case AcceptOp(now, key, r) => Accept(c, p, now, key, r).pool
    case ExpireOp(now) => ExpireUpTo(c, p, now, |p.slots|)
    case PurgeOp(peer) => if peer < c.maxPeers then PurgeUpTo(p, peer, |p.slots|) else p
    case ReleaseOp(h) => Release(p, h).0
  }

  /** An assembling slot still misses a fragment; a completed one is tiled by its fragments. */
  ghost predicate Settled(c: Config, s: Slot) {
    && Shape(c, s)
    && (s.state == Assembling ==> !Full(s))
    && (s.state == Whole ==> Full(s) && Tiles(s, s.packetLen))
  }

  ghost predicate AllSettled(c: Config, slots: seq<Slot>) {
    forall i {:trigger Settled(c, slots[i])} :: 0 <= i < |slots| ==> Settled(c, slots[i])
  }

  predicate QuotaOk(c: Config, slots: seq<Slot>) {
    forall peer :: 0 <= peer < c.maxPeers ==> CountPeer(slots, peer) <= c.perPeerSlots
  }

  ghost predicate Inv(c: Config, p: Pool) {
    ConfigOk(c) && Core(c, p) && AllSettled(c, p.slots) && QuotaOk(c, p.slots)
  }

  // ----- one step keeps the invariant

  lemma SetKeepsInv(c: Config, p: Pool, q: Pool, i: nat)
    requires Inv(c, p) && Core(c, q) && QuotaOk(c, q.slots) && i < |p.slots| == |q.slots|
    requires q.slots == p.slots[i := q.slots[i]] && Settled(c, q.slots[i])
    ensures Inv(c, q)
  {
    forall j | 0 <= j < |q.slots| ensures Settled(c, q.slots[j]) {
      assert Settled(c, p.slots[j]);
    }
  }

  lemma QuotaAfterSet(c: Config, slots: seq<Slot>, i: nat, s: Slot)
    requires QuotaOk(c, slots) && i < |slots| && (SameQuota(slots[i], s) || !s.counted)
    ensures QuotaOk(c, slots[i := s])
  {
    var t := slots[i := s];
    forall peer | 0 <= peer < c.maxPeers ensures CountPeer(t, peer) <= c.perPeerSlots {
      CountPeerUpdate(slots, i, s, peer);
    }
  }

  lemma ClearKeepsInv(c: Config, p: Pool, i: nat)
    requires Inv(c, p) && i < |p.slots|
    ensures Inv(c, Clear(p, i))
  {
    if p.slots[i].state != Free {
      var s := Cleared(p.slots[i]);
      assert Shape(c, p.slots[i]);
      ClearKeepsCore(c, p, i);
      QuotaAfterSet(c, p.slots, i, s);
      SetKeepsInv(c, p, Clear(p, i), i);
    }
  }

  lemma StartKeepsInv(c: Config, p: Pool, now: int, key: Key, count: nat)
    requires Inv(c, p) && p.free != [] && p.free[0] < |p.slots| && Find(p.slots, key) == -1
    requires key.peer < c.maxPeers && 1 <= count <= MAX_FRAGMENTS && CountPeer(p.slots, key.peer) < c.perPeerSlots
    ensures Inv(c, Start(p, now, key, count))
  {
    var q, i := Start(p, now, key, count), p.free[0];
    FreeHead(c, p);
    StartKeepsCore(c, p, now, key, count);
    forall peer | 0 <= peer < c.maxPeers ensures CountPeer(q.slots, peer) <= c.perPeerSlots {
      CountPeerUpdate(p.slots, i, q.slots[i], peer);
    }
    assert Shape(c, q.slots[i]);
    assert 0 !in q.slots[i].present;
    SetKeepsInv(c, p, q, i);
  }

  lemma ReplaceKeepsInv(c: Config, p: Pool, i: nat, now: int, key: Key, count: nat)
    requires Inv(c, p) && i < |p.slots| && p.slots[i].state == Assembling && Find(p.slots, key) == -1
    requires key.peer < c.maxPeers && 1 <= count <= MAX_FRAGMENTS
    requires CountPeer(p.slots, key.peer) < c.perPeerSlots || p.slots[i].key.peer == key.peer
    ensures Inv(c, Replace(p, i, now, key, count).pool)
  {
    assert Shape(c, p.slots[i]);
    ClearKeepsInv(c, p, i);
    ClearForgets(c, p, i, key);
    CountPeerUpdate(p.slots, i, Cleared(p.slots[i]), key.peer);
    StartKeepsInv(c, Clear(p, i), now, key, count);
  }

  lemma AllocateKeepsInv(c: Config, p: Pool, now: int, key: Key, count: nat)
    requires Inv(c, p) && Find(p.slots, key) == -1 && key.peer < c.maxPeers && 1 <= count <= MAX_FRAGMENTS
    ensures Inv(c, Allocate(c, p, now, key, count).pool)
  {
    var a := Allocate(c, p, now, key, count);
    if a.evicted.Some? {
      ReplaceKeepsInv(c, p, a.index, now, key, count);
    } else if a.index >= 0 {
      FreeHead(c, p);
      StartKeepsInv(c, p, now, key, count);
    }
  }

  /** Freeing a slot after a fragment was copied into it only leaves other bytes behind. */
  lemma RejectKeepsInv(c: Config, p: Pool, i: nat, s: Slot)
    requires Inv(c, p) && i < |p.slots| && Live(p.slots[i]) && Shape(c, s)
    requires s.state == p.slots[i].state && s.generation == p.slots[i].generation && s.key == p.slots[i].key
    requires s.state == Whole ==> s == p.slots[i]
    ensures var q := p.(slots := p.slots[i := s]); Inv(c, if s.state == Whole then q else Clear(q, i))
  {
    var q := p.(slots := p.slots[i := s]);
    assert q.slots[i := p.slots[i]] == p.slots;
    if s.state == Whole {
      assert q == p;
    } else {
      assert Shape(c, p.slots[i]);
      var a, b := Clear(p, i), Clear(q, i);
      ClearKeepsInv(c, p, i);
      SetKeepsCore(c, p, i, s);
      ClearKeepsCore(c, q, i);
      assert b.slots == a.slots[i := b.slots[i]];
      QuotaAfterSet(c, a.slots, i, b.slots[i]);
      assert Shape(c, b.slots[i]);
      SetKeepsInv(c, a, b, i);
    }
  }

  lemma DeliverKeepsInv(c: Config, p: Pool, i: nat, r: Record, evicted: Option<Key>)
    requires Inv(c, p) && i < |p.slots| && Live(p.slots[i]) && CheckRecord(c, p.slots[i].key, r).None?
    ensures Inv(c, Deliver(c, p, i, r, evicted).pool)
  {
    assert Settled(c, p.slots[i]);
    var v := Judge(p.slots[i], r);
    DeliverKeepsCore(c, p, i, r, evicted);
    if v.Keep? || v.Finish? {
      assert p.slots[i].state == Assembling;
      QuotaAfterSet(c, p.slots, i, v.slot);
      var q := p.(slots := p.slots[i := v.slot]);
      assert Shape(c, q.slots[i]);
      SetKeepsInv(c, p, q, i);
    } else if v.Reject? {
      RejectKeepsInv(c, p, i, v.slot);
    }
  }

  lemma PrepareKeepsInv(c: Config, p: Pool, now: int, key: Key, count: nat)
    requires Inv(c, p) && key.peer < c.maxPeers && 1 <= count <= MAX_FRAGMENTS
    ensures Inv(c, Prepare(c, p, now, key, count).pool)
  {
    var i := Find(p.slots, key);
    if i >= 0 { ClearKeepsInv(c, p, i); }
    var q := DropIf(c, p, key, s => Expired(c, s, now));
    if Find(q.slots, key) < 0 { AllocateKeepsInv(c, q, now, key, count); }
  }

  lemma AcceptKeepsInv(c: Config, p: Pool, now: int, key: Key, r: Record)
    requires Inv(c, p)
    ensures Inv(c, Accept(c, p, now, key, r).pool)
  {
    var i := Find(p.slots, key);
    if i >= 0 { ClearKeepsInv(c, p, i); }
    if CheckKey(c, key).None? && CheckRecord(c, key, r).None? {
      var a := Prepare(c, p, now, key, r.header.fragmentCount);
      PrepareKeepsInv(c, p, now, key, r.header.fragmentCount);
      PrepareKeepsCore(c, p, now, key, r.header.fragmentCount);
      if a.index >= 0 { DeliverKeepsInv(c, a.pool, a.index, r, a.evicted); }
    }
  }

  lemma {:induction false} ExpireKeepsInv(c: Config, p: Pool, now: int, n: nat)
    requires Inv(c, p) && n <= |p.slots|
    ensures Inv(c, ExpireUpTo(c, p, now, n))
  {
    if n > 0 {
      ExpireKeepsInv(c, p, now, n - 1);
      ClearKeepsInv(c, ExpireUpTo(c, p, now, n - 1), n - 1);
    }
  }

  lemma PurgeOneKeepsInv(c: Config, p: Pool, peer: nat, i: nat)
    requires Inv(c, p) && i < |p.slots|
    ensures Inv(c, PurgeOne(p, peer, i))
  {
    if Purges(p.slots[i], peer) && p.slots[i].state == Whole {
      assert Settled(c, p.slots[i]);
      DetachKeepsCore(c, p, i);
      QuotaAfterSet(c, p.slots, i, Detached(p.slots[i]));
      TilesTransfer(p.slots[i], Detached(p.slots[i]), p.slots[i].packetLen);
      SetKeepsInv(c, p, PurgeOne(p, peer, i), i);
    } else {
      ClearKeepsInv(c, p, i);
    }
  }

  lemma {:induction false} PurgeKeepsInv(c: Config, p: Pool, peer: nat, n: nat)
    requires Inv(c, p) && n <= |p.slots|
    ensures Inv(c, PurgeUpTo(p, peer, n))
  {
    if n > 0 {
      PurgeKeepsInv(c, p, peer, n - 1);
      PurgeOneKeepsInv(c, PurgeUpTo(p, peer, n - 1), peer, n - 1);
    }
  }

  lemma StepKeepsInv(c: Config, p: Pool, op: Op)
    requires Inv(c, p)
    ensures Inv(c, Apply(c, p, op))
  {
    match op
    case AcceptOp(now, key, r) => AcceptKeepsInv(c, p, now, key, r);
    case ExpireOp(now) => ExpireKeepsInv(c, p, now, |p.slots|);
    case PurgeOp(peer) => PurgeKeepsInv(c, p, peer, |p.slots|);
    case ReleaseOp(h) => if Releasable(p, h) { ClearKeepsInv(c, p, h.index); }
  }

  ghost function Run(c: Config, p: Pool, ops: seq<Op>): (q: Pool)
    requires Inv(c, p)
    ensures Inv(c, q)
    decreases |ops|
  {
    if ops == [] then p
    else
      StepKeepsInv(c, p, ops[0]);
      Run(c, Apply(c, p, ops[0]), ops[1..])
  }

  lemma FreshIsInv(c: Config)
    requires ConfigOk(c)
    ensures Inv(c, Fresh(c))
  {
    var p := Fresh(c);
    FreshIsCore(c);
    forall i | 0 <= i < |p.slots| ensures Settled(c, p.slots[i]) { assert Shape(c, p.slots[i]); }
    forall peer | 0 <= peer < c.maxPeers
      ensures CountPeer(p.slots, peer) <= c.perPeerSlots
    {
      CountNone(p.slots, peer);
    }
  }

  // ----- completed packets keep their bytes until they are released

  /** The slot named by h holds a completed packet with these bytes. */
  ghost predicate Protects(p: Pool, h: Handle, key: Key, data: seq<byte>) {
    && Releasable(p, h)
    && p.slots[h.index].packetLen <= |p.slots[h.index].buf|
    && p.slots[h.index].buf[..p.slots[h.index].packetLen] == data
    && p.slots[h.index].key == key
  }

  /** b is what a completed slot a becomes under anything but its own release. */
  ghost predicate Undisturbed(a: Slot, b: Slot) {
    b == a || b == Detached(a)
  }

  lemma AllocateSparesWhole(c: Config, p: Pool, now: int, key: Key, count: nat, i: nat)
    requires Core(c, p) && i < |p.slots| && p.slots[i].state == Whole
    ensures var a := Allocate(c, p, now, key, count); a.pool.slots[i] == p.slots[i] && a.index != i
  {
    if p.free != [] { FreeHead(c, p); }
  }

  lemma PrepareSparesWhole(c: Config, p: Pool, now: int, key: Key, count: nat, i: nat)
    requires Core(c, p) && i < |p.slots| && p.slots[i].state == Whole
    ensures Prepare(c, p, now, key, count).pool.slots[i] == p.slots[i]
  {
    var q := DropIf(c, p, key, s => Expired(c, s, now));
    DropKeepsCore(c, p, key, s => Expired(c, s, now));
    AllocateSparesWhole(c, q, now, key, count, i);
  }

  lemma DeliverSparesWhole(c: Config, p: Pool, i: nat, r: Record, evicted: Option<Key>)
    requires Inv(c, p) && i < |p.slots| && Live(p.slots[i]) && CheckRecord(c, p.slots[i].key, r).None?
    requires p.slots[i].state == Whole
    ensures Deliver(c, p, i, r, evicted).pool == p
  {
    assert Settled(c, p.slots[i]);
  }

  lemma AcceptSparesWhole(c: Config, p: Pool, now: int, key: Key, r: Record, i: nat)
    requires Inv(c, p) && i < |p.slots| && p.slots[i].state == Whole
    ensures Accept(c, p, now, key, r).pool.slots[i] == p.slots[i]
  {
    if CheckKey(c, key).None? && CheckRecord(c, key, r).None? {
      var a := Prepare(c, p, now, key, r.header.fragmentCount);
      PrepareKeepsInv(c, p, now, key, r.header.fragmentCount);
      PrepareKeepsCore(c, p, now, key, r.header.fragmentCount);
      PrepareSparesWhole(c, p, now, key, r.header.fragmentCount, i);
      if a.index == i { DeliverSparesWhole(c, a.pool, i, r, a.evicted); }
    }
  }

  lemma {:induction false} ExpireSparesWhole(c: Config, p: Pool, now: int, n: nat, i: nat)
    requires n <= |p.slots| && i < |p.slots| && p.slots[i].state == Whole
    ensures ExpireUpTo(c, p, now, n).slots[i] == p.slots[i]
  {
    if n > 0 { ExpireSparesWhole(c, p, now, n - 1, i); }
  }

  lemma {:induction false} PurgeSparesWhole(c: Config, p: Pool, peer: nat, n: nat, i: nat)
    requires n <= |p.slots| && i < |p.slots| && p.slots[i].state == Whole
    ensures Undisturbed(p.slots[i], PurgeUpTo(p, peer, n).slots[i])
  {
    if n > 0 { PurgeSparesWhole(c, p, peer, n - 1, i); }
  }

  lemma StepSparesWhole(c: Config, p: Pool, op: Op, i: nat)
    requires Inv(c, p) && i < |p.slots| && p.slots[i].state == Whole
    requires op != ReleaseOp(Handle(i, p.slots[i].generation))
    ensures Apply(c, p, op).slots[i] == p.slots[i] || Apply(c, p, op).slots[i] == Detached(p.slots[i])
  {
    match op
    case AcceptOp(now, key, r) => AcceptSparesWhole(c, p, now, key, r, i);
    case ExpireOp(now) => ExpireSparesWhole(c, p, now, |p.slots|, i);
    case PurgeOp(peer) => PurgeSparesWhole(c, p, peer, |p.slots|, i);
    case ReleaseOp(h) =>
  }

  /** Until its handle is released a completed packet keeps its bytes, whatever
      else happens: late and conflicting fragments, expiry, purges, evictions
      and the release of other packets. */
  lemma {:induction false} CompletedBytesAreStable(c: Config, p: Pool, ops: seq<Op>, h: Handle, key: Key,
                                data: seq<byte>)
    requires Inv(c, p) && Protects(p, h, key, data) && ReleaseOp(h) !in ops
    ensures Protects(Run(c, p, ops), h, key, data)
    decreases |ops|
  {
    if ops != [] {
      StepSparesWhole(c, p, ops[0], h.index);
      StepKeepsInv(c, p, ops[0]);
      assert ops == [ops[0]] + ops[1..];
      CompletedBytesAreStable(c, Apply(c, p, ops[0]), ops[1..], h, key, data);
    }
  }

  // ----- a handle is good for one release

  /** h no longer names a packet and never will. */
  predicate Spent(p: Pool, h: Handle) {
    && 0 <= h.index < |p.slots|
    && p.slots[h.index].generation >= h.generation
    && (p.slots[h.index].generation == h.generation ==> p.slots[h.index].state == Free)
  }

  /** Generations only grow, and only when a free slot is started. */
  predicate Ages(a: Slot, b: Slot) {
    b.generation >= a.generation && (b.generation == a.generation ==> a.state == Free ==> b.state == Free)
  }

  lemma PrepareAges(c: Config, p: Pool, now: int, key: Key, count: nat, i: nat)
    requires Core(c, p) && i < |p.slots|
    ensures Ages(p.slots[i], Prepare(c, p, now, key, count).pool.slots[i])
  {
    var q := DropIf(c, p, key, s => Expired(c, s, now));
    DropKeepsCore(c, p, key, s => Expired(c, s, now));
    assert Ages(p.slots[i], q.slots[i]);
    if q.free != [] { FreeHead(c, q); }
  }

  lemma DeliverAges(c: Config, p: Pool, i: nat, r: Record, evicted: Option<Key>, j: nat)
    requires Core(c, p) && i < |p.slots| && Live(p.slots[i]) && CheckRecord(c, p.slots[i].key, r).None? && j < |p.slots|
    ensures Ages(p.slots[j], Deliver(c, p, i, r, evicted).pool.slots[j])
  {
    assert Shape(c, p.slots[i]);
  }

  lemma AcceptAges(c: Config, p: Pool, now: int, key: Key, r: Record, i: nat)
    requires Inv(c, p) && i < |p.slots|
    ensures Ages(p.slots[i], Accept(c, p, now, key, r).pool.slots[i])
  {
    if CheckKey(c, key).None? && CheckRecord(c, key, r).None? {
      var a := Prepare(c, p, now, key, r.header.fragmentCount);
      PrepareKeepsCore(c, p, now, key, r.header.fragmentCount);
      PrepareAges(c, p, now, key, r.header.fragmentCount, i);
      if a.index >= 0 { DeliverAges(c, a.pool, a.index, r, a.evicted, i); }
    }
  }

  lemma {:induction false} ExpireAges(c: Config, p: Pool, now: int, n: nat, i: nat)
    requires n <= |p.slots| && i < |p.slots|
    ensures Ages(p.slots[i], ExpireUpTo(c, p, now, n).slots[i])
  {
    if n > 0 { ExpireAges(c, p, now, n - 1, i); }
  }

  lemma {:induction false} PurgeAges(p: Pool, peer: nat, n: nat, i: nat)
    requires n <= |p.slots| && i < |p.slots|
    ensures Ages(p.slots[i], PurgeUpTo(p, peer, n).slots[i])
  {
    if n > 0 { PurgeAges(p, peer, n - 1, i); }
  }

  lemma StepAges(c: Config, p: Pool, op: Op, i: nat)
    requires Inv(c, p) && i < |p.slots|
    ensures Ages(p.slots[i], Apply(c, p, op).slots[i])
  {
    match op
    case AcceptOp(now, key, r) => AcceptAges(c, p, now, key, r, i);
    case ExpireOp(now) => ExpireAges(c, p, now, |p.slots|, i);
    case PurgeOp(peer) => PurgeAges(p, peer, |p.slots|, i);
    case ReleaseOp(h) =>
  }

  lemma {:induction false} SpentForever(c: Config, p: Pool, ops: seq<Op>, h: Handle)
    requires Inv(c, p) && Spent(p, h)
    ensures Spent(Run(c, p, ops), h) && !Releasable(Run(c, p, ops), h)
    decreases |ops|
  {
    if ops != [] {
      StepAges(c, p, ops[0], h.index);
      StepKeepsInv(c, p, ops[0]);
      SpentForever(c, Apply(c, p, ops[0]), ops[1..], h);
    }
  }

  /** Once a handle was released, every later release of it fails, in every
      state any run can reach. */
  lemma ReleasedAtMostOnce(c: Config, p: Pool, h: Handle, ops: seq<Op>)
    requires Inv(c, p) && Release(p, h).1.None?
    ensures var q := Release(p, h).0;
            Inv(c, q) && Release(Run(c, q, ops), h) == (Run(c, q, ops), Some(InvalidHandle))
  {
    StepKeepsInv(c, p, ReleaseOp(h));
    SpentForever(c, Release(p, h).0, ops, h);
  }

  // ----- which packet an Accept completes

  lemma PrepareMakesNoWhole(c: Config, p: Pool, now: int, key: Key, count: nat, j: nat)
    requires Core(c, p) && j < |p.slots| && key.peer < c.maxPeers && 1 <= count <= MAX_FRAGMENTS && ConfigOk(c)
    ensures var q := Prepare(c, p, now, key, count).pool;
            (q.slots[j].state == Whole ==> q.slots[j] == p.slots[j])
            && (q.slots[j].state == Assembling && q.slots[j] != p.slots[j] ==>
                 q.slots[j].generation == p.slots[j].generation + 1)
  {
    var q := DropIf(c, p, key, s => Expired(c, s, now));
    DropKeepsCore(c, p, key, s => Expired(c, s, now));
    if q.free != [] { FreeHead(c, q); }
  }

  lemma DeliverCompletes(c: Config, p: Pool, i: nat, r: Record, evicted: Option<Key>)
    requires Inv(c, p) && i < |p.slots| && Live(p.slots[i]) && CheckRecord(c, p.slots[i].key, r).None?
    ensures var t := Deliver(c, p, i, r, evicted);
            if t.outcome.Done? && t.outcome.status.Completed? then
              var packet := t.outcome.status.packet;
              packet.handle == Handle(i, p.slots[i].generation) && packet.key == p.slots[i].key &&
                  p.slots[i].state == Assembling
              && Live(t.pool.slots[i]) && Protects(t.pool, packet.handle, packet.key, packet.data)
            else t.pool.slots[i].state == Whole ==> t.pool.slots[i] == p.slots[i]
  {
    assert Settled(c, p.slots[i]);
  }

  /** Accept hands out a packet under a handle that named none before, and that
      packet is its slot's content from then on; it completes no other slot. */
  lemma AcceptCompletesItsOwn(c: Config, p: Pool, now: int, key: Key, r: Record)
    requires Inv(c, p)
    ensures var t := Accept(c, p, now, key, r);
            && (t.outcome.Done? && t.outcome.status.Completed? ==>
                  var packet := t.outcome.status.packet;
                  packet.key == key && !Releasable(p, packet.handle) &&
                      Protects(t.pool, packet.handle, key, packet.data)
                  && Live(t.pool.slots[packet.handle.index]))
            && (forall j :: 0 <= j < |p.slots| && t.pool.slots[j].state == Whole && t.pool.slots[j] != p.slots[j] ==>
                  t.outcome.Done? && t.outcome.status.Completed? && t.outcome.status.packet.handle.index == j)
  {
    var t := Accept(c, p, now, key, r);
    if CheckKey(c, key).None? && CheckRecord(c, key, r).None? {
      var a := Prepare(c, p, now, key, r.header.fragmentCount);
      PrepareKeepsInv(c, p, now, key, r.header.fragmentCount);
      PrepareKeepsCore(c, p, now, key, r.header.fragmentCount);
      forall j: nat | j < |p.slots|
        ensures a.pool.slots[j].state == Whole ==> a.pool.slots[j] == p.slots[j]
        ensures a.pool.slots[j].state == Assembling && a.pool.slots[j] != p.slots[j] ==>
                a.pool.slots[j].generation == p.slots[j].generation + 1
      {
        PrepareMakesNoWhole(c, p, now, key, r.header.fragmentCount, j);
      }
      if a.index >= 0 { DeliverCompletes(c, a.pool, a.index, r, a.evicted); }
    }
  }
}
