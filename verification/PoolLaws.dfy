/** What single pool operations do to each slot, said without the definitions that
    the reassembler shares with its specification. */
module PoolLaws {
  import opened Wire
  import opened PoolSpec
  import opened PoolTheorems

  // ----- what a record must be

  predicate PeerOk(c: Config, key: Key) { key.peer < c.maxPeers }

  predicate KeyOk(c: Config, key: Key) { PeerOk(c, key) && key.session != 0 }

  predicate Named(key: Key, h: Header) {
    h.dataSessionID == key.session && h.laneID == key.lane && h.laneSequence == key.sequence
  }

  predicate Numbered(h: Header) { 1 <= h.fragmentCount <= 16 && h.fragmentIndex < h.fragmentCount }

  predicate Fitting(c: Config, r: Record) { 1 <= |r.data| && r.header.offset + |r.data| <= c.maxPacketSize }

  /** A record reaches a slot only if its peer is known, its session is not zero, its
      numbers are the key's, its place is one of at most 16 and its bytes lie in a
      packet. Otherwise the first of these that fails is reported. */
  lemma RefusedExactly(c: Config, p: Pool, now: int, key: Key, r: Record)
    requires Core(c, p)
    ensures var o, h := Accept(c, p, now, key, r).outcome, r.header;
            && (o == Failed(InvalidPeer) <==> !PeerOk(c, key))
            && (o == Failed(InvalidKey) <==> PeerOk(c, key) && !KeyOk(c, key))
            && (o == Failed(KeyMismatch) <==> KeyOk(c, key) && !Named(key, h))
            && (o == Failed(BadFragment) <==> KeyOk(c, key) && Named(key, h) && !Numbered(h))
            && (o == Failed(BadRange) <==> KeyOk(c, key) && Named(key, h) && Numbered(h) && !Fitting(c, r))
  {
    if CheckKey(c, key).None? && CheckRecord(c, key, r).None? {
      PrepareKeepsCore(c, p, now, key, r.header.fragmentCount);
    }
  }

  /** A record that is not well-formed costs its key the slot that assembles, as
      that packet cannot be trusted any more, and touches no other. */
  lemma IllFormedDropsItsOwn(c: Config, p: Pool, now: int, key: Key, r: Record, i: nat)
    requires Core(c, p) && i < |p.slots| &&
             !(KeyOk(c, key) && Named(key, r.header) && Numbered(r.header) && Fitting(c, r))
    ensures var q := Accept(c, p, now, key, r).pool;
            if KeyOk(c, key) && p.slots[i].state == Assembling && !p.slots[i].detached && p.slots[i].key == key
            then q.slots[i].state == Free else q.slots[i] == p.slots[i]
  {
    var k := Find(p.slots, key);
    if HoldsKey(p.slots, key, i) { assert k >= 0 && p.slots[k].key == p.slots[i].key && k == i; }
  }

  // ----- expiry

  /** The slot still assembles and its first record is a lifetime old. */
  predicate TimedOut(c: Config, s: Slot, now: int) {
    s.state == Assembling && s.firstSeen + c.lifetime <= now
  }

  function DueSlots(c: Config, slots: seq<Slot>, now: int, n: nat): set<nat>
    requires n <= |slots|
  {
    set i | 0 <= i < n && TimedOut(c, slots[i], now)
  }

  /** What becomes of a slot when time comes to now. */
  predicate AfterExpiry(c: Config, s: Slot, t: Slot, now: int) {
    if TimedOut(c, s, now) then t.state == Free else t == s
  }

  /** Expiry frees exactly the slots that time out and leaves every other one as it is. */
  lemma {:induction false} ExpireExactly(c: Config, p: Pool, now: int, n: nat)
    requires n <= |p.slots|
    ensures forall i :: 0 <= i < n ==> AfterExpiry(c, p.slots[i], ExpireUpTo(c, p, now, n).slots[i], now)
  {
    if n > 0 { ExpireExactly(c, p, now, n - 1); }
  }

  /** It counts them. */
  lemma {:induction false} ExpireCounts(c: Config, p: Pool, now: int, n: nat)
    requires n <= |p.slots|
    ensures ExpireCount(c, p, now, n) == |DueSlots(c, p.slots, now, n)|
  {
    if n > 0 {
      ExpireCounts(c, p, now, n - 1);
      var before, all := DueSlots(c, p.slots, now, n - 1), DueSlots(c, p.slots, now, n);
      assert all == if TimedOut(c, p.slots[n - 1], now) then before + {n - 1} else before;
    }
  }

  // ----- purging a peer

  predicate Owned(s: Slot, peer: nat) {
    s.state != Free && !s.detached && s.key.peer == peer
  }

  function OwnedSlots(slots: seq<Slot>, peer: nat, n: nat): set<nat>
    requires n <= |slots|
  {
    set i | 0 <= i < n && Owned(slots[i], peer)
  }

  predicate AfterPurge(s: Slot, t: Slot, peer: nat) {
    if !Owned(s, peer) then t == s
    else if s.state == Assembling then t.state == Free
    else t == s.(detached := true, counted := false)
  }

  /** Purging frees what the peer assembles, takes its completed packets out of
      lookup and quota with their bytes, and leaves every other slot as it is. */
  lemma {:induction false} PurgeExactly(p: Pool, peer: nat, n: nat)
    requires n <= |p.slots|
    ensures forall i :: 0 <= i < n ==> AfterPurge(p.slots[i], PurgeUpTo(p, peer, n).slots[i], peer)
  {
    if n > 0 { PurgeExactly(p, peer, n - 1); }
  }

  /** It counts both. */
  lemma {:induction false} PurgeCounts(p: Pool, peer: nat, n: nat)
    requires n <= |p.slots|
    ensures PurgeCount(p, peer, n) == |OwnedSlots(p.slots, peer, n)|
  {
    if n > 0 {
      PurgeCounts(p, peer, n - 1);
      var before, all := OwnedSlots(p.slots, peer, n - 1), OwnedSlots(p.slots, peer, n);
      assert all == if Owned(p.slots[n - 1], peer) then before + {n - 1} else before;
    }
  }

  // ----- eviction

  /** a was opened before b. */
  predicate OpenedBefore(a: Slot, b: Slot) {
    a.firstSeen < b.firstSeen || (a.firstSeen == b.firstSeen && a.born < b.born)
  }

  /** An assembling slot, of the peer when its quota is used up. */
  predicate Takable(s: Slot, full: bool, peer: nat) {
    s.state == Assembling && (full ==> s.key.peer == peer)
  }

  /** An allocation evicts only when the peer's quota is used up or no slot is free.
      It then takes an assembling slot, of that peer in the first case, and none
      that may be taken was opened before it. */
  lemma EvictsOldest(c: Config, p: Pool, now: int, key: Key, count: nat)
    requires FreeExact(p)
    ensures var a, full := Allocate(c, p, now, key, count), CountPeer(p.slots, key.peer) >= c.perPeerSlots;
            && (a.evicted.Some? ==> full || forall i :: 0 <= i < |p.slots| ==> p.slots[i].state != Free)
            && (a.evicted.Some? ==>
                  && 0 <= a.index && Takable(p.slots[a.index], full, key.peer) &&
                       a.evicted == Some(p.slots[a.index].key)
                  && forall i :: 0 <= i < |p.slots| && Takable(p.slots[i], full, key.peer) ==>
                       !OpenedBefore(p.slots[i], p.slots[a.index]))
            && (a.index < 0 ==> forall i :: 0 <= i < |p.slots| ==> !Takable(p.slots[i], full, key.peer))
  {
    var full := CountPeer(p.slots, key.peer) >= c.perPeerSlots;
    var o := OldestUpTo(p.slots, |p.slots|, if full then Some(key.peer) else None);
    forall i | 0 <= i < |p.slots| && Takable(p.slots[i], full, key.peer)
      ensures o >= 0 && !OpenedBefore(p.slots[i], p.slots[o])
    {
      assert Evictable(p.slots[i], if full then Some(key.peer) else None);
    }
    if !full && p.free == [] {
      forall i | 0 <= i < |p.slots| ensures p.slots[i].state != Free { assert i !in p.free; }
    }
  }

  // ----- a record that meets its slot

  /** The slot holds a fragment with this place and these bytes. */
  predicate Stores(s: Slot, r: Record) {
    var k, start := r.header.fragmentIndex as nat, r.header.offset as nat;
    && k in s.present && k < |s.offsets| && s.offsets[k] == start && k < |s.lengths| && s.lengths[k] == |r.data|
    && start + |r.data| <= |s.buf| && s.buf[start..start + |r.data|] == r.data
  }

  /** Byte b belongs to stored fragment j and to the record. */
  predicate Shared(s: Slot, r: Record, j: nat, b: nat) {
    j < |s.offsets| && j < |s.lengths| &&
    s.offsets[j] <= b < s.offsets[j] + s.lengths[j] && r.header.offset <= b < r.header.offset + |r.data|
  }

  ghost predicate Overlaps(s: Slot, r: Record) {
    exists j: nat, b: nat :: j in s.present && Shared(s, r, j, b)
  }

  /** Some fragment besides k is still missing. */
  predicate Misses(s: Slot, k: nat) {
    exists i :: 0 <= i < s.count && i !in s.present && i != k
  }

  /** A valid record in a live slot of its key: a repetition changes nothing, a
      record that contradicts what is stored is refused with the reason, and a
      new one is stored beside the others, which stay. */
  lemma RecordMeetsSlot(c: Config, s: Slot, r: Record)
    requires Shape(c, s) && s.state != Free && CheckRecord(c, s.key, r).None?
    ensures var v, k, fits := Judge(s, r), r.header.fragmentIndex as nat, s.count == r.header.fragmentCount;
            && (v == Reject(s, FragmentCountMismatch) <==> !fits)
            && (v == Same <==> fits && Stores(s, r))
            && (v == Reject(s, FragmentConflict) <==> fits && k in s.present && !Stores(s, r))
            && (v == Reject(s, FragmentOverlap) <==> fits && k !in s.present && Overlaps(s, r))
            && (v.Keep? <==> fits && k !in s.present && !Overlaps(s, r) && Misses(s, k))
            && (v.Keep? || v.Finish? ==>
                  && v.slot.present == s.present + {k} && Stores(v.slot, r) && v.slot.key == s.key
                  && v.slot.firstSeen == s.firstSeen && v.slot.generation == s.generation)
            && (v.Keep? ==> v.slot.state == s.state) && (v.Finish? ==> v.slot.state == Whole)
  {
    var start, end, k := r.header.offset, r.header.offset + |r.data|, r.header.fragmentIndex as nat;
    OverlapMeansCollides(c, s, r);
    var t := PlaceFragment(s, r);
    assert t.buf[start..end] == r.data;
    if !Full(t) {
      var i :| 0 <= i < t.count && i !in t.present;
      assert i !in s.present && i != k;
    }
  }

  lemma OverlapMeansCollides(c: Config, s: Slot, r: Record)
    requires Shape(c, s) && s.state != Free && |r.data| >= 1
    ensures Overlaps(s, r) <==>
              exists j :: j in s.present && 0 <= j < s.count && j < MAX_FRAGMENTS &&
                          Collides(s, j, r.header.offset, r.header.offset + |r.data|)
  {
    forall j | j in s.present && 0 <= j < s.count && j < MAX_FRAGMENTS &&
               Collides(s, j, r.header.offset, r.header.offset + |r.data|)
      ensures Overlaps(s, r)
    {
      var b: nat := if s.offsets[j] < r.header.offset then r.header.offset else s.offsets[j];
      assert Shared(s, r, j, b);
    }
    if Overlaps(s, r) {
      var j: nat, b: nat :| j in s.present && Shared(s, r, j, b);
      assert Collides(s, j, r.header.offset, r.header.offset + |r.data|);
    }
  }

  ghost predicate WellFormed(c: Config, key: Key, r: Record) {
    KeyOk(c, key) && Named(key, r.header) && Numbered(r.header) && Fitting(c, r)
  }

  /** A record for a slot that is in time goes to that slot and to no other. */
  lemma GoesToItsSlot(c: Config, p: Pool, now: int, key: Key, r: Record, i: nat)
    requires Inv(c, p) && WellFormed(c, key, r) && HoldsKey(p.slots, key, i)
    requires p.slots[i].state == Assembling ==> now < p.slots[i].firstSeen + c.lifetime
    ensures CheckRecord(c, p.slots[i].key, r).None? && Accept(c, p, now, key, r) == Deliver(c, p, i, r, None)
  {
    var k := Find(p.slots, key);
    assert k >= 0 && HoldsKey(p.slots, key, k) && k == i;
  }

  /** A completed packet is answered by its bytes: a repetition of one of its
      fragments is a duplicate, anything else a conflict, and nothing changes. */
  lemma CompletedAnswers(c: Config, p: Pool, now: int, key: Key, r: Record, i: nat)
    requires Inv(c, p) && WellFormed(c, key, r) && HoldsKey(p.slots, key, i) && p.slots[i].state == Whole
    ensures var s := p.slots[i];
            Accept(c, p, now, key, r)
            == Step(p, if s.count == r.header.fragmentCount && Stores(s, r) then Done(Duplicate, None)
                       else Failed(CompletedPacketConflict))
  {
    GoesToItsSlot(c, p, now, key, r, i);
    assert Settled(c, p.slots[i]);
    RecordMeetsSlot(c, p.slots[i], r);
    assert p.slots[i := p.slots[i]] == p.slots;
  }

  /** An assembling one too, except that a record that contradicts it costs it the slot. */
  lemma AssemblingAnswers(c: Config, p: Pool, now: int, key: Key, r: Record, i: nat)
    requires Inv(c, p) && WellFormed(c, key, r) && HoldsKey(p.slots, key, i)
    requires p.slots[i].state == Assembling && now < p.slots[i].firstSeen + c.lifetime
    ensures var t, s, k := Accept(c, p, now, key, r), p.slots[i], r.header.fragmentIndex as nat;
            var fits := s.count == r.header.fragmentCount;
            && (fits && Stores(s, r) ==> t == Step(p, Done(Duplicate, None)))
            && (!fits ==> t.outcome == Failed(FragmentCountMismatch))
            && (fits && k in s.present && !Stores(s, r) ==> t.outcome == Failed(FragmentConflict))
            && (fits && k !in s.present && Overlaps(s, r) ==> t.outcome == Failed(FragmentOverlap))
            && (fits && k !in s.present && !Overlaps(s, r) && Misses(s, k) ==> t.outcome == Done(Accepted, None))
            && (t.outcome.Failed? ==> t.pool.slots[i].state == Free)
  {
    GoesToItsSlot(c, p, now, key, r, i);
    assert Settled(c, p.slots[i]);
    RecordMeetsSlot(c, p.slots[i], r);
  }

  // ----- no room

  lemma {:induction false} CountIsOwned(c: Config, slots: seq<Slot>, peer: nat, n: nat)
    requires AllShape(c, slots) && n <= |slots|
    ensures CountPeer(slots[..n], peer) == |OwnedSlots(slots, peer, n)|
  {
    if n > 0 {
      CountIsOwned(c, slots, peer, n - 1);
      assert Shape(c, slots[n - 1]);
      assert slots[..n][..n - 1] == slots[..n - 1];
      var before := OwnedSlots(slots, peer, n - 1);
      assert OwnedSlots(slots, peer, n) == if Owned(slots[n - 1], peer) then before + {n - 1} else before;
    }
  }

  /** An expired slot of the key makes room for its successor. */
  lemma OwnSlotIsRoom(c: Config, p: Pool, now: int, key: Key, count: nat)
    requires Inv(c, p) && key.peer < c.maxPeers && Find(p.slots, key) >= 0
    ensures Prepare(c, p, now, key, count).index >= 0
  {
    var i := Find(p.slots, key);
    var s := p.slots[i];
    if s.state == Assembling && Expired(c, s, now) {
      var q := Clear(p, i);
      assert Shape(c, s) && q.free[0] == i;
      ClearKeepsCore(c, p, i);
      CountPeerUpdate(p.slots, i, Cleared(s), key.peer);
    }
  }

  /** A new packet is refused for its peer exactly if the peer's slots, as many as its
      quota, all wait to be released, and for want of a slot exactly if all slots do. */
  lemma NoRoomExactly(c: Config, p: Pool, now: int, key: Key, r: Record)
    requires Inv(c, p) && WellFormed(c, key, r)
    ensures var o, mine := Accept(c, p, now, key, r).outcome, |OwnedSlots(p.slots, key.peer, |p.slots|)|;
            var known := exists i :: HoldsKey(p.slots, key, i);
            && (o == Failed(PeerQuota) <==>
                  && !known && mine >= c.perPeerSlots
                  && forall i :: 0 <= i < |p.slots| && Owned(p.slots[i], key.peer) ==> p.slots[i].state == Whole)
            && (o == Failed(NoSlot) <==>
                  && !known && mine < c.perPeerSlots
                  && forall i :: 0 <= i < |p.slots| ==> p.slots[i].state == Whole)
  {
    CountIsOwned(c, p.slots, key.peer, |p.slots|);
    assert p.slots[..|p.slots|] == p.slots;
    RefusedWithoutSlot(c, p, now, key, r);
    if Find(p.slots, key) >= 0 {
      OwnSlotIsRoom(c, p, now, key, r.header.fragmentCount);
    } else {
      NewIsRefused(c, p, now, key, r.header.fragmentCount);
    }
  }

  lemma RefusedWithoutSlot(c: Config, p: Pool, now: int, key: Key, r: Record)
    requires Inv(c, p) && WellFormed(c, key, r)
    ensures var o, a := Accept(c, p, now, key, r).outcome, Prepare(c, p, now, key, r.header.fragmentCount);
            var full := CountPeer(a.pool.slots, key.peer) >= c.perPeerSlots;
            (o == Failed(PeerQuota) <==> a.index < 0 && full) && (o == Failed(NoSlot) <==> a.index < 0 && !full)
  {
    PrepareKeepsCore(c, p, now, key, r.header.fragmentCount);
  }

  lemma NewIsRefused(c: Config, p: Pool, now: int, key: Key, count: nat)
    requires Inv(c, p) && Find(p.slots, key) == -1
    ensures var a, full := Prepare(c, p, now, key, count), CountPeer(p.slots, key.peer) >= c.perPeerSlots;
            && (a.index < 0 ==> a.pool == p)
            && (a.index < 0 <==>
                  if full
                  then forall i :: 0 <= i < |p.slots| && Owned(p.slots[i], key.peer) ==> p.slots[i].state == Whole
                  else forall i :: 0 <= i < |p.slots| ==> p.slots[i].state == Whole)
  {
    forall i | 0 <= i < |p.slots| ensures p.slots[i].state == Free ==> i in p.free {}
    forall i | 0 <= i < |p.slots| ensures Shape(c, p.slots[i]) {}
    var own, any := Oldest(p.slots, Some(key.peer)), Oldest(p.slots, None);
    assert p.free != [] ==> p.free[0] in p.free && p.slots[p.free[0]].state == Free;
  }

  /** t holds fragment j as s does. */
  predicate Unmoved(s: Slot, t: Slot, j: nat)
    requires Bounded(s) && Bounded(t)
  {
    j in s.present ==>
      && j in t.present && t.offsets[j] == s.offsets[j] && t.lengths[j] == s.lengths[j]
      && t.buf[s.offsets[j]..s.offsets[j] + s.lengths[j]] == s.buf[s.offsets[j]..s.offsets[j] + s.lengths[j]]
  }

  lemma OthersStay(c: Config, s: Slot, r: Record, j: nat)
    requires Shape(c, s) && s.state != Free && CheckRecord(c, s.key, r).None? && j in s.present
    requires Judge(s, r).Keep? || Judge(s, r).Finish?
    ensures var t := Judge(s, r).slot; Bounded(t) && Unmoved(s, t, j)
  {
    var start, end := r.header.offset, r.header.offset + |r.data|;
    assert !Collides(s, j, start, end);
    PlacedIsLaid(s, r);
    SliceBeside(s.buf, start, r.data, s.offsets[j], s.offsets[j] + s.lengths[j]);
  }

  /** Overwriting bytes from start on leaves a slice beside them as it is. */
  lemma SliceBeside(buf: seq<byte>, start: nat, data: seq<byte>, lo: nat, hi: nat)
    requires start + |data| <= |buf| && lo <= hi <= |buf| && (hi <= start || start + |data| <= lo)
    ensures (buf[..start] + data + buf[start + |data|..])[lo..hi] == buf[lo..hi]
  {}
}
