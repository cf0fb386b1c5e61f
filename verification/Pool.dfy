/** What the reassembler of internal/core/reassembly/reassembly.go does, without
    the data structures that make it fast: a pool of slots searched by key, a
    stack of free slots and no index, no counters and no links. */
module PoolSpec {
  import opened Wire

  const MAX_INT := 0x7FFF_FFFF_FFFF_FFFF

  datatype Key = Key(peer: nat, session: u16, lane: u8, sequence: u32)

  const NO_KEY := Key(0, 0, 0, 0)

  datatype Config = Config(slots: int, maxPacketSize: int, maxPeers: int, perPeerSlots: int, lifetime: int)

  predicate ConfigOk(c: Config) {
    && c.slots > 0 && 0 < c.maxPacketSize <= MAX_U16
    && c.maxPeers > 0 && 0 < c.perPeerSlots <= c.slots && c.lifetime > 0
    && c.slots <= MAX_INT / c.maxPacketSize
    // the index of twice as many entries, rounded up to a power of two, is an int
    && c.slots <= 0x2000_0000_0000_0000
  }

  datatype ReassemblyError =
    | InvalidPeer
    | InvalidKey
    | KeyMismatch
    | BadFragment
    | BadRange
    | FragmentCountMismatch
    | FragmentConflict
    | FragmentOverlap
    | Coverage
    | PeerQuota
    | NoSlot
    | InvalidHandle
    | CompletedPacketConflict

  datatype Handle = Handle(index: int, generation: nat)

  datatype Packet = Packet(handle: Handle, key: Key, data: seq<byte>)

  datatype Status = Accepted | Duplicate | Completed(packet: Packet)

  datatype Outcome = Done(status: Status, evicted: Option<Key>) | Failed(error: ReassemblyError)

  datatype SlotState = Free | Assembling | Whole

  datatype Slot = Slot(
    state: SlotState, detached: bool, counted: bool, generation: nat, born: nat,
    key: Key, firstSeen: int, count: nat, present: set<nat>,
    offsets: seq<nat>, lengths: seq<nat>, packetLen: nat, buf: seq<byte>)

  const ZEROS: seq<nat> := [0, 0, 0, 0, 0, 0, 0, 0, 0, 0, 0, 0, 0, 0, 0, 0]

  /** The slots, the free ones as a stack, and the birth counter. */
  datatype Pool = Pool(slots: seq<Slot>, free: seq<nat>, born: nat)

  predicate Live(s: Slot) {
    s.state != Free && !s.detached
  }

  function Cleared(s: Slot): Slot {
    Slot(Free, false, false, s.generation, 0, NO_KEY, 0, 0, {}, ZEROS, ZEROS, 0, s.buf)
  }

  function Started(s: Slot, born: nat, now: int, key: Key, count: nat): Slot {
    Slot(Assembling, false, true, s.generation + 1, born, key, now, count, {}, ZEROS, ZEROS, 0, s.buf)
  }

  // ----- well-formed pools

  predicate Bounded(s: Slot) {
    && |s.offsets| == MAX_FRAGMENTS && |s.lengths| == MAX_FRAGMENTS
    && forall i :: i in s.present ==> i < MAX_FRAGMENTS && s.offsets[i] + s.lengths[i] <= |s.buf|
  }

  /** Fragments are non-empty and share no byte. */
  predicate Laid(s: Slot) {
    && Bounded(s)
    && (forall i :: i in s.present ==> s.lengths[i] >= 1)
    && (forall i, j :: i in s.present && j in s.present && i != j ==>
          s.offsets[i] + s.lengths[i] <= s.offsets[j] || s.offsets[j] + s.lengths[j] <= s.offsets[i])
  }

  predicate Shape(c: Config, s: Slot) {
    && Laid(s) && |s.buf| == c.maxPacketSize
    && s.counted == Live(s)
    && (s.detached ==> s.state == Whole)
    && (s.state != Free ==> 1 <= s.count <= MAX_FRAGMENTS && s.key.peer < c.maxPeers && s.packetLen <= c.maxPacketSize)
    && (s.state != Free ==> forall i :: i in s.present ==> i < s.count)
  }

  /** The free stack lists every free slot once and nothing else. */
  predicate FreeExact(p: Pool) {
    && (forall i :: i in p.free ==> i < |p.slots|)
    && (forall i {:trigger i in p.free} :: 0 <= i < |p.slots| ==> (p.slots[i].state == Free <==> i in p.free))
    && (forall j, k :: 0 <= j < k < |p.free| ==> p.free[j] != p.free[k])
  }

  ghost predicate KeysDistinct(slots: seq<Slot>) {
    forall key, i, j {:trigger HoldsKey(slots, key, i), HoldsKey(slots, key, j)} ::
      HoldsKey(slots, key, i) && HoldsKey(slots, key, j) ==> i == j
  }

  predicate AllShape(c: Config, slots: seq<Slot>) {
    forall i {:trigger Shape(c, slots[i])} :: 0 <= i < |slots| ==> Shape(c, slots[i])
  }

  ghost predicate Core(c: Config, p: Pool) {
    && |p.slots| == c.slots
    && AllShape(c, p.slots)
    && FreeExact(p)
    && KeysDistinct(p.slots)
  }

  function EmptySlot(c: Config): Slot
    requires c.maxPacketSize >= 0
  {
    Slot(Free, false, false, 0, 0, NO_KEY, 0, 0, {}, ZEROS, ZEROS, 0, seq<byte>(c.maxPacketSize, i => 0))
  }

  function Fresh(c: Config): Pool
    requires c.slots >= 0 && c.maxPacketSize >= 0
  {
    Pool(seq(c.slots, i => EmptySlot(c)), seq<nat>(c.slots, i requires 0 <= i => i), 0)
  }

  lemma FreshIsCore(c: Config)
    requires ConfigOk(c)
    ensures Core(c, Fresh(c))
  {
    var p := Fresh(c);
    forall i | 0 <= i < |p.slots| ensures p.slots[i].state == Free && i in p.free { assert p.free[i] == i; }
    assert Shape(c, EmptySlot(c));
  }

  lemma {:induction false} CountNone(slots: seq<Slot>, peer: nat)
    requires forall i :: 0 <= i < |slots| ==> !slots[i].counted
    ensures CountPeer(slots, peer) == 0
  {
    if slots != [] { CountNone(slots[..|slots| - 1], peer); }
  }

  // ----- looking up

  predicate HoldsKey(slots: seq<Slot>, key: Key, i: int) {
    0 <= i < |slots| && Live(slots[i]) && slots[i].key == key
  }

  ghost function Find(slots: seq<Slot>, key: Key): (i: int)
    ensures i == -1 || HoldsKey(slots, key, i)
    ensures i == -1 <==> forall j :: !HoldsKey(slots, key, j)
  {
    if exists i :: HoldsKey(slots, key, i) then
      var i :| HoldsKey(slots, key, i); i
    else -1
  }

  predicate Counts(s: Slot, peer: nat) {
    s.counted && s.key.peer == peer
  }

  function CountPeer(slots: seq<Slot>, peer: nat): nat {
    if slots == [] then 0
    else CountPeer(slots[..|slots| - 1], peer) + if Counts(slots[|slots| - 1], peer) then 1 else 0
  }

  lemma {:induction false} CountPeerUpdate(slots: seq<Slot>, i: nat, s: Slot, peer: nat)
    requires i < |slots|
    ensures CountPeer(slots[i := s], peer)
         == CountPeer(slots, peer) - (if Counts(slots[i], peer) then 1 else 0) + (if Counts(s, peer) then 1 else 0)
  {
    var n := |slots| - 1;
    if i == n {
      assert slots[i := s][..n] == slots[..n];
    } else {
      CountPeerUpdate(slots[..n], i, s, peer);
      assert slots[i := s][..n] == slots[..n][i := s];
    }
  }

  predicate SameQuota(a: Slot, b: Slot) {
    a.counted == b.counted && (a.counted ==> a.key.peer == b.key.peer)
  }

  predicate Older(a: Slot, b: Slot) {
    a.firstSeen < b.firstSeen || (a.firstSeen == b.firstSeen && a.born < b.born)
  }

  predicate Evictable(s: Slot, peer: Option<nat>) {
    s.state == Assembling && (peer.Some? ==> s.key.peer == peer.value)
  }

  /** The oldest assembling slot among the first n, of one peer or of all. */
  function OldestUpTo(slots: seq<Slot>, n: nat, peer: Option<nat>): (o: int)
    requires n <= |slots|
    ensures -1 <= o < n
    ensures o >= 0 ==> Evictable(slots[o], peer)
    ensures forall i :: 0 <= i < n && Evictable(slots[i], peer) ==> o >= 0 && !Older(slots[i], slots[o])
  {
    if n == 0 then -1
    else
      var o := OldestUpTo(slots, n - 1, peer);
      if Evictable(slots[n - 1], peer) && (o < 0 || Older(slots[n - 1], slots[o])) then n - 1 else o
  }

  function Oldest(slots: seq<Slot>, peer: Option<nat>): (o: int)
    ensures -1 <= o < |slots|
    ensures o >= 0 ==> Evictable(slots[o], peer)
  {
    OldestUpTo(slots, |slots|, peer)
  }

  // ----- slot life cycle

  function Clear(p: Pool, i: nat): (q: Pool)
    requires i < |p.slots|
    ensures |q.slots| == |p.slots|
  {
    if p.slots[i].state == Free then p
    else Pool(p.slots[i := Cleared(p.slots[i])], [i] + p.free, p.born)
  }

  function Start(p: Pool, now: int, key: Key, count: nat): (q: Pool)
    requires p.free != [] && p.free[0] < |p.slots|
    ensures |q.slots| == |p.slots|
  {
    var i := p.free[0];
    Pool(p.slots[i := Started(p.slots[i], p.born + 1, now, key, count)], p.free[1..], p.born + 1)
  }

  datatype Allocation = Allocation(pool: Pool, index: int, evicted: Option<Key>)

  function Replace(p: Pool, i: nat, now: int, key: Key, count: nat): (a: Allocation)
    requires i < |p.slots| && p.slots[i].state != Free
    ensures |a.pool.slots| == |p.slots|
  {
    Allocation(Start(Clear(p, i), now, key, count), i, Some(p.slots[i].key))
  }

  function Allocate(c: Config, p: Pool, now: int, key: Key, count: nat): (a: Allocation)
    requires FreeExact(p)
    ensures |a.pool.slots| == |p.slots| && a.index < |p.slots|
  {
    if CountPeer(p.slots, key.peer) >= c.perPeerSlots then
      var o := Oldest(p.slots, Some(key.peer));
      if o < 0 then Allocation(p, -1, None) else Replace(p, o, now, key, count)
    else if p.free != [] then
      assert p.free[0] in p.free;
      Allocation(Start(p, now, key, count), p.free[0], None)
    else
      var o := Oldest(p.slots, None);
      if o < 0 then Allocation(p, -1, None) else Replace(p, o, now, key, count)
  }

  // ----- one fragment against one slot

  predicate Covers(s: Slot, i: nat, b: int)
    requires i < |s.offsets| && i < |s.lengths|
  {
    s.offsets[i] <= b < s.offsets[i] + s.lengths[i]
  }

  ghost predicate Covered(s: Slot, b: int)
    requires |s.offsets| == MAX_FRAGMENTS && |s.lengths| == MAX_FRAGMENTS
  {
    exists i :: i in s.present && i < MAX_FRAGMENTS && Covers(s, i, b)
  }

  /** The fragments present end by n and cover every byte below n. */
  ghost predicate Tiles(s: Slot, n: nat)
    requires |s.offsets| == MAX_FRAGMENTS && |s.lengths| == MAX_FRAGMENTS
  {
    && (forall i :: i in s.present && i < MAX_FRAGMENTS ==> s.offsets[i] + s.lengths[i] <= n)
    && (forall b :: 0 <= b < n ==> Covered(s, b))
  }

  lemma TilesWithin(s: Slot, n: nat)
    requires Bounded(s) && Tiles(s, n)
    ensures n <= |s.buf|
  {
    if n > 0 {
      assert Covered(s, n - 1);
    }
  }

  /** At most one length is tiled, so a completed packet's length is no choice. */
  lemma TilesUnique(s: Slot, m: nat, n: nat)
    requires Bounded(s) && Tiles(s, m) && Tiles(s, n)
    ensures m == n
  {
    var lo, hi := if m < n then m else n, if m < n then n else m;
    assert lo < hi ==> Covered(s, lo);
  }

  /** Tiling is a matter of offsets and lengths alone. */
  lemma TilesTransfer(s: Slot, t: Slot, n: nat)
    requires Bounded(s) && Tiles(s, n)
    requires t.present == s.present && t.offsets == s.offsets && t.lengths == s.lengths
    ensures Tiles(t, n)
  {
    forall b | 0 <= b < n ensures Covered(t, b) {
      assert Covered(s, b);
      var i :| i in s.present && i < MAX_FRAGMENTS && Covers(s, i, b);
      assert Covers(t, i, b);
    }
  }

  predicate Full(s: Slot) {
    forall i :: 0 <= i < s.count ==> i in s.present
  }

  predicate Collides(s: Slot, i: nat, start: nat, end: nat)
    requires i < |s.offsets| && i < |s.lengths|
  {
    start < s.offsets[i] + s.lengths[i] && s.offsets[i] < end
  }

  function PlaceFragment(s: Slot, r: Record): Slot
    requires |s.offsets| == MAX_FRAGMENTS && |s.lengths| == MAX_FRAGMENTS && r.header.fragmentIndex < MAX_FRAGMENTS
    requires r.header.offset + |r.data| <= |s.buf|
  {
    var i, start, end := r.header.fragmentIndex, r.header.offset, r.header.offset + |r.data|;
    s.(present := s.present + {i}, offsets := s.offsets[i := start], lengths := s.lengths[i := |r.data|],
       buf := s.buf[..start] + r.data + s.buf[end..])
  }

  predicate SameFragment(s: Slot, r: Record)
    requires |s.offsets| == MAX_FRAGMENTS && |s.lengths| == MAX_FRAGMENTS && r.header.fragmentIndex < MAX_FRAGMENTS
    requires r.header.offset + |r.data| <= |s.buf|
  {
    var i, start := r.header.fragmentIndex, r.header.offset;
    s.offsets[i] == start && s.lengths[i] == |r.data| && s.buf[start..start + |r.data|] == r.data
  }

  datatype Verdict = Keep(slot: Slot) | Same | Finish(slot: Slot) | Reject(slot: Slot, error: ReassemblyError)

  /** What a slot of the record's key does with a valid record. A fragment that
      leaves a gap has been copied by the time it is rejected. */
  ghost function Judge(s: Slot, r: Record): (v: Verdict)
    requires Bounded(s) && r.header.fragmentIndex < MAX_FRAGMENTS && r.header.offset + |r.data| <= |s.buf|
    ensures v.Finish? ==> v.slot.packetLen <= |v.slot.buf| && Bounded(v.slot) && Tiles(v.slot, v.slot.packetLen)
  {
    var i, start, end := r.header.fragmentIndex, r.header.offset, r.header.offset + |r.data|;
    if s.count != r.header.fragmentCount then Reject(s, FragmentCountMismatch)
    else if i in s.present then (if SameFragment(s, r) then Same else Reject(s, FragmentConflict))
    else if exists j ::
        j in s.present && 0 <= j < s.count && j < MAX_FRAGMENTS &&
        Collides(s, j, start, end) then Reject(s, FragmentOverlap)
    else
      var placed := PlaceFragment(s, r);
      if !Full(placed) then Keep(placed)
      else if exists n :: Tiles(placed, n) then
        var n :| Tiles(placed, n);
        TilesWithin(placed, n);
        TilesTransfer(placed, placed.(state := Whole, packetLen := n), n);
        Finish(placed.(state := Whole, packetLen := n))
      else Reject(placed, Coverage)
  }

  lemma PlacedIsLaid(s: Slot, r: Record)
    requires Laid(s) && r.header.fragmentIndex < MAX_FRAGMENTS && r.header.offset + |r.data| <= |s.buf| && |r.data| >= 1
    requires r.header.fragmentIndex !in s.present && forall i :: i in s.present ==> i < s.count
    requires !exists j ::
             j in s.present && 0 <= j < s.count && j < MAX_FRAGMENTS &&
             Collides(s, j, r.header.offset, r.header.offset + |r.data|)
    ensures Laid(PlaceFragment(s, r))
  {
    var t, k := PlaceFragment(s, r), r.header.fragmentIndex;
    forall i, j | i in t.present && j in t.present && i != j
      ensures t.offsets[i] + t.lengths[i] <= t.offsets[j] || t.offsets[j] + t.lengths[j] <= t.offsets[i]
    {
      if i != k { assert !Collides(s, i, r.header.offset, r.header.offset + |r.data|); }
      if j != k { assert !Collides(s, j, r.header.offset, r.header.offset + |r.data|); }
    }
  }

  // ----- the operations

  function CheckKey(c: Config, key: Key): Option<ReassemblyError> {
    if key.peer >= c.maxPeers then Some(InvalidPeer)
    else if key.session == 0 then Some(InvalidKey)
    else None
  }

  function CheckRecord(c: Config, key: Key, r: Record): Option<ReassemblyError> {
    var h := r.header;
    if h.dataSessionID != key.session || h.laneID != key.lane || h.laneSequence != key.sequence then Some(KeyMismatch)
    else if h.fragmentCount < 1 || h.fragmentCount > MAX_FRAGMENTS ||
        h.fragmentIndex >= h.fragmentCount then Some(BadFragment)
    else if |r.data| < 1 || |r.data| > c.maxPacketSize then Some(BadRange)
    else if h.offset > c.maxPacketSize - |r.data| then Some(BadRange)
    else None
  }

  predicate Expired(c: Config, s: Slot, now: int) {
    now >= s.firstSeen + c.lifetime
  }

  function PacketOf(s: Slot, i: nat): Packet
    requires s.packetLen <= |s.buf|
  {
    Packet(Handle(i, s.generation), s.key, s.buf[..s.packetLen])
  }

  datatype Step = Step(pool: Pool, outcome: Outcome)

  ghost function Deliver(c: Config, p: Pool, i: nat, r: Record, evicted: Option<Key>): (t: Step)
    requires Core(c, p) && i < |p.slots| && Live(p.slots[i]) && CheckRecord(c, p.slots[i].key, r).None?
    ensures |t.pool.slots| == |p.slots|
    ensures forall j :: 0 <= j < |p.slots| && j != i ==> t.pool.slots[j] == p.slots[j]
  {
    assert Shape(c, p.slots[i]);
    match Judge(p.slots[i], r)
    case Same => Step(p, Done(Duplicate, evicted))
    case Keep(s) => Step(p.(slots := p.slots[i := s]), Done(Accepted, evicted))
    case Finish(s) =>
      Step(p.(slots := p.slots[i := s]), Done(Completed(PacketOf(s, i)), evicted))
    case Reject(s, e) =>
      var q := p.(slots := p.slots[i := s]);
      if s.state == Whole then Step(q, Failed(CompletedPacketConflict)) else Step(Clear(q, i), Failed(e))
  }

  /** The pool once a stale slot of the key, or one hit by an invalid record, is gone. */
  ghost function DropIf(c: Config, p: Pool, key: Key, cond: Slot -> bool): (q: Pool)
    ensures |q.slots| == |p.slots|
  {
    var i := Find(p.slots, key);
    if i >= 0 && p.slots[i].state == Assembling && cond(p.slots[i]) then Clear(p, i) else p
  }

  /** The slot a valid record goes to: the key's own, unless it has expired, or a new one. */
  ghost function Prepare(c: Config, p: Pool, now: int, key: Key, count: nat): (a: Allocation)
    requires Core(c, p)
    ensures |a.pool.slots| == |p.slots| && a.index < |p.slots|
  {
    var q := DropIf(c, p, key, s => Expired(c, s, now));
    DropKeepsCore(c, p, key, s => Expired(c, s, now));
    var i := Find(q.slots, key);
    if i >= 0 then Allocation(q, i, None) else Allocate(c, q, now, key, count)
  }

  ghost function Accept(c: Config, p: Pool, now: int, key: Key, r: Record): (t: Step)
    requires Core(c, p)
    ensures |t.pool.slots| == |p.slots|
  {
    if CheckKey(c, key).Some? then Step(p, Failed(CheckKey(c, key).value))
    else if CheckRecord(c, key, r).Some? then
      Step(DropIf(c, p, key, s => true), Failed(CheckRecord(c, key, r).value))
    else
      var a := Prepare(c, p, now, key, r.header.fragmentCount);
      if a.index < 0 then
        Step(a.pool, Failed(if CountPeer(a.pool.slots, key.peer) >= c.perPeerSlots then PeerQuota else NoSlot))
      else
        PrepareKeepsCore(c, p, now, key, r.header.fragmentCount);
        Deliver(c, a.pool, a.index, r, a.evicted)
  }

  predicate Expires(c: Config, s: Slot, now: int) {
    s.state == Assembling && Expired(c, s, now)
  }

  function ExpireOne(c: Config, p: Pool, now: int, i: nat): Pool
    requires i < |p.slots|
  {
    if Expires(c, p.slots[i], now) then Clear(p, i) else p
  }

  /** The pool after the first n slots were looked at. */
  function ExpireUpTo(c: Config, p: Pool, now: int, n: nat): (q: Pool)
    requires n <= |p.slots|
    ensures |q.slots| == |p.slots|
    ensures forall i :: n <= i < |p.slots| ==> q.slots[i] == p.slots[i]
  {
    if n == 0 then p else ExpireOne(c, ExpireUpTo(c, p, now, n - 1), now, n - 1)
  }

  function ExpireCount(c: Config, p: Pool, now: int, n: nat): nat
    requires n <= |p.slots|
  {
    if n == 0 then 0 else ExpireCount(c, p, now, n - 1) + if Expires(c, p.slots[n - 1], now) then 1 else 0
  }

  predicate Purges(s: Slot, peer: nat) {
    Live(s) && s.key.peer == peer
  }

  function Detached(s: Slot): Slot {
    s.(detached := true, counted := false)
  }

  function PurgeOne(p: Pool, peer: nat, i: nat): Pool
    requires i < |p.slots|
  {
    if !Purges(p.slots[i], peer) then p
    else if p.slots[i].state == Whole then p.(slots := p.slots[i := Detached(p.slots[i])])
    else Clear(p, i)
  }

  function PurgeUpTo(p: Pool, peer: nat, n: nat): (q: Pool)
    requires n <= |p.slots|
    ensures |q.slots| == |p.slots|
    ensures forall i :: n <= i < |p.slots| ==> q.slots[i] == p.slots[i]
  {
    if n == 0 then p else PurgeOne(PurgeUpTo(p, peer, n - 1), peer, n - 1)
  }

  function PurgeCount(p: Pool, peer: nat, n: nat): nat
    requires n <= |p.slots|
  {
    if n == 0 then 0 else PurgeCount(p, peer, n - 1) + if Purges(p.slots[n - 1], peer) then 1 else 0
  }

  predicate Releasable(p: Pool, h: Handle) {
    0 <= h.index < |p.slots| && p.slots[h.index].state == Whole && p.slots[h.index].generation == h.generation
  }

  function Release(p: Pool, h: Handle): (Pool, Option<ReassemblyError>) {
    if Releasable(p, h) then (Clear(p, h.index), None) else (p, Some(InvalidHandle))
  }

  // ----- the core invariant

  lemma SetKeepsShape(c: Config, slots: seq<Slot>, i: nat, s: Slot)
    requires AllShape(c, slots) && i < |slots| && Shape(c, s)
    ensures AllShape(c, slots[i := s])
  {
    var t := slots[i := s];
    forall j | 0 <= j < |t| ensures Shape(c, t[j]) {
      assert Shape(c, slots[j]);
    }
  }

  lemma SetKeepsKeys(slots: seq<Slot>, i: nat, s: Slot)
    requires KeysDistinct(slots) && i < |slots|
    requires Live(s) ==> forall j :: HoldsKey(slots, s.key, j) ==> j == i
    ensures KeysDistinct(slots[i := s])
  {
    var t := slots[i := s];
    forall key, j, k | HoldsKey(t, key, j) && HoldsKey(t, key, k) ensures j == k {
      assert (j != i ==> HoldsKey(slots, key, j)) && (k != i ==> HoldsKey(slots, key, k));
    }
  }

  lemma ClearKeepsCore(c: Config, p: Pool, i: nat)
    requires Core(c, p) && i < |p.slots|
    ensures Core(c, Clear(p, i))
  {
    var q, s := Clear(p, i), Cleared(p.slots[i]);
    if p.slots[i].state != Free {
      assert Shape(c, p.slots[i]);
      SetKeepsShape(c, p.slots, i, s);
      SetKeepsKeys(p.slots, i, s);
      assert i !in p.free;
      forall j | 0 <= j < |q.slots| ensures q.slots[j].state == Free <==> j in q.free {
        assert j in p.free || j !in p.free;
      }
      forall j | j in q.free ensures j < |q.slots| { assert j == i || j in p.free; }
    }
  }

  lemma FreeHead(c: Config, p: Pool)
    requires Core(c, p) && p.free != []
    ensures p.free[0] < |p.slots| && p.slots[p.free[0]].state == Free && !p.slots[p.free[0]].counted
    ensures Shape(c, p.slots[p.free[0]]) && p.free[0] !in p.free[1..]
  {
    assert p.free[0] in p.free;
    assert Shape(c, p.slots[p.free[0]]);
  }

  lemma StartKeepsCore(c: Config, p: Pool, now: int, key: Key, count: nat)
    requires Core(c, p) && p.free != [] && p.free[0] < |p.slots| && Find(p.slots, key) == -1
    requires key.peer < c.maxPeers && 1 <= count <= MAX_FRAGMENTS && c.maxPacketSize >= 0
    ensures Core(c, Start(p, now, key, count))
  {
    var q, i := Start(p, now, key, count), p.free[0];
    FreeHead(c, p);
    SetKeepsShape(c, p.slots, i, q.slots[i]);
    SetKeepsKeys(p.slots, i, q.slots[i]);
    assert p.free == [i] + q.free;
    forall j | j in q.free ensures j < |q.slots| { assert j in p.free; }
    forall j: nat | j < |q.slots| ensures q.slots[j].state == Free <==> j in q.free {
      assert j in p.free <==> j == i || j in q.free;
    }
  }

  lemma ClearForgets(c: Config, p: Pool, i: nat, key: Key)
    requires Core(c, p) && i < |p.slots|
    requires Find(p.slots, key) == -1 || (Find(p.slots, key) == i && Live(p.slots[i]))
    ensures Find(Clear(p, i).slots, key) == -1
  {
    var q := Clear(p, i);
    forall j: int ensures !HoldsKey(q.slots, key, j) {
      assert HoldsKey(q.slots, key, j) ==> HoldsKey(p.slots, key, j);
    }
  }

  lemma DropKeepsCore(c: Config, p: Pool, key: Key, cond: Slot -> bool)
    requires Core(c, p)
    ensures Core(c, DropIf(c, p, key, cond))
  {
    var i := Find(p.slots, key);
    if i >= 0 { ClearKeepsCore(c, p, i); }
  }

  lemma AllocateKeepsCore(c: Config, p: Pool, now: int, key: Key, count: nat)
    requires Core(c, p) && Find(p.slots, key) == -1
    requires key.peer < c.maxPeers && 1 <= count <= MAX_FRAGMENTS && c.maxPacketSize >= 0
    ensures var a := Allocate(c, p, now, key, count);
            (a.index < 0 && a.pool == p)
            || (0 <= a.index < |a.pool.slots| && Core(c, a.pool) && a.pool.slots[a.index].key == key &&
                 Live(a.pool.slots[a.index])
                && a.pool.slots[a.index].state == Assembling && a.pool.slots[a.index].present == {} &&
                     a.pool.slots[a.index].count == count)
  {
    var a := Allocate(c, p, now, key, count);
    if a.evicted.Some? {
      ClearKeepsCore(c, p, a.index);
      ClearForgets(c, p, a.index, key);
      StartKeepsCore(c, Clear(p, a.index), now, key, count);
    } else if a.index >= 0 {
      FreeHead(c, p);
      StartKeepsCore(c, p, now, key, count);
    }
  }

  lemma PrepareKeepsCore(c: Config, p: Pool, now: int, key: Key, count: nat)
    requires Core(c, p) && key.peer < c.maxPeers && 1 <= count <= MAX_FRAGMENTS && c.maxPacketSize >= 0
    ensures var a := Prepare(c, p, now, key, count);
            Core(c, a.pool)
            && (a.index >= 0 ==>
                 a.index < |a.pool.slots| && Live(a.pool.slots[a.index]) && a.pool.slots[a.index].key == key)
  {
    var q := DropIf(c, p, key, s => Expired(c, s, now));
    DropKeepsCore(c, p, key, s => Expired(c, s, now));
    if Find(q.slots, key) < 0 { AllocateKeepsCore(c, q, now, key, count); }
  }

  lemma SetKeepsCore(c: Config, p: Pool, i: nat, s: Slot)
    requires Core(c, p) && i < |p.slots| && Shape(c, s) && s.key == p.slots[i].key
    requires Live(p.slots[i]) && s.state != Free
    ensures Core(c, p.(slots := p.slots[i := s]))
  {
    SetKeepsShape(c, p.slots, i, s);
    assert HoldsKey(p.slots, s.key, i);
    SetKeepsKeys(p.slots, i, s);
  }

  lemma DeliverKeepsCore(c: Config, p: Pool, i: nat, r: Record, evicted: Option<Key>)
    requires Core(c, p) && i < |p.slots| && Live(p.slots[i]) && CheckRecord(c, p.slots[i].key, r).None?
    ensures Core(c, Deliver(c, p, i, r, evicted).pool)
  {
    assert Shape(c, p.slots[i]);
    var s, v := p.slots[i], Judge(p.slots[i], r);
    if !v.Same? {
      if v.slot != s { PlacedIsLaid(s, r); }
      SetKeepsCore(c, p, i, v.slot);
      ClearKeepsCore(c, p.(slots := p.slots[i := v.slot]), i);
    }
  }

  lemma DetachKeepsCore(c: Config, p: Pool, i: nat)
    requires Core(c, p) && i < |p.slots| && Live(p.slots[i]) && p.slots[i].state == Whole
    ensures Core(c, p.(slots := p.slots[i := Detached(p.slots[i])]))
  {
    assert Shape(c, p.slots[i]);
    SetKeepsCore(c, p, i, Detached(p.slots[i]));
  }
}
