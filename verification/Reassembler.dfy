/** The reassembler as it is built (internal/core/reassembly/reassembly.go): slots
    in an array, an open-addressed key index, an intrusive free list and per-peer
    counters. Every operation is proved to do what the pool specification says. */
module Reassembly {
  import opened Wire
  import opened Basics
  import opened ProbeIndex
  import opened PoolSpec
  import opened PoolLaws

  /** Home positions of the slots' keys under an arbitrary hash into the table. */
  function HomesOf(slots: seq<Slot>, home: Key -> nat): (homes: seq<nat>)
    ensures |homes| == |slots|
  {
    seq<nat>(|slots|, i requires 0 <= i < |slots| => home(slots[i].key))
  }

  lemma IndexIgnoresDeadHomes(table: seq<nat>, homes: seq<nat>, homes': seq<nat>, where: map<nat, nat>)
    requires Indexed(table, homes, where) && |homes'| == |homes|
    requires forall i :: i in where ==> homes'[i] == homes[i]
    ensures Indexed(table, homes', where)
  {}

  /** next links the free slots in stack order, starting at head; -1 ends the list. */
  ghost predicate Linked(next: seq<int>, head: int, free: seq<nat>) {
    && head == (if free == [] then -1 else free[0])
    && (forall k :: 0 <= k < |free| ==> free[k] < |next|)
    && (forall j, k {:trigger free[j], free[k]} :: 0 <= j < k < |free| && k == j + 1 ==> next[free[j]] == free[k])
    && (free != [] ==> next[free[|free| - 1]] == -1)
  }

  lemma LinkPush(next: seq<int>, head: int, list: seq<nat>, i: nat)
    requires Linked(next, head, list) && i < |next| && i !in list
    ensures Linked(next[i := head], i, [i] + list)
  {
    var next', list' := next[i := head], [i] + list;
    forall j, k | 0 <= j < k < |list'| && k == j + 1 ensures next'[list'[j]] == list'[k] {
      if j > 0 {
        assert list'[j] == list[j - 1] && list'[k] == list[k - 1];
        assert next[list[j - 1]] == list[k - 1];
      }
    }
    if list != [] { assert list'[|list'| - 1] == list[|list| - 1]; }
  }

  lemma LinkPop(next: seq<int>, head: int, list: seq<nat>)
    requires Linked(next, head, list) && list != [] && forall k :: 0 < k < |list| ==> list[k] != list[0]
    ensures Linked(next[list[0] := -1], next[list[0]], list[1..])
  {
    var next', list' := next[list[0] := -1], list[1..];
    if list' != [] {
      assert next[list[0]] == list[1];
      assert list'[|list'| - 1] == list[|list| - 1];
    }
    forall j, k | 0 <= j < k < |list'| && k == j + 1 ensures next'[list'[j]] == list'[k] {
      assert list'[j] == list[j + 1] && list'[k] == list[k + 1];
      assert next[list[j + 1]] == list[k + 1];
    }
  }

  lemma Pow2At62()
    ensures Pow2(62) == 0x4000_0000_0000_0000
  {
    assert Pow2(7) == 0x80;
    Pow2Add(7, 1);
    Pow2Double(15);
    Pow2Double(31);
    assert Pow2(15) == 0x8000 by { Pow2Double(7); assert Pow2(15) == 2 * Pow2(14); }
    assert Pow2(31) == 0x8000_0000 by { assert Pow2(31) == 2 * Pow2(30); }
  }

  /** The smallest power of two that is at least twice slots, unless it overflows. */
  method KeyIndexSize(slots: nat) returns (size: Option<nat>)
    requires slots > 0
    ensures size.Some? <==> slots <= 0x2000_0000_0000_0000
    ensures size.Some? ==> slots * 2 <= size.value <= MAX_INT && exists k: nat :: size.value == Pow2(k)
    ensures size.Some? ==> forall j: nat :: slots * 2 <= Pow2(j) ==> size.value <= Pow2(j)
  {
    if slots > MAX_INT / 2 { return None; }
    var want, s := slots * 2, 1;
    ghost var k, left: nat := 0, 62;
    Pow2At62();
    while s < want
      invariant s == Pow2(k) && k + left == 62 && s <= 0x4000_0000_0000_0000 && (k > 0 ==> Pow2(k - 1) < want)
      decreases left
    {
      Pow2Monotone(k, 62);
      if s > MAX_INT / 2 { return None; }
      Pow2Monotone(k + 1, 62);
      s, k, left := s * 2, k + 1, left - 1;
    }
    forall j: nat | want <= Pow2(j) ensures s <= Pow2(j) {
      if k > 0 { Pow2Monotone(j, k - 1); }
      Pow2Monotone(k, j);
    }
    return Some(s);
  }

  // ----- contiguous coverage

  /** The used fragments tile the first next bytes. */
  ghost predicate Chained(s: Slot, used: set<nat>, next: nat)
    requires Laid(s)
  {
    && used <= s.present
    && (forall i :: i in used ==> s.offsets[i] + s.lengths[i] <= next)
    && (forall b :: 0 <= b < next ==> CoveredBy(s, used, b))
  }

  ghost predicate CoveredBy(s: Slot, used: set<nat>, b: int)
    requires Laid(s) && used <= s.present
  {
    exists i :: i in used && Covers(s, i, b)
  }

  lemma ChainGrows(s: Slot, used: set<nat>, next: nat, i: nat)
    requires Laid(s) && Chained(s, used, next) && i in s.present && s.offsets[i] == next
    ensures Chained(s, used + {i}, next + s.lengths[i])
  {
    forall b | 0 <= b < next + s.lengths[i] ensures CoveredBy(s, used + {i}, b) {
      if b < next {
        assert CoveredBy(s, used, b);
      } else {
        assert Covers(s, i, b);
      }
    }
  }

  /** What is not in the chain starts behind it. */
  lemma OutsideStartsLater(s: Slot, used: set<nat>, next: nat, j: nat)
    requires Laid(s) && Chained(s, used, next) && j in s.present && j !in used
    ensures s.offsets[j] >= next
  {
    assert s.offsets[j] < next ==> CoveredBy(s, used, s.offsets[j]);
  }

  lemma StuckMeansGap(s: Slot, used: set<nat>, next: nat, j: nat, m: nat)
    requires Laid(s) && Chained(s, used, next) && j in s.present && j !in used
    requires forall i :: i in s.present && i !in used ==> s.offsets[i] != next
    ensures !Tiles(s, m)
  {
    OutsideStartsLater(s, used, next, j);
    if Tiles(s, m) {
      assert Covered(s, next);
      var i :| i in s.present && i < MAX_FRAGMENTS && Covers(s, i, next);
      OutsideStartsLater(s, used, next, i);
    }
  }

  lemma SomeUnused(used: set<nat>, count: nat)
    requires |used| < count
    ensures exists j: nat :: j < count && j !in used
  {
    if forall j: nat :: j < count ==> j in used {
      SubsetSize(Below(count), used);
    }
  }

  lemma AllUsed(used: set<nat>, count: nat)
    requires |used| == count && used <= Below(count)
    ensures used == Below(count)
  {
    forall j: nat | j < count ensures j in used {
      if j !in used { SubsetSize(used + {j}, Below(count)); }
    }
  }

  /** The fragment that continues the chain, or -1. */
  method NextInChain(s: Slot, used: set<nat>, next: nat) returns (found: int)
    requires Laid(s) && s.count <= MAX_FRAGMENTS
    ensures found == -1 ==> forall j :: 0 <= j < s.count ==> j in used || s.offsets[j] != next
    ensures found != -1 ==> 0 <= found < s.count && found !in used && s.offsets[found] == next
  {
    for i := 0 to s.count
      invariant forall j :: 0 <= j < i ==> j in used || s.offsets[j] != next
    {
      if i !in used && s.offsets[i] == next { return i; }
    }
    return -1;
  }

  /** Follows the fragments from byte zero; succeeds exactly when they tile a packet. */
  method ContiguousLength(s: Slot) returns (n: nat, ok: bool)
    requires Laid(s) && Full(s) && s.count <= MAX_FRAGMENTS && forall i :: i in s.present ==> i < s.count
    ensures ok ==> Tiles(s, n)
    ensures !ok ==> forall m :: !Tiles(s, m)
  {
    var next: nat, used: set<nat> := 0, {};
    for k := 0 to s.count
      invariant Chained(s, used, next) && |used| == k
    {
      var found := NextInChain(s, used, next);
      if found < 0 {
        SomeUnused(used, s.count);
        ghost var j: nat :| j < s.count && j !in used;
        forall m: nat ensures !Tiles(s, m) { StuckMeansGap(s, used, next, j, m); }
        return 0, false;
      }
      ChainGrows(s, used, next, found);
      used := used + {found as nat};
      next := next + s.lengths[found];
    }
    ChainIsTiling(s, used, next);
    return next, true;
  }

  lemma ChainIsTiling(s: Slot, used: set<nat>, next: nat)
    requires Laid(s) && Chained(s, used, next) && |used| == s.count && forall i :: i in s.present ==> i < s.count
    ensures Tiles(s, next)
  {
    assert used <= Below(s.count);
    AllUsed(used, s.count);
    forall b | 0 <= b < next ensures Covered(s, b) { assert CoveredBy(s, used, b); }
  }

  /** The hash of a key, reduced to a position of a table of n. */
  function Reduced(hash: Key -> nat, n: nat): (home: Key -> nat)
    requires n > 0
    ensures forall key :: home(key) < n
  {
    key => hash(key) % n
  }

  class Reassembler {
    const config: Config
    /** The hash of a key, already reduced to a position of keySlots. */
    const home: Key -> nat
    const slots: array<Slot>
    const freeNext: array<int>
    const peerCounts: array<nat>
    const keySlots: array<nat>
    var freeHead: int
    var nextBorn: nat
    /** Where each live slot sits in keySlots, and the free list as a stack. */
    ghost var where: map<nat, nat>
    ghost var free: seq<nat>

    ghost function Abs(): Pool
      reads this, slots
    {
      Pool(slots[..], free, nextBorn)
    }

    ghost predicate Apart() {
      && ConfigOk(config)
      && slots.Length == config.slots && freeNext.Length == config.slots
      && peerCounts.Length == config.maxPeers && keySlots.Length >= 2 * config.slots
      && (forall key :: home(key) < keySlots.Length)
      && keySlots != peerCounts && freeNext as object != keySlots && freeNext as object != peerCounts
      && slots as object != keySlots && slots as object != peerCounts && slots as object != freeNext
    }

    ghost predicate IndexOk()
      reads this, slots, keySlots
    {
      Apart() && Indexed(keySlots[..], HomesOf(slots[..], home), where)
    }

    ghost predicate CountsOk()
      reads this, slots, peerCounts
    {
      Apart() && forall p :: 0 <= p < config.maxPeers ==> peerCounts[p] == CountPeer(slots[..], p)
    }

    /** The fast structures describe the slots and the free stack exactly. */
    ghost predicate Exact()
      reads this, slots, freeNext, peerCounts, keySlots
    {
      && Apart() && IndexOk() && CountsOk()
      && (forall i {:trigger i in where} :: 0 <= i < config.slots ==> (i in where <==> Live(slots[i])))
      && Linked(freeNext[..], freeHead, free)
    }

    /** As Exact, which proofs see only through Opens and Seals. */
    ghost predicate Bound()
      reads this, slots, freeNext, peerCounts, keySlots
    {
      Apart() && forall k {:trigger Look(k)} :: Look(k) ==> Exact()
    }

    lemma Opens()
      requires Bound()
      ensures Exact()
    {
      assert Look(0);
    }

    lemma Seals()
      requires Exact()
      ensures Bound()
    {}

    ghost predicate Valid()
      reads this, slots, freeNext, peerCounts, keySlots
    {
      Bound() && Core(config, Abs())
    }

    /** A pool of free slots; NewReassembler answers other configurations. */
    constructor (config: Config, hash: Key -> nat)
      requires ConfigOk(config)
      ensures Valid() && this.config == config
      ensures Abs() == Fresh(config)
      ensures fresh(slots) && fresh(freeNext) && fresh(peerCounts) && fresh(keySlots)
    {
      this.config := config;
      var size := KeyIndexSize(config.slots);
      var n := size.value;
      home := Reduced(hash, n);
      slots := new Slot[config.slots](i => EmptySlot(config));
      freeNext := new int[config.slots](i => if i + 1 < config.slots then i + 1 else -1);
      peerCounts := new nat[config.maxPeers](i => 0);
      keySlots := new nat[n](i => 0);
      freeHead, nextBorn := 0, 0;
      where, free := map[], Fresh(config).free;
      new;
      assert slots[..] == Fresh(config).slots;
      NewIsExact();
      Seals();
      FreshIsCore(config);
    }

    lemma NewIsExact()
      requires Apart() && slots[..] == Fresh(config).slots && where == map[] && free == Fresh(config).free &&
               freeHead == 0
      requires forall i :: 0 <= i < config.slots ==> freeNext[i] == if i + 1 < config.slots then i + 1 else -1
      requires forall p :: 0 <= p < config.maxPeers ==> peerCounts[p] == 0
      requires forall i :: 0 <= i < keySlots.Length ==> keySlots[i] == 0
      ensures Exact()
    {
      forall p | 0 <= p < config.maxPeers ensures CountPeer(slots[..], p) == 0 { CountNone(slots[..], p); }
      assert forall i :: 0 <= i < config.slots ==> slots[..][i] == slots[i];
    }

    // ----- the key index

    ghost function Homes(): seq<nat>
      reads slots
    {
      HomesOf(slots[..], home)
    }

    /** Entries within the first probes positions from start exist and have other keys. */
    ghost predicate Passed(key: Key, start: nat, probes: nat)
      requires IndexOk() && start < keySlots.Length
      reads this, slots, keySlots
    {
      var n := keySlots.Length;
      forall q :: 0 <= q < n && Dist(start, q, n) < probes ==> keySlots[q] != 0 && slots[keySlots[q] - 1].key != key
    }

    lemma PassOne(key: Key, start: nat, position: nat, probes: nat)
      requires IndexOk() && start < keySlots.Length && Passed(key, start, probes)
      requires position < keySlots.Length && Dist(start, position, keySlots.Length) == probes
      requires keySlots[position] != 0 && slots[keySlots[position] - 1].key != key
      ensures Passed(key, start, probes + 1)
      ensures probes + 1 < keySlots.Length ==>
              Dist(start, Next(position, keySlots.Length), keySlots.Length) == probes + 1
    {
      var n := keySlots.Length;
      forall q | 0 <= q < n && Dist(start, q, n) < probes + 1
        ensures keySlots[q] != 0 && slots[keySlots[q] - 1].key != key
      {
        assert Dist(start, q, n) == probes ==> q == position;
      }
    }

    lemma PassedAll(key: Key, start: nat, position: nat, probes: nat)
      requires IndexOk() && start == home(key) && Passed(key, start, probes) && position < keySlots.Length
      requires probes >= keySlots.Length ||
               (Dist(start, position, keySlots.Length) == probes && keySlots[position] == 0)
      ensures forall i :: i in where ==> slots[i].key != key
    {
      forall i | i in where ensures slots[i].key != key {
        assert slots[i].key == key ==> Homes()[i] == start;
        if keySlots[position] == 0 { ProbeStops(keySlots[..], Homes(), where, i, position); }
        assert keySlots[..][where[i]] == i + 1;
      }
    }

    /** Linear probing from the key's home position. */
    method FindKey(key: Key) returns (index: int)
      requires IndexOk() && forall i :: i in where ==> Live(slots[i])
      ensures index == -1 ==> forall i :: i in where ==> slots[i].key != key
      ensures index != -1 ==> index in where && slots[index].key == key
    {
      var n, start := keySlots.Length, home(key);
      var position: nat, probes: nat := start, 0;
      while probes < n
        invariant 0 <= probes <= n && position < n
        invariant probes < n ==> Dist(start, position, n) == probes
        invariant Passed(key, start, probes)
      {
        var entry := keySlots[position];
        if entry == 0 {
          PassedAll(key, start, position, probes);
          return -1;
        }
        assert entry == keySlots[..][position];
        var s := slots[entry - 1];
        if !s.detached && s.state != Free && s.key == key { return entry - 1; }
        PassOne(key, start, position, probes);
        position := Next(position, n);
        probes := probes + 1;
      }
      PassedAll(key, start, position, probes);
      return -1;
    }

    /** Puts index at the first empty position from its key's home. */
    method InsertKey(index: nat)
      requires IndexOk() && index < slots.Length && index !in where
      modifies keySlots, `where
      ensures IndexOk() && where.Keys == old(where.Keys) + {index}
    {
      var n, start := keySlots.Length, home(slots[index].key);
      ghost var table: seq<nat>, homes: seq<nat> := keySlots[..], Homes();
      ghost var z := HasEmpty(table, homes, where);
      assert homes[index] == start;
      var position: nat, probes: nat := start, 0;
      while keySlots[position] != 0
        invariant position < n && probes < n && Dist(start, position, n) == probes <= Dist(start, z, n)
        invariant forall q :: 0 <= q < n && Dist(start, q, n) < probes ==> keySlots[q] != 0
        decreases Dist(start, z, n) - probes
      {
        assert position != z;
        position := Next(position, n);
        probes := probes + 1;
      }
      Insert(table, homes, where, index, position);
      keySlots[position] := index + 1;
      where := where[index := position];
      assert keySlots[..] == table[position := index + 1];
    }

    /** Moves the entry at next into the hole, which moves the hole to next. */
    method MoveUp(hole: nat, next: nat, ghost homes: seq<nat>)
      requires Apart() && Deleting(keySlots[..], homes, where, hole, next) && keySlots[next] != 0
      requires var h := homes[keySlots[next] - 1]; Dist(h, next, keySlots.Length) > Dist(h, hole, keySlots.Length)
      modifies keySlots, `where
      ensures Deleting(keySlots[..], homes, where, next, Next(next, keySlots.Length))
      ensures where.Keys == old(where.Keys)
      ensures forall q :: 0 <= q < keySlots.Length && q != hole && q != next ==> keySlots[q] == old(keySlots[q])
    {
      MoveEntry(keySlots[..], homes, where, hole, next);
      ghost var before: seq<nat> := keySlots[..];
      var entry := keySlots[next];
      keySlots[hole] := entry;
      keySlots[next] := 0;
      assert keySlots[..] == before[hole := entry][next := 0];
      assert entry - 1 in where;
      where := where[entry - 1 := hole];
    }

    /** The state between two steps of a deletion; z is an empty position ahead. */
    ghost predicate Scanning(hole: nat, next: nat, homes: seq<nat>, z: nat)
      reads this, slots, keySlots
    {
      var n := keySlots.Length;
      && Apart() && homes == Homes()
      && Deleting(keySlots[..], homes, where, hole, next)
      && z < n && keySlots[z] == 0 && z != hole
      && Dist(hole, next, n) + Dist(next, z, n) == Dist(hole, z, n)
    }

    method ScanOne(hole: nat, next: nat, ghost homes: seq<nat>, ghost z: nat) returns (hole': nat)
      requires Scanning(hole, next, homes, z) && keySlots[next] != 0
      modifies keySlots, `where
      ensures Scanning(hole', Next(next, keySlots.Length), homes, z) && where.Keys == old(where.Keys)
      ensures Dist(Next(next, keySlots.Length), z, keySlots.Length) < Dist(next, z, keySlots.Length)
    {
      var n := keySlots.Length;
      assert keySlots[..][next] == keySlots[next];
      var start := home(slots[keySlots[next] - 1].key);
      StepTowards(hole, next, z, n);
      if Dist(start, next, n) > Dist(start, hole, n) {
        MoveUp(hole, next, homes);
        assert homes == Homes();
        return next;
      } else {
        SkipEntry(keySlots[..], homes, where, hole, next);
        return hole;
      }
    }

    /** Backshift deletion: later entries of the run move up into the hole until
        the run ends, so no chain is ever broken and no tombstone is left. */
    method DeleteKeyPosition(position: nat, ghost i: nat)
      requires IndexOk() && i in where && where[i] == position
      modifies keySlots, `where
      ensures IndexOk() && where.Keys == old(where.Keys) - {i}
    {
      ghost var homes := Homes();
      ghost var z := HasEmpty(keySlots[..], homes, where);
      StartDelete(keySlots[..], homes, where, i);
      assert keySlots[..][position] == i + 1;
      ghost var table: seq<nat> := keySlots[..];
      keySlots[position] := 0;
      assert keySlots[..] == table[position := 0];
      where := where - {i};
      var hole: nat, next: nat := position, Next(position, keySlots.Length);
      assert homes == Homes();
      while keySlots[next] != 0
        invariant next < keySlots.Length && Scanning(hole, next, homes, z)
        invariant where.Keys == old(where.Keys) - {i}
        decreases Dist(next, z, keySlots.Length)
      {
        hole := ScanOne(hole, next, homes, z);
        next := Next(next, keySlots.Length);
      }
      FinishDelete(keySlots[..], homes, where, hole, next);
    }

    ghost predicate KeysUnique()
      requires IndexOk()
      reads this, slots, keySlots
    {
      forall i, j :: i in where && j in where && slots[i].key == slots[j].key ==> i == j
    }

    /** The position of the key's entry, or -1. Unlike FindKey, this does not ask
        whether the slot is still live. */
    method FindPosition(key: Key) returns (at: int)
      requires IndexOk()
      ensures at == -1 ==> forall i :: i in where ==> slots[i].key != key
      ensures at != -1 ==> 0 <= at < keySlots.Length && keySlots[at] != 0 && slots[keySlots[at] - 1].key == key
    {
      var n, start := keySlots.Length, home(key);
      var position: nat, probes: nat := start, 0;
      while probes < n
        invariant 0 <= probes <= n && position < n
        invariant probes < n ==> Dist(start, position, n) == probes
        invariant Passed(key, start, probes)
      {
        var entry := keySlots[position];
        if entry == 0 {
          PassedAll(key, start, position, probes);
          return -1;
        }
        assert entry == keySlots[..][position];
        if slots[entry - 1].key == key { return position; }
        PassOne(key, start, position, probes);
        position := Next(position, n);
        probes := probes + 1;
      }
      PassedAll(key, start, position, probes);
      return -1;
    }

    /** Removes the key of slot i from the index. */
    method RemoveKey(key: Key, ghost i: nat)
      requires IndexOk() && KeysUnique() && i in where && slots[i].key == key
      modifies keySlots, `where
      ensures IndexOk() && where.Keys == old(where.Keys) - {i}
    {
      var at := FindPosition(key);
      assert keySlots[..][at] == keySlots[at];
      DeleteKeyPosition(at, i);
    }

    lemma FoundIsFind(key: Key, index: int)
      requires Valid() && IndexOk()
      requires index == -1 ==> forall i :: i in where ==> slots[i].key != key
      requires index != -1 ==> index in where && slots[index].key == key
      ensures index == Find(slots[..], key)
    {
      Opens();
      var i := Find(slots[..], key);
      if index != -1 { assert HoldsKey(slots[..], key, index); }
      if i != -1 { assert HoldsKey(slots[..], key, i); }
    }

    // ----- slots

    /** Overwrites a slot without moving a live key. */
    method WriteSlot(index: nat, s: Slot)
      requires IndexOk() && index < slots.Length && (index in where ==> s.key == slots[index].key)
      modifies slots
      ensures IndexOk() && slots[..] == old(slots[..])[index := s]
      ensures old(CountsOk()) && SameQuota(old(slots[index]), s) ==> CountsOk()
    {
      ghost var homes := Homes();
      forall p | 0 <= p < config.maxPeers && SameQuota(slots[index], s)
        ensures CountPeer(slots[..][index := s], p) == CountPeer(slots[..], p)
      {
        CountPeerUpdate(slots[..], index, s, p);
      }
      ghost var before := slots[..];
      slots[index] := s;
      assert slots[..] == before[index := s];
      IndexIgnoresDeadHomes(keySlots[..], homes, Homes(), where);
    }

    /** Takes a slot out of its peer's quota and leaves t in its place. */
    method Uncount(index: nat, t: Slot)
      requires IndexOk() && CountsOk() && index < slots.Length &&
               (slots[index].counted ==> slots[index].key.peer < config.maxPeers)
      requires !t.counted && (index in where ==> t.key == slots[index].key)
      modifies slots, peerCounts
      ensures IndexOk() && CountsOk() && slots[..] == old(slots[..])[index := t]
    {
      var s := slots[index];
      ghost var before := slots[..];
      forall p | 0 <= p < config.maxPeers
        ensures CountPeer(before[index := t], p) == CountPeer(before, p) - if s.counted && p == s.key.peer then 1 else 0
      {
        CountPeerUpdate(before, index, t, p);
      }
      if s.counted && peerCounts[s.key.peer] > 0 { peerCounts[s.key.peer] := peerCounts[s.key.peer] - 1; }
      WriteSlot(index, t);
    }

    method PushFree(index: nat)
      requires Apart() && Linked(freeNext[..], freeHead, free) && index < freeNext.Length && index !in free
      modifies `freeHead, `free, freeNext
      ensures Linked(freeNext[..], freeHead, free) && free == [index] + old(free)
    {
      LinkPush(freeNext[..], freeHead, free, index);
      freeNext[index] := freeHead;
      freeHead := index;
      free := [index] + free;
    }

    ghost predicate HeadIsFree()
      reads this, slots
    {
      free != [] ==>
          free[0] < slots.Length && slots[free[0]].state == Free && forall k :: 0 < k < |free| ==> free[k] != free[0]
    }

    method TakeFreeSlot() returns (index: int)
      requires Bound() && HeadIsFree()
      modifies `freeHead, `free, freeNext
      ensures Bound() && index == old(freeHead)
      ensures index == -1 <==> old(free) == []
      ensures free == if index == -1 then old(free) else old(free)[1..]
      ensures index != -1 ==> 0 <= index < slots.Length && index == old(free)[0] && slots[index].state == Free
    {
      Opens();
      index := freeHead;
      if index < 0 { return; }
      assert slots[index].state == Free;  // the source panics otherwise
      LinkPop(freeNext[..], freeHead, free);
      freeHead := freeNext[index];
      freeNext[index] := -1;
      free := free[1..];
      Seals();
    }

    /** Empties a busy slot, in the index, the quota and the slot itself. */
    method Vacate(index: nat)
      requires Bound() && IndexOk() && KeysUnique() && index < slots.Length
      requires slots[index].state != Free && slots[index].key.peer < config.maxPeers
      modifies `where, slots, peerCounts, keySlots
      ensures Bound() && slots[..] == old(slots[..])[index := Cleared(old(slots[index]))]
    {
      Opens();
      var s := slots[index];
      if !s.detached { RemoveKey(s.key, index); }
      Uncount(index, Cleared(s));
      Seals();
    }

    lemma CoreHere(index: nat)
      requires Valid() && index < slots.Length
      ensures IndexOk() && KeysUnique() && Shape(config, slots[index])
      ensures slots[index].state != Free ==> index !in free
    {
      Opens();
      forall i, j | i in where && j in where && slots[i].key == slots[j].key ensures i == j {
        assert HoldsKey(slots[..], slots[i].key, i) && HoldsKey(slots[..], slots[i].key, j);
      }
      assert Shape(config, slots[..][index]);
      assert slots[..][index] == slots[index];
    }

    method ClearSlot(index: nat)
      requires Valid() && index < slots.Length
      modifies this, slots, freeNext, peerCounts, keySlots
      ensures Valid() && Abs() == Clear(old(Abs()), index)
    {
      if slots[index].state == Free { return; }
      ClearKeepsCore(config, Abs(), index);
      CoreHere(index);
      Vacate(index);
      Opens();
      PushFree(index);
      Seals();
    }

    /** Puts a slot into its peer's quota. */
    method CountIn(index: nat, s: Slot)
      requires IndexOk() && CountsOk() && index < slots.Length && index !in where
      requires !slots[index].counted && s.counted && s.key.peer < config.maxPeers
      modifies slots, peerCounts
      ensures IndexOk() && CountsOk() && slots[..] == old(slots[..])[index := s]
    {
      ghost var before := slots[..];
      forall p | 0 <= p < config.maxPeers
        ensures CountPeer(before[index := s], p) == CountPeer(before, p) + if p == s.key.peer then 1 else 0
      {
        CountPeerUpdate(before, index, s, p);
      }
      WriteSlot(index, s);
      peerCounts[s.key.peer] := peerCounts[s.key.peer] + 1;
    }

    method StartSlot(index: nat, now: int, key: Key, count: nat)
      requires Bound() && index < slots.Length && slots[index].state == Free && !slots[index].counted
      requires key.peer < config.maxPeers
      modifies `nextBorn, `where, slots, peerCounts, keySlots
      ensures Bound() && nextBorn == old(nextBorn) + 1
      ensures slots[..] == old(slots[..])[index := Started(old(slots[index]), nextBorn, now, key, count)]
    {
      Opens();
      nextBorn := nextBorn + 1;
      CountIn(index, Started(slots[index], nextBorn, now, key, count));
      InsertKey(index);
      Seals();
    }

    method OldestAssembling(peer: Option<nat>) returns (oldest: int)
      ensures oldest == Oldest(slots[..], peer)
    {
      oldest := -1;
      for i := 0 to slots.Length
        invariant oldest == OldestUpTo(slots[..], i, peer)
      {
        if Evictable(slots[i], peer) && (oldest < 0 || Older(slots[i], slots[oldest])) { oldest := i; }
      }
    }

    method TakeAndStart(now: int, key: Key, count: nat) returns (index: int)
      requires Bound() && HeadIsFree() && key.peer < config.maxPeers
      requires free != [] ==> !slots[free[0]].counted
      modifies this, slots, freeNext, peerCounts, keySlots
      ensures Bound()
      ensures old(free) == [] ==> index == -1 && Abs() == old(Abs())
      ensures old(free) != [] ==> index == old(free)[0] && Abs() == Start(old(Abs()), now, key, count)
    {
      index := TakeFreeSlot();
      if index < 0 { return; }
      StartSlot(index, now, key, count);
    }

    method StartFree(now: int, key: Key, count: nat) returns (index: int)
      requires Valid() && Find(slots[..], key) == -1 && key.peer < config.maxPeers && 1 <= count <= MAX_FRAGMENTS
      modifies this, slots, freeNext, peerCounts, keySlots
      ensures Valid() && old(HeadIsFree())
      ensures old(free) == [] ==> index == -1 && Abs() == old(Abs())
      ensures old(free) != [] ==> index == old(free)[0] && Abs() == Start(old(Abs()), now, key, count)
    {
      if free != [] {
        FreeHead(config, Abs());
        StartKeepsCore(config, Abs(), now, key, count);
      }
      index := TakeAndStart(now, key, count);
    }

    method ReplaceSlot(index: nat, now: int, key: Key, count: nat) returns (got: int, evicted: Key)
      requires Valid() && Find(slots[..], key) == -1 && key.peer < config.maxPeers && 1 <= count <= MAX_FRAGMENTS
      requires index < slots.Length && slots[index].state != Free
      modifies this, slots, freeNext, peerCounts, keySlots
      ensures Valid() && Allocation(Abs(), got, Some(evicted)) == Replace(old(Abs()), index, now, key, count)
    {
      evicted := slots[index].key;
      ClearForgets(config, Abs(), index, key);
      ClearSlot(index);
      got := StartFree(now, key, count);
      assert got == index;  // the source panics otherwise
    }

    method AllocateSlot(now: int, key: Key, count: nat) returns (index: int, evicted: Option<Key>)
      requires Valid() && Find(slots[..], key) == -1 && key.peer < config.maxPeers && 1 <= count <= MAX_FRAGMENTS
      modifies this, slots, freeNext, peerCounts, keySlots
      ensures Valid() && Allocation(Abs(), index, evicted) == Allocate(config, old(Abs()), now, key, count)
    {
      Opens();
      evicted := None;
      var full := peerCounts[key.peer] >= config.perPeerSlots;
      if !full {
        index := StartFree(now, key, count);
        if index >= 0 { return; }
      }
      var oldest := OldestAssembling(if full then Some(key.peer) else None);
      if oldest < 0 { return -1, None; }
      var out;
      index, out := ReplaceSlot(oldest, now, key, count);
      evicted := Some(out);
    }

    // ----- the operations

    /** Some fragment already present shares a byte with start..end. */
    method OverlapsPresent(s: Slot, start: nat, end: nat) returns (hit: bool)
      requires Laid(s) && s.count <= MAX_FRAGMENTS
      ensures hit <==> exists j :: j in s.present && 0 <= j < s.count && j < MAX_FRAGMENTS && Collides(s, j, start, end)
    {
      for i := 0 to s.count
        invariant forall j :: j in s.present && 0 <= j < i ==> !Collides(s, j, start, end)
      {
        if i in s.present && Collides(s, i, start, end) { return true; }
      }
      return false;
    }

    method Conflict(index: nat, e: ReassemblyError) returns (out: Outcome)
      requires Valid() && index < slots.Length
      modifies this, slots, freeNext, peerCounts, keySlots
      ensures Valid()
      ensures Step(Abs(), out) == if old(slots[index]).state
              == Whole then Step(old(Abs()), Failed(CompletedPacketConflict))
                                  else Step(Clear(old(Abs()), index), Failed(e))
    {
      if slots[index].state == Whole { return Failed(CompletedPacketConflict); }
      ClearSlot(index);
      return Failed(e);
    }

    /** What Judge says of a slot and a record, computed with the source's loops. */
    method JudgeFragment(s: Slot, r: Record) returns (v: Verdict)
      requires Laid(s) && s.count <= MAX_FRAGMENTS && (forall i :: i in s.present ==> i < s.count)
      requires r.header.fragmentIndex < r.header.fragmentCount <= MAX_FRAGMENTS
      requires r.header.offset + |r.data| <= |s.buf| && |r.data| >= 1
      ensures v == Judge(s, r)
    {
      if s.count != r.header.fragmentCount { return Reject(s, FragmentCountMismatch); }
      if r.header.fragmentIndex in s.present {
        if SameFragment(s, r) { return Same; }
        return Reject(s, FragmentConflict);
      }
      var hit := OverlapsPresent(s, r.header.offset, r.header.offset + |r.data|);
      if hit { return Reject(s, FragmentOverlap); }
      var placed := PlaceFragment(s, r);
      PlacedIsLaid(s, r);
      if !Full(placed) { return Keep(placed); }
      var n, ok := ContiguousLength(placed);
      if !ok { return Reject(placed, Coverage); }
      ghost var m: nat :| Tiles(placed, m) && Judge(s, r) == Finish(placed.(state := Whole, packetLen := m));
      TilesUnique(placed, m, n);
      return Finish(placed.(state := Whole, packetLen := n));
    }

    /** Puts a slot of the same key, state and quota in the place of a live one. */
    method Store(index: nat, s: Slot)
      requires Bound() && index < slots.Length && Live(slots[index]) && Live(s) && s.counted == slots[index].counted &&
               s.key == slots[index].key
      modifies slots
      ensures Bound() && slots[..] == old(slots[..])[index := s]
    {
      Opens();
      WriteSlot(index, s);
      Seals();
    }

    /** A completed slot keeps its packet, another is given up. */
    method Refuse(index: nat, s: Slot, e: ReassemblyError) returns (out: Outcome)
      requires Valid() && index < slots.Length && Live(slots[index]) && Live(s) && s.counted == slots[index].counted
      requires s.key == slots[index].key && s.state == slots[index].state && Shape(config, s)
      modifies this, slots, freeNext, peerCounts, keySlots
      ensures Valid()
      ensures var q := old(Abs()).(slots := old(Abs()).slots[index := s]);
              Step(Abs(), out) == if s.state == Whole then Step(q, Failed(CompletedPacketConflict))
                  else Step(Clear(q, index), Failed(e))
    {
      SetKeepsCore(config, Abs(), index, s);
      Store(index, s);
      out := Conflict(index, e);
    }

    method DeliverFragment(index: nat, r: Record, evicted: Option<Key>) returns (out: Outcome)
      requires Valid() && index < slots.Length && Live(slots[index]) && CheckRecord(config, slots[index].key, r).None?
      modifies this, slots, freeNext, peerCounts, keySlots
      ensures Valid() && Step(Abs(), out) == Deliver(config, old(Abs()), index, r, evicted)
    {
      DeliverKeepsCore(config, Abs(), index, r, evicted);
      CoreHere(index);
      var v := JudgeFragment(slots[index], r);
      match v
      case Same => return Done(Duplicate, evicted);
      case Reject(s, e) => out := Refuse(index, s, e);
      case Keep(s) =>
        Store(index, s);
        return Done(Accepted, evicted);
      case Finish(s) =>
        Store(index, s);
        return Done(Completed(PacketOf(s, index)), evicted);
    }

    /** Clears the key's slot if it is still assembling and stale, or in any case. */
    method DropAssembling(key: Key, now: Option<int>) returns (index: int)
      requires Valid()
      modifies this, slots, freeNext, peerCounts, keySlots
      ensures Valid()
      ensures now.None? ==> Abs() == DropIf(config, old(Abs()), key, s => true)
      ensures now.Some? ==> Abs() == DropIf(config, old(Abs()), key, s => Expired(config, s, now.value))
      ensures index == Find(slots[..], key)
    {
      Opens();
      index := FindKey(key);
      FoundIsFind(key, index);
      if index >= 0 && slots[index].state == Assembling && (now.None? || Expired(config, slots[index], now.value)) {
        ClearForgets(config, Abs(), index, key);
        ClearSlot(index);
        index := -1;
      }
    }

    /** Adds one fragment. */
    method Accept(now: int, key: Key, r: Record) returns (out: Outcome)
      requires Valid()
      modifies this, slots, freeNext, peerCounts, keySlots
      ensures Valid() && Step(Abs(), out) == PoolSpec.Accept(config, old(Abs()), now, key, r)
    {
      var bad := CheckKey(config, key);
      if bad.Some? { return Failed(bad.value); }
      bad := CheckRecord(config, key, r);
      var index;
      if bad.Some? {
        index := DropAssembling(key, None);
        return Failed(bad.value);
      }
      index := DropAssembling(key, Some(now));
      var evicted := None;
      if index < 0 {
        AllocateKeepsCore(config, Abs(), now, key, r.header.fragmentCount);
        index, evicted := AllocateSlot(now, key, r.header.fragmentCount);
        if index < 0 {
          Opens();
          if peerCounts[key.peer] >= config.perPeerSlots { return Failed(PeerQuota); }
          return Failed(NoSlot);
        }
      }
      out := DeliverFragment(index, r, evicted);
    }

    method ExpireSlot(i: nat, now: int) returns (hit: bool)
      requires Valid() && i < slots.Length
      modifies this, slots, freeNext, peerCounts, keySlots
      ensures Valid() && Abs() == ExpireOne(config, old(Abs()), now, i)
      ensures hit == Expires(config, old(Abs()).slots[i], now)
    {
      hit := slots[i].state == Assembling && Expired(config, slots[i], now);
      if hit { ClearSlot(i); }
    }

    method Expire(now: int) returns (expired: nat)
      requires Valid()
      modifies this, slots, freeNext, peerCounts, keySlots
      ensures Valid() && Abs() == ExpireUpTo(config, old(Abs()), now, slots.Length)
      ensures expired == ExpireCount(config, old(Abs()), now, slots.Length)
      // each slot that still assembles a lifetime after its first record is freed, and no other is touched
      ensures forall i :: 0 <= i < slots.Length ==> AfterExpiry(config, old(slots[i]), slots[i], now)
      ensures expired == |DueSlots(config, old(slots[..]), now, slots.Length)|
    {
      ExpireExactly(config, Abs(), now, slots.Length);
      ExpireCounts(config, Abs(), now, slots.Length);
      expired := ExpireAll(now);
    }

    method ExpireAll(now: int) returns (expired: nat)
      requires Valid()
      modifies this, slots, freeNext, peerCounts, keySlots
      ensures Valid() && Abs() == ExpireUpTo(config, old(Abs()), now, slots.Length)
      ensures expired == ExpireCount(config, old(Abs()), now, slots.Length)
    {
      expired := 0;
      ghost var start: Pool, now': Pool := Abs(), Abs();
      for i := 0 to slots.Length
        invariant Valid() && Abs() == now' && |now'.slots| == slots.Length == |start.slots|
        invariant now' == ExpireUpTo(config, start, now, i) && expired == ExpireCount(config, start, now, i)
      {
        var hit := ExpireSlot(i, now);
        if hit { expired := expired + 1; }
        now' := ExpireOne(config, now', now, i);
      }
    }

    /** Takes a completed packet out of lookup and quota; its bytes stay. */
    method Detach(i: nat)
      requires Valid() && i < slots.Length && Live(slots[i]) && slots[i].state == Whole
      modifies `where, slots, peerCounts, keySlots
      ensures Valid() && slots[..] == old(slots[..])[i := Detached(old(slots[i]))]
    {
      Opens();
      CoreHere(i);
      DetachKeepsCore(config, Abs(), i);
      var s := slots[i];
      RemoveKey(s.key, i);
      Uncount(i, Detached(s));
      Seals();
    }

    method PurgeSlot(i: nat, peer: nat) returns (hit: bool)
      requires Valid() && i < slots.Length
      modifies this, slots, freeNext, peerCounts, keySlots
      ensures Valid() && Abs() == PurgeOne(old(Abs()), peer, i)
      ensures hit == Purges(old(Abs()).slots[i], peer)
    {
      hit := slots[i].state != Free && slots[i].key.peer == peer && !slots[i].detached;
      if !hit { return; }
      if slots[i].state == Whole { Detach(i); } else { ClearSlot(i); }
    }

    method PurgePeer(peer: nat) returns (purged: nat)
      requires Valid()
      modifies this, slots, freeNext, peerCounts, keySlots
      ensures Valid() && Abs() == if peer < config.maxPeers then PurgeUpTo(old(Abs()), peer, slots.Length)
              else old(Abs())
      ensures purged == if peer < config.maxPeers then PurgeCount(old(Abs()), peer, slots.Length) else 0
      // what the peer assembles is freed, its completed packets leave lookup and quota, no other slot is touched
      ensures peer < config.maxPeers ==>
                forall i :: 0 <= i < slots.Length ==> AfterPurge(old(slots[i]), slots[i], peer)
      ensures peer < config.maxPeers ==> purged == |OwnedSlots(old(slots[..]), peer, slots.Length)|
    {
      if peer >= config.maxPeers { return 0; }
      PurgeExactly(Abs(), peer, slots.Length);
      PurgeCounts(Abs(), peer, slots.Length);
      purged := PurgeAll(peer);
    }

    method PurgeAll(peer: nat) returns (purged: nat)
      requires Valid() && peer < config.maxPeers
      modifies this, slots, freeNext, peerCounts, keySlots
      ensures Valid() && Abs() == PurgeUpTo(old(Abs()), peer, slots.Length)
      ensures purged == PurgeCount(old(Abs()), peer, slots.Length)
    {
      purged := 0;
      ghost var start: Pool, now': Pool := Abs(), Abs();
      for i := 0 to slots.Length
        invariant Valid() && Abs() == now' && |now'.slots| == slots.Length == |start.slots|
        invariant now' == PurgeUpTo(start, peer, i) && purged == PurgeCount(start, peer, i)
      {
        var hit := PurgeSlot(i, peer);
        if hit { purged := purged + 1; }
        now' := PurgeOne(now', peer, i);
      }
    }

    method Release(handle: Handle) returns (err: Option<ReassemblyError>)
      requires Valid()
      modifies this, slots, freeNext, peerCounts, keySlots
      ensures Valid() && (Abs(), err) == PoolSpec.Release(old(Abs()), handle)
    {
      if handle.index < 0 || handle.index >= slots.Length { return Some(InvalidHandle); }
      var s := slots[handle.index];
      if s.state != Whole || s.generation != handle.generation { return Some(InvalidHandle); }
      ClearSlot(handle.index);
      return None;
    }
  }

  /** Refuses exactly the configurations outside ConfigOk. */
  method NewReassembler(c: Config, hash: Key -> nat) returns (r: Option<Reassembler>)
    ensures r.Some? <==> ConfigOk(c)
    ensures r.Some? ==> fresh(r.value) && r.value.Valid() && r.value.config == c && r.value.Abs() == Fresh(c)
  {
    if c.slots <= 0 || c.maxPacketSize <= 0 || c.maxPacketSize > MAX_U16 || c.maxPeers <= 0 || c.perPeerSlots <= 0 ||
       c.perPeerSlots > c.slots || c.lifetime <= 0 || c.slots > MAX_INT / c.maxPacketSize
    {
      return None;
    }
    var size := KeyIndexSize(c.slots);
    if size.None? { return None; }
    var reassembler := new Reassembler(c, hash);
    r := Some(reassembler);
  }
}
