/** Where the bytes of a completed packet come from: slot buffers are never
    cleared between packets, and still no byte of an earlier occupant gets out. */
module Provenance {
  import opened Wire
  import opened PoolSpec
  import opened PoolTheorems

  /** For each slot, the accepted operations that filled it, by fragment index. */
  type History = map<nat, map<nat, Op>>

  /** op brought fragment i of slot s, and its bytes are still there. */
  predicate Brought(s: Slot, i: nat, op: Op) {
    && op.AcceptOp? && op.key == s.key && op.record.header.fragmentIndex == i < |s.offsets| && i < |s.lengths|
    && s.offsets[i] == op.record.header.offset && s.lengths[i] == |op.record.data|
    && op.record.header.offset + |op.record.data| <= |s.buf|
    && s.buf[op.record.header.offset..op.record.header.offset + |op.record.data|] == op.record.data
  }

  ghost predicate FilledBy(s: Slot, ops: map<nat, Op>, done: seq<Op>) {
    && ops.Keys == s.present
    && forall i {:trigger Brought(s, i, ops[i])} :: i in ops ==> Brought(s, i, ops[i]) && ops[i] in done
  }

  ghost predicate Traced(p: Pool, h: History, done: seq<Op>) {
    forall i {:trigger i in h} ::
        0 <= i < |p.slots| && p.slots[i].state != Free ==> i in h && FilledBy(p.slots[i], h[i], done)
  }

  /** The slot that took the record of op, if one did. */
  ghost function TakenBy(c: Config, p: Pool, op: Op): int
    requires Core(c, p)
  {
    if op.AcceptOp? then
      var t := Accept(c, p, op.now, op.key, op.record);
      if t.outcome.Done? && !t.outcome.status.Duplicate? then Find(t.pool.slots, op.key) else -1
    else -1
  }

  function With(ops: map<nat, Op>, k: nat, op: Op): map<nat, Op> {
    ops[k := op]
  }

  /** The history after op. */
  ghost function Record1(c: Config, p: Pool, h: History, op: Op): History
    requires Core(c, p)
  {
    var i := TakenBy(c, p, op);
    if i < 0 then h
    else
      var k: nat := op.record.header.fragmentIndex;
      var before := if i in h && Apply(c, p, op).slots[i].present != {k} then h[i] else map[];
      h[i as nat := With(before, k, op)]
  }

  // ----- one step

  predicate SameFragments(a: Slot, b: Slot) {
    a.key == b.key && a.present == b.present && a.offsets == b.offsets && a.lengths == b.lengths && a.buf == b.buf
  }

  lemma BroughtStays(s: Slot, t: Slot, r: Record, i: nat, op: Op)
    requires Bounded(s) && Brought(s, i, op) && r.header.fragmentIndex < MAX_FRAGMENTS && r.header.fragmentIndex != i
    requires r.header.offset + |r.data| <= |s.buf| && |r.data| >= 1 && |op.record.data| >= 1
    requires !Collides(s, i, r.header.offset, r.header.offset + |r.data|) && SameFragments(t, PlaceFragment(s, r))
    ensures Brought(t, i, op)
  {
    var start, end, lo, hi := r.header.offset, r.header.offset + |r.data|, s.offsets[i], s.offsets[i] + s.lengths[i];
    assert t.buf == s.buf[..start] + r.data + s.buf[end..];
    assert t.buf[lo..hi] == s.buf[lo..hi];
  }

  lemma BroughtNew(s: Slot, t: Slot, op: Op)
    requires Bounded(s) && op.AcceptOp? && op.key == s.key && op.record.header.fragmentIndex < MAX_FRAGMENTS
    requires op.record.header.offset + |op.record.data| <= |s.buf| && SameFragments(t, PlaceFragment(s, op.record))
    ensures Brought(t, op.record.header.fragmentIndex, op)
  {
    var start, end := op.record.header.offset, op.record.header.offset + |op.record.data|;
    assert t.buf == s.buf[..start] + op.record.data + s.buf[end..];
    assert t.buf[start..end] == op.record.data;
  }

  lemma PlacedFilled(s: Slot, op: Op, ops: map<nat, Op>, done: seq<Op>, t: Slot)
    requires Laid(s) && FilledBy(s, ops, done) && op.AcceptOp? && op.key == s.key
    requires op.record.header.fragmentIndex < MAX_FRAGMENTS && op.record.header.offset + |op.record.data| <= |s.buf|
    requires op.record.header.fragmentIndex !in s.present
    requires forall j ::
             j in s.present ==> !Collides(s, j, op.record.header.offset, op.record.header.offset + |op.record.data|)
    requires SameFragments(t, PlaceFragment(s, op.record)) && |op.record.data| >= 1
    ensures FilledBy(t, With(ops, op.record.header.fragmentIndex, op), done + [op])
  {
    var k: nat := op.record.header.fragmentIndex;
    var ops' := With(ops, k, op);
    forall i | i in ops' ensures Brought(t, i, ops'[i]) && ops'[i] in done + [op] {
      if i == k {
        BroughtNew(s, t, op);
      } else {
        assert Brought(s, i, ops[i]);
        BroughtStays(s, t, op.record, i, ops[i]);
      }
    }
  }

  lemma MoreDone(s: Slot, ops: map<nat, Op>, done: seq<Op>, op: Op)
    requires FilledBy(s, ops, done)
    ensures FilledBy(s, ops, done + [op])
  {
    forall i | i in ops ensures Brought(s, i, ops[i]) && ops[i] in done + [op] { assert Brought(s, i, ops[i]); }
  }

  /** What Prepare leaves: slots as they were, free ones, and the record's own slot, possibly new and empty. */
  lemma PrepareShape(c: Config, p: Pool, now: int, key: Key, count: nat, j: nat)
    requires Core(c, p) && ConfigOk(c) && j < |p.slots| && key.peer < c.maxPeers && 1 <= count <= MAX_FRAGMENTS
    ensures var a := Prepare(c, p, now, key, count);
            a.pool.slots[j] == p.slots[j] || a.pool.slots[j].state == Free ||
                (j == a.index && a.pool.slots[j].present == {})
  {
    var q := DropIf(c, p, key, s => Expired(c, s, now));
    DropKeepsCore(c, p, key, s => Expired(c, s, now));
    if q.free != [] { FreeHead(c, q); }
  }

  lemma PrepareTraced(c: Config, p: Pool, h: History, done: seq<Op>, now: int, key: Key, count: nat)
    requires Inv(c, p) && Traced(p, h, done) && key.peer < c.maxPeers && 1 <= count <= MAX_FRAGMENTS
    ensures var a := Prepare(c, p, now, key, count);
            Traced(a.pool, if a.index >= 0 && a.pool.slots[a.index].present == {} then h[a.index as nat := map[]]
                else h, done)
  {
    var a := Prepare(c, p, now, key, count);
    PrepareKeepsCore(c, p, now, key, count);
    var h' := if a.index >= 0 && a.pool.slots[a.index].present == {} then h[a.index as nat := map[]] else h;
    forall i | 0 <= i < |a.pool.slots| && a.pool.slots[i].state != Free
      ensures i in h' && FilledBy(a.pool.slots[i], h'[i], done)
    {
      PrepareShape(c, p, now, key, count, i);
      if a.pool.slots[i] == p.slots[i] && !(i == a.index && a.pool.slots[i].present == {}) { assert i in h; }
    }
  }

  lemma DeliverTraced(c: Config, p: Pool, h: History, done: seq<Op>, i: nat, op: Op, evicted: Option<Key>)
    requires Inv(c, p) && Traced(p, h, done) && op.AcceptOp? && i < |p.slots| && Live(p.slots[i]) &&
             p.slots[i].key == op.key
    requires CheckRecord(c, op.key, op.record).None?
    ensures var t := Deliver(c, p, i, op.record, evicted);
            var k := op.record.header.fragmentIndex as nat;
            Core(c, t.pool) && i in h
            && Traced(t.pool, if t.outcome.Done? && !t.outcome.status.Duplicate? then h[i := With(h[i], k, op)]
                 else h, done + [op])
            && (t.outcome.Done? ==> Find(t.pool.slots, op.key) == i)
            && (t.outcome.Done? && !t.outcome.status.Duplicate? ==>
                 t.pool.slots[i].present == p.slots[i].present + {k} && k !in p.slots[i].present)
  {
    var t, k: nat := Deliver(c, p, i, op.record, evicted), op.record.header.fragmentIndex;
    assert i in h && Shape(c, p.slots[i]);
    DeliverKeepsCore(c, p, i, op.record, evicted);
    if p.slots[i].state == Whole { DeliverSparesWhole(c, p, i, op.record, evicted); }
    var placed := t.outcome.Done? && !t.outcome.status.Duplicate?;
    if placed { PlacedFilled(p.slots[i], op, h[i], done, t.pool.slots[i]); }
    var h' := if placed then h[i := With(h[i], k, op)] else h;
    forall j | 0 <= j < |t.pool.slots| && t.pool.slots[j].state != Free
      ensures j in h' && FilledBy(t.pool.slots[j], h'[j], done + [op])
    {
      if !(placed && j == i) {
        assert j in h;
        MoreDone(p.slots[j], h[j], done, op);
      }
    }
    if t.outcome.Done? {
      assert HoldsKey(t.pool.slots, op.key, i) && HoldsKey(t.pool.slots, op.key, Find(t.pool.slots, op.key));
    }
  }

  /** Slots that kept their fragments keep their history. */
  lemma KeepTraced(p: Pool, q: Pool, h: History, done: seq<Op>, op: Op)
    requires Traced(p, h, done) && |q.slots| == |p.slots|
    requires forall i ::
             0 <= i < |p.slots| && q.slots[i].state != Free ==>
             p.slots[i].state != Free && SameFragments(p.slots[i], q.slots[i])
    ensures Traced(q, h, done + [op])
  {
    forall i | 0 <= i < |q.slots| && q.slots[i].state != Free
      ensures i in h && FilledBy(q.slots[i], h[i], done + [op])
    {
      assert i in h;
      MoreDone(p.slots[i], h[i], done, op);
      forall k | k in h[i] ensures Brought(q.slots[i], k, h[i][k]) && h[i][k] in done + [op] {
        assert Brought(p.slots[i], k, h[i][k]);
      }
    }
  }

  lemma {:induction false} ExpireLeaves(c: Config, p: Pool, now: int, n: nat, i: nat)
    requires n <= |p.slots| && i < |p.slots|
    ensures var s := ExpireUpTo(c, p, now, n).slots[i]; s == p.slots[i] || s.state == Free
  {
    if n > 0 { ExpireLeaves(c, p, now, n - 1, i); }
  }

  lemma {:induction false} PurgeLeaves(p: Pool, peer: nat, n: nat, i: nat)
    requires n <= |p.slots| && i < |p.slots|
    ensures var s := PurgeUpTo(p, peer, n).slots[i]; s == p.slots[i] || s == Detached(p.slots[i]) || s.state == Free
    ensures p.slots[i].state == Free ==> PurgeUpTo(p, peer, n).slots[i] == p.slots[i]
  {
    if n > 0 { PurgeLeaves(p, peer, n - 1, i); }
  }

  lemma ForgetFree(q: Pool, h: History, h': History, done: seq<Op>, i: nat)
    requires Traced(q, h', done) && i < |q.slots| && q.slots[i].state == Free
    requires forall j :: j != i && j in h' ==> j in h && h[j] == h'[j]
    ensures Traced(q, h, done)
  {
    forall j | 0 <= j < |q.slots| && q.slots[j].state != Free ensures j in h && FilledBy(q.slots[j], h[j], done) {
      assert j in h';
    }
  }

  lemma DeliveredTraced(c: Config, p: Pool, h: History, done: seq<Op>, op: Op, a: Allocation, h': History)
    requires Inv(c, p) && op.AcceptOp? && CheckKey(c, op.key).None? && CheckRecord(c, op.key, op.record).None?
    requires a == Prepare(c, p, op.now, op.key, op.record.header.fragmentCount) && a.index >= 0
    requires Inv(c, a.pool) && Traced(a.pool, h', done) && Live(a.pool.slots[a.index]) &&
             a.pool.slots[a.index].key == op.key
    requires h' == if a.pool.slots[a.index].present == {} then h[a.index as nat := map[]] else h
    ensures Traced(Deliver(c, a.pool, a.index, op.record, a.evicted).pool, Record1(c, p, h, op), done + [op])
  {
    var i: nat := a.index;
    DeliverTraced(c, a.pool, h', done, i, op, a.evicted);
    var t := Deliver(c, a.pool, i, op.record, a.evicted);
    assert t == Accept(c, p, op.now, op.key, op.record);
    if t.outcome.Done? && !t.outcome.status.Duplicate? {
      PlacedRecorded(c, p, h, op, a, h', t);
    } else if a.pool.slots[i].present == {} {
      assert Settled(c, a.pool.slots[i]) && 0 !in a.pool.slots[i].present;
      ForgetFree(t.pool, h, h', done + [op], i);
    }
  }

  lemma PlacedRecorded(c: Config, p: Pool, h: History, op: Op, a: Allocation, h': History, t: PoolSpec.Step)
    requires Inv(c, p) && op.AcceptOp? && t == Accept(c, p, op.now, op.key, op.record)
    requires 0 <= a.index < |a.pool.slots| == |t.pool.slots| && a.index in h' && t.outcome.Done? &&
             !t.outcome.status.Duplicate?
    requires h' == if a.pool.slots[a.index].present == {} then h[a.index as nat := map[]] else h
    requires var k := op.record.header.fragmentIndex as nat;
             && Find(t.pool.slots, op.key) == a.index && k !in a.pool.slots[a.index].present
             && t.pool.slots[a.index].present == a.pool.slots[a.index].present + {k}
    ensures Record1(c, p, h, op) == h'[a.index as nat := With(h'[a.index], op.record.header.fragmentIndex, op)]
  {
    var i: nat, k: nat := a.index, op.record.header.fragmentIndex;
    assert TakenBy(c, p, op) == i;
    assert t.pool.slots[i].present == {k} <==> a.pool.slots[i].present == {};
  }

  lemma AcceptTraced(c: Config, p: Pool, h: History, done: seq<Op>, op: Op)
    requires Inv(c, p) && Traced(p, h, done) && op.AcceptOp? && CheckKey(c, op.key).None? &&
             CheckRecord(c, op.key, op.record).None?
    ensures Traced(Apply(c, p, op), Record1(c, p, h, op), done + [op])
  {
    var n := op.record.header.fragmentCount;
    var a := Prepare(c, p, op.now, op.key, n);
    PrepareKeepsCore(c, p, op.now, op.key, n);
    PrepareKeepsInv(c, p, op.now, op.key, n);
    PrepareTraced(c, p, h, done, op.now, op.key, n);
    if a.index >= 0 {
      DeliveredTraced(c, p, h, done, op, a, if a.pool.slots[a.index].present == {} then h[a.index as nat := map[]]
          else h);
    } else {
      KeepTraced(a.pool, a.pool, h, done, op);
    }
  }

  lemma StepTraced(c: Config, p: Pool, h: History, done: seq<Op>, op: Op)
    requires Inv(c, p) && Traced(p, h, done)
    ensures Traced(Apply(c, p, op), Record1(c, p, h, op), done + [op])
  {
    var q := Apply(c, p, op);
    if op.AcceptOp? && CheckKey(c, op.key).None? && CheckRecord(c, op.key, op.record).None? {
      AcceptTraced(c, p, h, done, op);
    } else {
      forall i | 0 <= i < |p.slots| && q.slots[i].state != Free
        ensures p.slots[i].state != Free && SameFragments(p.slots[i], q.slots[i])
      {
        match op
        case AcceptOp(_, _, _) =>
        case ExpireOp(now) => ExpireLeaves(c, p, now, |p.slots|, i);
        case PurgeOp(peer) => PurgeLeaves(p, peer, |p.slots|, i);
        case ReleaseOp(_) =>
      }
      KeepTraced(p, q, h, done, op);
    }
  }

  // ----- whole runs

  ghost function HistoryOf(c: Config, p: Pool, h: History, ops: seq<Op>): History
    requires Inv(c, p)
    decreases |ops|
  {
    if ops == [] then h
    else
      StepKeepsInv(c, p, ops[0]);
      HistoryOf(c, Apply(c, p, ops[0]), Record1(c, p, h, ops[0]), ops[1..])
  }

  lemma {:induction false} RunTraced(c: Config, p: Pool, h: History, done: seq<Op>, ops: seq<Op>)
    requires Inv(c, p) && Traced(p, h, done)
    ensures Traced(Run(c, p, ops), HistoryOf(c, p, h, ops), done + ops)
    decreases |ops|
  {
    if ops == [] {
      assert done + ops == done;
    } else {
      StepKeepsInv(c, p, ops[0]);
      StepTraced(c, p, h, done, ops[0]);
      RunTraced(c, Apply(c, p, ops[0]), Record1(c, p, h, ops[0]), done + [ops[0]], ops[1..]);
      assert done + [ops[0]] + ops[1..] == done + ops;
    }
  }

  /** Byte b of the packet in slot s is a byte of the record op brought. */
  predicate ByteFrom(s: Slot, b: nat, op: Op)
    requires b < |s.buf|
  {
    && op.AcceptOp? && op.key == s.key
    && op.record.header.offset <= b < op.record.header.offset + |op.record.data|
    && s.buf[b] == op.record.data[b - op.record.header.offset]
  }

  /** Exactly one of the operations in from brought byte b, and it is in done. */
  ghost predicate OwnByte(s: Slot, b: nat, from: map<nat, Op>, done: seq<Op>) {
    && b < |s.buf|
    && (exists k :: k in from && from[k] in done && ByteFrom(s, b, from[k]))
    && (forall j, k :: j in from && k in from && ByteFrom(s, b, from[j]) && ByteFrom(s, b, from[k]) ==> j == k)
  }

  lemma FilledMeansOwn(c: Config, s: Slot, from: map<nat, Op>, done: seq<Op>, b: nat)
    requires Settled(c, s) && s.state == Whole && FilledBy(s, from, done) && b < s.packetLen
    ensures OwnByte(s, b, from, done)
  {
    assert Covered(s, b);
    var k :| k in s.present && k < MAX_FRAGMENTS && Covers(s, k, b);
    assert Brought(s, k, from[k]);
    var r := from[k].record;
    assert s.buf[b] == s.buf[r.header.offset..r.header.offset + |r.data|][b - r.header.offset];
    assert ByteFrom(s, b, from[k]);
    forall j, l | j in from && l in from && ByteFrom(s, b, from[j]) && ByteFrom(s, b, from[l]) ensures j == l {
      assert Brought(s, j, from[j]) && Brought(s, l, from[l]);
    }
  }

  /** In every state of every run from an empty pool, each byte of each completed
      packet was brought by exactly one fragment, and by one for the packet's own
      key that this very run accepted; bytes of earlier occupants of the buffer
      never show. */
  lemma CompletedBytesAreItsOwn(c: Config, ops: seq<Op>, i: nat, b: nat)
    requires ConfigOk(c) && Inv(c, Fresh(c))
    requires i < |Run(c, Fresh(c), ops).slots|
    requires Run(c, Fresh(c), ops).slots[i].state == Whole && b < Run(c, Fresh(c), ops).slots[i].packetLen
    ensures i in HistoryOf(c, Fresh(c), map[], ops)
    ensures OwnByte(Run(c, Fresh(c), ops).slots[i], b, HistoryOf(c, Fresh(c), map[], ops)[i], ops)
  {
    RunTraced(c, Fresh(c), map[], [], ops);
    assert [] + ops == ops;
    var p, h := Run(c, Fresh(c), ops), HistoryOf(c, Fresh(c), map[], ops);
    assert Settled(c, p.slots[i]) && i in h;
    FilledMeansOwn(c, p.slots[i], h[i], ops, b);
  }
}
