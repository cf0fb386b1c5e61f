/** Per-lane reordering (internal/core/reorder/reorder.go). Wire sequences are
    32-bit and wrap; the specification gives every packet an unbounded position. */
module Reorder {
  import opened Wire
  import opened PoolSpec

  const MOD := 0x1_0000_0000
  const HALF := 0x8000_0000

  /** seq - from in 32-bit arithmetic. */
  function Sub(a: u32, b: u32): u32 {
    if a >= b then a - b else a - b + MOD
  }

  function Wrap(p: nat): u32 {
    p % MOD
  }

  /** The comparison of section 3.2 of RFC 1982. */
  predicate AheadOf(sequence: u32, expected: u32) {
    Sub(sequence, expected) != 0 && Sub(sequence, expected) < HALF
  }

  /** The position that a wire sequence denotes, seen from base. */
  function PositionOf(base: nat, sequence: u32): nat {
    base + Sub(sequence, Wrap(base))
  }

  lemma PositionIsFaithful(base: nat, p: nat)
    requires base <= p < base + MOD
    ensures PositionOf(base, Wrap(p)) == p && Sub(Wrap(p), Wrap(base)) == p - base
  {}

  lemma PositionWraps(base: nat, sequence: u32)
    ensures base <= PositionOf(base, sequence) < base + MOD && Wrap(PositionOf(base, sequence)) == sequence
  {}

  // ----- the queue by positions

  type Held = map<nat, Packet>

  /** base is the position delivered next, held the packets behind the gap and
      gap the time the first of them arrived. */
  datatype Queue = Queue(base: nat, held: Held, gap: Option<int>)

  /** A delivered packet with its position. */
  datatype Slotted = At(pos: nat, packet: Packet)

  /** x may be held at p while base is next. */
  predicate Fits(base: nat, p: nat, x: Packet) {
    base <= p < base + HALF && x.key.sequence == Wrap(p)
  }

  predicate AllFit(base: nat, held: Held) {
    forall p {:trigger Fits(base, p, held[p])} :: p in held ==> Fits(base, p, held[p])
  }

  lemma HeldAhead(base: nat, held: Held)
    requires AllFit(base, held)
    ensures forall p :: p in held ==> base <= p < base + HALF
  {
    forall p | p in held ensures base <= p < base + HALF { assert Fits(base, p, held[p]); }
  }

  lemma HeldPlaced(base: nat, held: Held)
    requires AllFit(base, held)
    ensures Placed(held)
  {
    forall p | p in held ensures held[p].key.sequence == Wrap(p) { assert Fits(base, p, held[p]); }
  }

  lemma FitLater(base: nat, base': nat, held: Held, held': Held)
    requires AllFit(base, held) && base <= base'
    requires forall p :: p in held' ==> p in held && held'[p] == held[p] && base' <= p
    ensures AllFit(base', held')
  {
    forall p | p in held' ensures Fits(base', p, held'[p]) { assert Fits(base, p, held[p]); }
  }

  ghost predicate QueueOk(q: Queue, capacity: nat) {
    && AllFit(q.base, q.held) && q.base !in q.held
    && |q.held| <= capacity
    && (q.gap.Some? <==> q.held != map[])
  }

  ghost predicate IsLeast(s: set<nat>, m: nat) {
    m in s && forall x :: x in s ==> m <= x
  }

  lemma {:induction false} LeastExists(s: set<nat>) returns (m: nat)
    requires s != {}
    ensures IsLeast(s, m)
    decreases |s|
  {
    var x :| x in s;
    var rest := s - {x};
    if rest == {} {
      assert s == {x};
      m := x;
    } else {
      var y := LeastExists(rest);
      assert s == rest + {x};
      m := if x <= y then x else y;
    }
  }

  ghost function Least(s: set<nat>): (m: nat)
    requires s != {}
    ensures IsLeast(s, m)
  {
    assert exists m :: IsLeast(s, m) by { var m := LeastExists(s); }
    var m :| IsLeast(s, m);
    m
  }

  lemma LeastIs(s: set<nat>, m: nat)
    requires IsLeast(s, m)
    ensures s != {} && Least(s) == m
  {}

  /** Every held packet in order of position, and the position after the last. */
  ghost function FlushFrom(base: nat, held: Held): (nat, seq<Slotted>)
    decreases |held|
  {
    if held == map[] then (base, [])
    else
      var m := Least(held.Keys);
      assert |held - {m}| < |held| by { RemoveShrinks(held, m); }
      var (b, rest) := FlushFrom(m + 1, held - {m});
      (b, [At(m, held[m])] + rest)
  }

  lemma RemoveShrinks(held: Held, m: nat)
    requires m in held
    ensures |held - {m}| == |held| - 1
  {
    assert (held - {m}).Keys == held.Keys - {m};
    assert |held.Keys| == |held| && |(held - {m}).Keys| == |held - {m}|;
  }

  /** The packets that follow base without a gap, and the queue they leave. */
  ghost function DrainFrom(base: nat, held: Held): (nat, Held, seq<Slotted>)
    decreases |held|
  {
    if base !in held then (base, held, [])
    else
      assert |held - {base}| < |held| by { RemoveShrinks(held, base); }
      var (b, h, rest) := DrainFrom(base + 1, held - {base});
      (b, h, [At(base, held[base])] + rest)
  }

  // ----- what an operation delivers

  /** Every packet sits at a position of its own sequence number. */
  predicate Placed(held: Held) {
    forall p :: p in held ==> held[p].key.sequence == Wrap(p)
  }

  /** Packets of consecutive or later sequence numbers: strictly increasing
      positions from lo up to below hi, each the position of its own sequence. */
  ghost predicate Increasing(out: seq<Slotted>, lo: nat, hi: nat) {
    && lo <= hi
    && (forall i :: 0 <= i < |out| ==> lo <= out[i].pos < hi && out[i].packet.key.sequence == Wrap(out[i].pos))
    && (forall i, j :: 0 <= i < j < |out| ==> out[i].pos < out[j].pos)
  }

  function Packets(out: seq<Slotted>): (ps: seq<Packet>)
    ensures |ps| == |out| && forall i :: 0 <= i < |out| ==> ps[i] == out[i].packet
  {
    if out == [] then [] else [out[0].packet] + Packets(out[1..])
  }

  lemma PacketsCons(x: Slotted, out: seq<Slotted>)
    ensures Packets([x] + out) == [x.packet] + Packets(out)
  {
    assert ([x] + out)[1..] == out;
  }

  lemma PacketsSnoc(out: seq<Slotted>, x: Slotted)
    ensures Packets(out + [x]) == Packets(out) + [x.packet]
  {}

  predicate SentAt(base: nat, held: Held, sent: seq<Slotted>, k: nat) {
    k < |sent| && sent[k].pos == base + k && base + k in held && sent[k].packet == held[base + k]
  }

  predicate LeftAt(base: nat, held: Held, n: nat, left: Held, p: nat) {
    (p in left <==> p in held && !(base <= p < base + n)) && (p in left ==> left[p] == held[p])
  }

  /** sent are the packets at base, base + 1 and so on, and left is what they leave of held. */
  ghost predicate IsRun(base: nat, held: Held, sent: seq<Slotted>, left: Held) {
    && (forall k {:trigger SentAt(base, held, sent, k)} :: 0 <= k < |sent| ==> SentAt(base, held, sent, k))
    && (forall p {:trigger LeftAt(base, held, |sent|, left, p)} :: LeftAt(base, held, |sent|, left, p))
  }

  lemma RunGrows(base: nat, held: Held, sent: seq<Slotted>, left: Held)
    requires IsRun(base, held, sent, left) && base + |sent| in left
    ensures IsRun(base, held, sent + [At(base + |sent|, left[base + |sent|])], left - {base + |sent|})
  {
    var q := base + |sent|;
    var sent', left' := sent + [At(q, left[q])], left - {q};
    assert LeftAt(base, held, |sent|, left, q);
    forall k | 0 <= k < |sent'|
      ensures SentAt(base, held, sent', k)
    {
      assert k < |sent| ==> SentAt(base, held, sent, k);
    }
    forall p ensures LeftAt(base, held, |sent'|, left', p) { assert LeftAt(base, held, |sent|, left, p); }
  }

  /** A run that ends at a gap is what DrainFrom delivers. */
  lemma {:induction false} RunIsDrain(base: nat, held: Held, sent: seq<Slotted>, left: Held)
    requires IsRun(base, held, sent, left) && base + |sent| !in left
    ensures DrainFrom(base, held) == (base + |sent|, left, sent)
    decreases |sent|
  {
    assert LeftAt(base, held, |sent|, left, base);
    if sent == [] {
      forall p
        ensures (p in left <==> p in held) && (p in left ==> left[p] == held[p])
      {
        assert LeftAt(base, held, 0, left, p);
      }
      assert left == held;
    } else {
      var next, rest, held' := base + 1, sent[1..], held - {base};
      assert SentAt(base, held, sent, 0);
      forall k | 0 <= k < |rest| ensures SentAt(next, held', rest, k) { assert SentAt(base, held, sent, k + 1); }
      forall p ensures LeftAt(next, held', |rest|, left, p) { assert LeftAt(base, held, |sent|, left, p); }
      RunIsDrain(next, held', rest, left);
      assert sent == [sent[0]] + rest;
    }
  }

  ghost predicate Flushing(goal: (nat, seq<Slotted>), sent: seq<Slotted>, base: nat, held: Held) {
    var rest := FlushFrom(base, held);
    goal.0 == rest.0 && goal.1 == sent + rest.1
  }

  lemma FlushOne(goal: (nat, seq<Slotted>), sent: seq<Slotted>, base: nat, held: Held, m: nat)
    requires Flushing(goal, sent, base, held) && IsLeast(held.Keys, m)
    ensures Flushing(goal, sent + [At(m, held[m])], m + 1, held - {m})
  {
    LeastIs(held.Keys, m);
    var x, rest := At(m, held[m]), FlushFrom(m + 1, held - {m}).1;
    assert sent + ([x] + rest) == (sent + [x]) + rest;
  }

  lemma FlushDone(goal: (nat, seq<Slotted>), sent: seq<Slotted>, base: nat)
    requires Flushing(goal, sent, base, map[])
    ensures goal == (base, sent)
  {
    assert sent + [] == sent;
  }

  /** A flush with one more packet x that belongs at position v. */
  ghost predicate FlushingWith(goal: (nat, seq<Slotted>), sent: seq<Slotted>, base: nat, held: Held, v: nat,
                               x: Packet) {
    v !in held && Flushing(goal, sent, base, held[v := x])
  }

  lemma FlushExtra(goal: (nat, seq<Slotted>), sent: seq<Slotted>, base: nat, held: Held, v: nat, x: Packet)
    requires FlushingWith(goal, sent, base, held, v, x) && forall p :: p in held ==> v < p
    ensures Flushing(goal, sent + [At(v, x)], v + 1, held)
  {
    var all := held[v := x];
    assert IsLeast(all.Keys, v);
    FlushOne(goal, sent, base, all, v);
    assert all - {v} == held;
  }

  lemma FlushBeforeExtra(goal: (nat, seq<Slotted>), sent: seq<Slotted>, base: nat, held: Held, v: nat, x: Packet,
                         m: nat)
    requires FlushingWith(goal, sent, base, held, v, x) && IsLeast(held.Keys, m) && m < v
    ensures FlushingWith(goal, sent + [At(m, held[m])], m + 1, held - {m}, v, x)
  {
    var all := held[v := x];
    assert IsLeast(all.Keys, m);
    FlushOne(goal, sent, base, all, m);
    assert all - {m} == (held - {m})[v := x];
  }

  lemma IncreasingCons(x: Slotted, out: seq<Slotted>, lo: nat, hi: nat)
    requires Increasing(out, x.pos + 1, hi) && lo <= x.pos && x.packet.key.sequence == Wrap(x.pos)
    ensures Increasing([x] + out, lo, hi)
  {}

  lemma IncreasingAppend(a: seq<Slotted>, b: seq<Slotted>, lo: nat, mid: nat, hi: nat)
    requires Increasing(a, lo, mid) && Increasing(b, mid, hi)
    ensures Increasing(a + b, lo, hi)
  {}

  lemma {:induction false} FlushIsIncreasing(base: nat, held: Held)
    requires Placed(held) && forall p :: p in held ==> base <= p
    ensures Increasing(FlushFrom(base, held).1, base, FlushFrom(base, held).0)
    ensures |FlushFrom(base, held).1| == |held|
    decreases |held|
  {
    if held != map[] {
      var m := Least(held.Keys);
      RemoveShrinks(held, m);
      FlushIsIncreasing(m + 1, held - {m});
      IncreasingCons(At(m, held[m]), FlushFrom(m + 1, held - {m}).1, base, FlushFrom(base, held).0);
    }
  }

  lemma {:induction false} DrainIsIncreasing(base: nat, held: Held)
    requires Placed(held)
    ensures Increasing(DrainFrom(base, held).2, base, DrainFrom(base, held).0)
    ensures |DrainFrom(base, held).2| + |DrainFrom(base, held).1| == |held|
    ensures forall p :: p in DrainFrom(base, held).1 ==> p in held && DrainFrom(base, held).1[p] == held[p]
    ensures (forall p :: p in held ==> base <= p) ==>
            forall p :: p in DrainFrom(base, held).1 ==> DrainFrom(base, held).0 < p
    ensures DrainFrom(base, held).0 !in DrainFrom(base, held).1
    decreases |held|
  {
    if base in held {
      RemoveShrinks(held, base);
      DrainIsIncreasing(base + 1, held - {base});
      IncreasingCons(At(base, held[base]), DrainFrom(base + 1, held - {base}).2, base, DrainFrom(base, held).0);
    }
  }

  // ----- the operations on queues

  datatype Fate = Delivered | Queued | Repeated | Late | Flushed

  datatype Move = Move(queue: Queue, fate: Fate, out: seq<Slotted>)

  ghost function FlushQueue(q: Queue): Move {
    var (b, out) := FlushFrom(q.base, q.held);
    Move(Queue(b, map[], None), Flushed, out)
  }

  ghost function AcceptQueue(capacity: nat, q: Queue, now: int, packet: Packet): Move {
    var d, p := Sub(packet.key.sequence, Wrap(q.base)), PositionOf(q.base, packet.key.sequence);
    if d == 0 then
      var (b, h, rest) := DrainFrom(q.base + 1, q.held);
      Move(Queue(b, h, if h == map[] then None else q.gap), Delivered, [At(q.base, packet)] + rest)
    else if d >= HALF then Move(q, Late, [])
    else if p in q.held then Move(q, Repeated, [])
    else if |q.held| == capacity then FlushQueue(Queue(q.base, q.held[p := packet], q.gap))
    else Move(Queue(q.base, q.held[p := packet], if q.held == map[] then Some(now) else q.gap), Queued, [])
  }

  predicate Overdue(q: Queue, maxDelay: int, now: int) {
    q.gap.Some? && now >= q.gap.value + maxDelay
  }

  ghost function TickQueue(q: Queue, maxDelay: int, now: int): Move {
    if Overdue(q, maxDelay, now) then FlushQueue(q) else Move(q, Flushed, [])
  }

  /** The position FlushIncluding gives a packet. One whose sequence is already
      held counts as a whole cycle later. */
  function IncludedAt(q: Queue, packet: Packet): nat {
    var p := PositionOf(q.base, packet.key.sequence);
    if p in q.held then p + MOD else p
  }

  ghost function FlushIncludingQueue(q: Queue, packet: Packet): Move {
    FlushQueue(Queue(q.base, q.held[IncludedAt(q, packet) := packet], q.gap))
  }

  predicate WouldQueue(capacity: nat, q: Queue, sequence: u32) {
    AheadOf(sequence, Wrap(q.base)) && PositionOf(q.base, sequence) !in q.held && |q.held| < capacity
  }

  // ----- what each operation keeps and delivers

  lemma DrainKeeps(capacity: nat, q: Queue, packet: Packet)
    requires QueueOk(q, capacity) && packet.key.sequence == Wrap(q.base)
    ensures var (b, h, rest) := DrainFrom(q.base + 1, q.held);
            var out := [At(q.base, packet)] + rest;
            QueueOk(Queue(b, h, if h == map[] then None else q.gap), capacity)
            && Increasing(out, q.base, b) && |out| + |h| == |q.held| + 1
  {
    var (b, h, rest) := DrainFrom(q.base + 1, q.held);
    HeldAhead(q.base, q.held);
    HeldPlaced(q.base, q.held);
    DrainIsIncreasing(q.base + 1, q.held);
    IncreasingCons(At(q.base, packet), rest, q.base, b);
    FitLater(q.base, b, q.held, h);
    assert h != map[] ==> q.held != map[] by {
      if h != map[] { var x :| x in h; assert x in q.held; }
    }
  }

  /** One packet keeps the queue in order and delivers in order. */
  lemma AcceptQueueKeeps(capacity: nat, q: Queue, now: int, packet: Packet)
    requires QueueOk(q, capacity) && 0 < capacity < HALF
    ensures var m := AcceptQueue(capacity, q, now, packet);
            QueueOk(m.queue, capacity) && Increasing(m.out, q.base, m.queue.base) && |m.out| <= capacity + 1
            && |m.queue.held| + |m.out| + |Dropped(m, packet)| == |q.held| + 1
  {
    var m, p := AcceptQueue(capacity, q, now, packet), PositionOf(q.base, packet.key.sequence);
    PositionWraps(q.base, packet.key.sequence);
    HeldAhead(q.base, q.held);
    HeldPlaced(q.base, q.held);
    if m.fate.Delivered? {
      DrainKeeps(capacity, q, packet);
    } else if m.fate.Flushed? {
      FlushQueueKeeps(Queue(q.base, q.held[p := packet], q.gap), capacity);
    } else if m.fate.Queued? {
      var held := q.held[p := packet];
      forall x | x in held ensures Fits(q.base, x, held[x]) { assert x != p ==> Fits(q.base, x, q.held[x]); }
    }
  }

  lemma FlushQueueKeeps(q: Queue, capacity: nat)
    requires Placed(q.held) && forall p :: p in q.held ==> q.base <= p
    ensures var m := FlushQueue(q);
            QueueOk(m.queue, capacity) && Increasing(m.out, q.base, m.queue.base) && |m.out| == |q.held| &&
                m.queue.held == map[]
  {
    FlushIsIncreasing(q.base, q.held);
  }

  lemma FlushIncludingKeeps(q: Queue, packet: Packet, capacity: nat)
    requires QueueOk(q, capacity)
    ensures var m := FlushIncludingQueue(q, packet);
            QueueOk(m.queue, capacity) && Increasing(m.out, q.base, m.queue.base) && |m.out| == |q.held| + 1 &&
                m.queue.held == map[]
  {
    IncludedFits(q, packet, capacity);
    FlushQueueKeeps(Queue(q.base, q.held[IncludedAt(q, packet) := packet], q.gap), capacity);
  }

  lemma IncludedSequence(q: Queue, packet: Packet, capacity: nat)
    requires QueueOk(q, capacity)
    ensures var at := IncludedAt(q, packet); q.base <= at && at !in q.held && packet.key.sequence == Wrap(at)
  {
    PositionWraps(q.base, packet.key.sequence);
    HeldAhead(q.base, q.held);
  }

  lemma IncludedFits(q: Queue, packet: Packet, capacity: nat)
    requires QueueOk(q, capacity)
    ensures var more := q.held[IncludedAt(q, packet) := packet];
            Placed(more) && |more| == |q.held| + 1 && forall p :: p in more ==> q.base <= p
  {
    IncludedSequence(q, packet, capacity);
    PlaceOne(q.base, q.held, IncludedAt(q, packet), packet);
  }

  lemma PlaceOne(base: nat, held: Held, at: nat, packet: Packet)
    requires AllFit(base, held) && base <= at && at !in held && packet.key.sequence == Wrap(at)
    ensures var more := held[at := packet]; Placed(more) && |more| == |held| + 1 && forall p :: p in more ==> base <= p
  {
    HeldAhead(base, held);
    HeldPlaced(base, held);
  }

  // ----- conservation

  function One(x: Packet, y: Packet): nat { if x == y then 1 else 0 }

  /** How often packet x is held. */
  ghost function OccHeld(held: Held, x: Packet): nat
    decreases |held|
  {
    if held == map[] then 0
    else
      var m := Least(held.Keys);
      assert |held - {m}| < |held| by { RemoveShrinks(held, m); }
      One(held[m], x) + OccHeld(held - {m}, x)
  }

  /** How often packet x is among those delivered. */
  function OccOut(out: seq<Slotted>, x: Packet): nat {
    if out == [] then 0 else One(out[0].packet, x) + OccOut(out[1..], x)
  }

  lemma OccOutCons(y: Slotted, out: seq<Slotted>, x: Packet)
    ensures OccOut([y] + out, x) == One(y.packet, x) + OccOut(out, x)
  {
    assert ([y] + out)[1..] == out;
  }

  lemma {:induction false} OccOutAppend(a: seq<Slotted>, b: seq<Slotted>, x: Packet)
    ensures OccOut(a + b, x) == OccOut(a, x) + OccOut(b, x)
  {
    if a == [] {
      assert a + b == b;
    } else {
      OccOutAppend(a[1..], b, x);
      assert (a + b)[1..] == a[1..] + b;
    }
  }

  lemma {:induction false} FlushConserves(base: nat, held: Held, x: Packet)
    ensures OccOut(FlushFrom(base, held).1, x) == OccHeld(held, x)
    decreases |held|
  {
    if held != map[] {
      var m := Least(held.Keys);
      RemoveShrinks(held, m);
      FlushConserves(m + 1, held - {m}, x);
      OccOutCons(At(m, held[m]), FlushFrom(m + 1, held - {m}).1, x);
    }
  }

  lemma LeastOfMore(held: Held, p: nat, y: Packet) returns (m: nat)
    ensures held[p := y].Keys != {} && m == Least(held[p := y].Keys)
    ensures m != p ==> m in held && m == Least(held.Keys) && p != m
  {
    var more := held[p := y];
    assert p in more;
    m := Least(more.Keys);
    if m != p {
      forall k | k in held.Keys ensures m <= k { assert k in more.Keys; }
      LeastIs(held.Keys, m);
    }
  }

  lemma {:induction false} OccHeldAdd(held: Held, p: nat, y: Packet, x: Packet)
    requires p !in held
    ensures OccHeld(held[p := y], x) == OccHeld(held, x) + One(y, x)
    decreases |held|
  {
    var more := held[p := y];
    var m := LeastOfMore(held, p, y);
    if m == p {
      assert more - {m} == held;
    } else {
      RemoveShrinks(held, m);
      OccHeldAdd(held - {m}, p, y, x);
      assert more - {m} == (held - {m})[p := y];
    }
  }

  lemma {:induction false} DrainConserves(base: nat, held: Held, x: Packet)
    ensures OccHeld(held, x) == OccOut(DrainFrom(base, held).2, x) + OccHeld(DrainFrom(base, held).1, x)
    decreases |held|
  {
    if base in held {
      RemoveShrinks(held, base);
      DrainConserves(base + 1, held - {base}, x);
      OccHeldAdd(held - {base}, base, held[base], x);
      assert (held - {base})[base := held[base]] == held;
      OccOutCons(At(base, held[base]), DrainFrom(base + 1, held - {base}).2, x);
    }
  }

  function Dropped(m: Move, packet: Packet): seq<Packet> {
    if m.fate.Late? || m.fate.Repeated? then [packet] else []
  }

  /** Nothing is lost and nothing invented: for every packet x, what was held
      plus what came in is what went out plus what is held plus what was
      dropped as late or repeated. */
  lemma AcceptQueueConserves(capacity: nat, q: Queue, now: int, packet: Packet, x: Packet)
    requires QueueOk(q, capacity)
    ensures var m := AcceptQueue(capacity, q, now, packet);
            OccHeld(q.held, x) + One(packet, x)
            == OccOut(m.out, x) + OccHeld(m.queue.held, x) + (if Dropped(m, packet) == [] then 0 else One(packet, x))
  {
    var m, p := AcceptQueue(capacity, q, now, packet), PositionOf(q.base, packet.key.sequence);
    if m.fate.Delivered? {
      DrainConserves(q.base + 1, q.held, x);
      OccOutCons(At(q.base, packet), DrainFrom(q.base + 1, q.held).2, x);
    } else if m.fate.Flushed? {
      OccHeldAdd(q.held, p, packet, x);
      FlushConserves(q.base, q.held[p := packet], x);
    } else if m.fate.Queued? {
      OccHeldAdd(q.held, p, packet, x);
    }
  }

  // ----- whole runs

  datatype QueueOp = Arrive(now: int, packet: Packet) | TickAt(now: int) | FlushAll | FlushWith(packet: Packet)

  ghost function Moves(capacity: nat, maxDelay: int, q: Queue, op: QueueOp): Move {
    match op
    case Arrive(now, packet) => AcceptQueue(capacity, q, now, packet)
    case TickAt(now) => TickQueue(q, maxDelay, now)
    case FlushAll => FlushQueue(q)
    case FlushWith(packet) => FlushIncludingQueue(q, packet)
  }

  /** The packets an operation brings in, and those it drops. */
  function BroughtBy(op: QueueOp): seq<Packet> {
    match op
    case Arrive(_, packet) => [packet]
    case FlushWith(packet) => [packet]
    case TickAt(_) => []
    case FlushAll => []
  }

  ghost function Lost(capacity: nat, maxDelay: int, q: Queue, op: QueueOp): seq<Packet> {
    if op.Arrive? then Dropped(AcceptQueue(capacity, q, op.now, op.packet), op.packet) else []
  }

  function Occ(ps: seq<Packet>, x: Packet): nat {
    if ps == [] then 0 else One(ps[0], x) + Occ(ps[1..], x)
  }

  lemma {:induction false} OccAppend(a: seq<Packet>, b: seq<Packet>, x: Packet)
    ensures Occ(a + b, x) == Occ(a, x) + Occ(b, x)
  {
    if a == [] {
      assert a + b == b;
    } else {
      OccAppend(a[1..], b, x);
      assert (a + b)[1..] == a[1..] + b;
    }
  }

  lemma MoveKeeps(capacity: nat, maxDelay: int, q: Queue, op: QueueOp)
    requires QueueOk(q, capacity) && 0 < capacity < HALF
    ensures var m := Moves(capacity, maxDelay, q, op);
            QueueOk(m.queue, capacity) && Increasing(m.out, q.base, m.queue.base) && |m.out| <= capacity + 1
  {
    match op
    case Arrive(now, packet) => AcceptQueueKeeps(capacity, q, now, packet);
    case TickAt(now) => HeldAhead(q.base, q.held); HeldPlaced(q.base, q.held); FlushQueueKeeps(q, capacity);
    case FlushAll => HeldAhead(q.base, q.held); HeldPlaced(q.base, q.held); FlushQueueKeeps(q, capacity);
    case FlushWith(packet) => FlushIncludingKeeps(q, packet, capacity);
  }

  lemma MoveConserves(capacity: nat, maxDelay: int, q: Queue, op: QueueOp, x: Packet)
    requires QueueOk(q, capacity) && 0 < capacity < HALF
    ensures var m := Moves(capacity, maxDelay, q, op);
            OccHeld(q.held, x) + Occ(BroughtBy(op), x) == OccOut(m.out, x) + OccHeld(m.queue.held, x)
                + Occ(Lost(capacity, maxDelay, q, op), x)
  {
    match op
    case Arrive(now, packet) => AcceptQueueConserves(capacity, q, now, packet, x);
    case TickAt(now) => FlushConserves(q.base, q.held, x);
    case FlushAll => FlushConserves(q.base, q.held, x);
    case FlushWith(packet) =>
      var at := IncludedAt(q, packet);
      PositionWraps(q.base, packet.key.sequence);
      HeldAhead(q.base, q.held);
      OccHeldAdd(q.held, at, packet, x);
      FlushConserves(q.base, q.held[at := packet], x);
  }

  /** A lane's whole life: the queue, everything delivered, dropped and brought in. */
  datatype Life = Life(queue: Queue, delivered: seq<Slotted>, dropped: seq<Packet>, brought: seq<Packet>)

  ghost function RunLane(capacity: nat, maxDelay: int, life: Life, ops: seq<QueueOp>): Life
    decreases |ops|
  {
    if ops == [] then life
    else
      var m := Moves(capacity, maxDelay, life.queue, ops[0]);
      RunLane(capacity, maxDelay,
           Life(m.queue, life.delivered + m.out, life.dropped + Lost(capacity, maxDelay, life.queue, ops[0]),
               life.brought + BroughtBy(ops[0])),
           ops[1..])
  }

  ghost predicate LifeOk(capacity: nat, first: nat, life: Life) {
    QueueOk(life.queue, capacity) && Increasing(life.delivered, first, life.queue.base)
  }

  /** Over every run, across any number of 32-bit wraps, a lane delivers at
      strictly increasing positions, everything pending lies less than half the
      sequence space ahead, and every packet brought in was delivered, is held,
      or was dropped as late or repeated, as often as it was brought in. */
  lemma {:induction false} LaneIsOrderedAndConserved(capacity: nat, maxDelay: int, first: nat, life: Life,
                                ops: seq<QueueOp>, x: Packet)
    requires 0 < capacity < HALF && LifeOk(capacity, first, life)
    requires Occ(life.brought, x) == OccOut(life.delivered, x) + OccHeld(life.queue.held, x) + Occ(life.dropped, x)
    ensures var after := RunLane(capacity, maxDelay, life, ops);
            LifeOk(capacity, first, after)
            && Occ(after.brought, x) == OccOut(after.delivered, x) + OccHeld(after.queue.held, x)
                 + Occ(after.dropped, x)
    decreases |ops|
  {
    if ops != [] {
      var q, op := life.queue, ops[0];
      var m, lost := Moves(capacity, maxDelay, q, op), Lost(capacity, maxDelay, q, op);
      MoveKeeps(capacity, maxDelay, q, op);
      MoveConserves(capacity, maxDelay, q, op, x);
      IncreasingAppend(life.delivered, m.out, first, q.base, m.queue.base);
      OccOutAppend(life.delivered, m.out, x);
      OccAppend(life.dropped, lost, x);
      OccAppend(life.brought, BroughtBy(op), x);
      LaneIsOrderedAndConserved(capacity, maxDelay, first,
          Life(m.queue, life.delivered + m.out, life.dropped + lost, life.brought + BroughtBy(op)), ops[1..], x);
    }
  }
}
