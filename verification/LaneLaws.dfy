/** What a reorder lane does with an arriving packet, said by the position that its
    sequence number has in the lane's stream. */
module LaneLaws {
  import opened Wire
  import opened PoolSpec
  import opened Reorder

  /** Packet k of the run has the k-th position from base on. */
  predicate RunAt(base: nat, held: Held, out: seq<Slotted>, k: nat)
    requires k < |out|
  {
    base + k in held && out[k] == At(base + k, held[base + k])
  }

  /** out is the unbroken run of held packets from base on, and h is what it leaves. */
  ghost predicate Unbroken(base: nat, held: Held, out: seq<Slotted>, h: Held) {
    && (forall k {:trigger RunAt(base, held, out, k)} :: 0 <= k < |out| ==> RunAt(base, held, out, k))
    && base + |out| !in held
    && h == map x | x in held && base + |out| <= x :: held[x]
  }

  lemma UnbrokenCons(base: nat, held: Held, rest: seq<Slotted>, h: Held)
    requires base in held && (forall x :: x in held ==> base <= x) && Unbroken(base + 1, held - {base}, rest, h)
    ensures Unbroken(base, held, [At(base, held[base])] + rest, h)
  {
    var out := [At(base, held[base])] + rest;
    forall k | 0 <= k < |out| ensures RunAt(base, held, out, k) {
      if k > 0 { assert RunAt(base + 1, held - {base}, rest, k - 1) && out[k] == rest[k - 1]; }
    }
  }

  lemma {:induction false} DrainIsUnbroken(base: nat, held: Held)
    requires forall x :: x in held ==> base <= x
    ensures var d := DrainFrom(base, held); d.0 == base + |d.2| && Unbroken(base, held, d.2, d.1)
    decreases |held|
  {
    if base in held {
      RemoveShrinks(held, base);
      DrainIsUnbroken(base + 1, held - {base});
      var d := DrainFrom(base + 1, held - {base});
      UnbrokenCons(base, held, d.2, d.1);
    } else {
      assert (map x | x in held && base <= x :: held[x]) == held;
    }
  }

  /** The packet is numbered with position p of a stream of 32-bit numbers. */
  predicate NumberedAt(packet: Packet, p: nat) { packet.key.sequence == p % 0x1_0000_0000 }

  /** A packet at the next position leaves at once with the unbroken run behind it;
      one within 2^31 ahead waits, or makes a full lane send out everything; a
      second one of a waiting position and one up to 2^31 behind change nothing. */
  lemma ArrivalByPosition(capacity: nat, q: Queue, now: int, packet: Packet, p: nat)
    requires QueueOk(q, capacity) && NumberedAt(packet, p) && q.base <= p + 0x8000_0000 && p < q.base + 0x8000_0000
    ensures var m := AcceptQueue(capacity, q, now, packet);
            && (p < q.base ==> m == Move(q, Late, []))
            && (p in q.held ==> m == Move(q, Repeated, []))
            && (p == q.base ==>
                  && m.fate == Delivered && m.out != [] && m.out[0] == At(p, packet)
                  && Unbroken(p + 1, q.held, m.out[1..], m.queue.held) && m.queue.base == p + |m.out|
                  && m.queue.gap == if m.queue.held == map[] then None else q.gap)
            && (p > q.base && p !in q.held && |q.held| < capacity ==>
                  m == Move(Queue(q.base, q.held[p := packet], if q.held == map[] then Some(now) else q.gap), Queued,
                      []))
            && (p > q.base && p !in q.held && |q.held| == capacity ==>
                  m.fate == Flushed && m.queue.held == map[] && m.queue.gap == None &&
                  SendsAll(q.held[p := packet], m.out, m.queue.base))
  {
    HeldAhead(q.base, q.held);
    if p < q.base {
      Behind(q.base, p);
    } else {
      PositionIsFaithful(q.base, p);
      if p == q.base {
        var (b, h, rest) := DrainFrom(q.base + 1, q.held);
        DrainIsUnbroken(q.base + 1, q.held);
        assert ([At(q.base, packet)] + rest)[1..] == rest;
      } else if p !in q.held && |q.held| == capacity {
        FlushSendsAll(q.base, q.held[p := packet]);
      }
    }
  }

  lemma Behind(base: nat, p: nat)
    requires p < base <= p + 0x8000_0000
    ensures Sub(Wrap(p), Wrap(base)) >= HALF
  {}

  /** Every held packet leaves once, at its position and in order, and the lane goes
      on behind the last. */
  ghost predicate SendsAll(held: Held, out: seq<Slotted>, base: nat) {
    && (forall k :: 0 <= k < |out| ==> out[k].pos in held && out[k].packet == held[out[k].pos] && out[k].pos < base)
    && (forall j, k :: 0 <= j < k < |out| ==> out[j].pos < out[k].pos)
    && |out| == |held| && (out != [] ==> base == out[|out| - 1].pos + 1)
  }

  lemma {:induction false} FlushSendsAll(base: nat, held: Held)
    requires forall x :: x in held ==> base <= x
    ensures var (b, out) := FlushFrom(base, held);
            SendsAll(held, out, b) && (out != [] ==> base <= out[0].pos) && base <= b
    decreases |held|
  {
    if held != map[] {
      var m := Least(held.Keys);
      RemoveShrinks(held, m);
      FlushSendsAll(m + 1, held - {m});
      var (b, rest) := FlushFrom(m + 1, held - {m});
      var out := [At(m, held[m])] + rest;
      forall k | 0 <= k < |out| ensures out[k].pos in held && out[k].packet == held[out[k].pos] && out[k].pos < b {
        if k > 0 { assert out[k] == rest[k - 1]; }
      }
      forall j, k | 0 <= j < k < |out| ensures out[j].pos < out[k].pos {
        assert out[k] == rest[k - 1];
        if j == 0 { assert k > 1 ==> rest[0].pos < rest[k - 1].pos; } else { assert out[j] == rest[j - 1]; }
      }
    }
  }

  /** The timer sends out everything exactly when the lane has waited maxDelay. */
  lemma TickByTime(q: Queue, maxDelay: int, now: int)
    requires AllFit(q.base, q.held)
    ensures var m := TickQueue(q, maxDelay, now);
            if q.gap.Some? && q.gap.value + maxDelay <= now
            then SendsAll(q.held, m.out, m.queue.base) && m.queue.held == map[] && m.queue.gap == None
            else m.queue == q && m.out == []
  {
    HeldAhead(q.base, q.held);
    FlushSendsAll(q.base, q.held);
  }
}
