/** Token buckets and round robin of the CONTROL scheduler
    (internal/wgadapter/shimtun/control_scheduler.go). */
module ControlRate {
  import opened Wire
  import opened Basics
  import opened ControlSpec
  import opened Ring

  // ----- token buckets

  datatype Bucket = Bucket(tokens: real, last: Option<int>)

  function Seconds(nanoseconds: int): real { nanoseconds as real / 1_000_000_000.0 }

  function Least(a: real, b: real): real { if a < b then a else b }

  function Refill(b: Bucket, now: int, rate: real, burst: real): Bucket {
    if b.last.None? then Bucket(burst, Some(now))
    else if now < b.last.value then b
    else Bucket(Least(burst, b.tokens + Seconds(now - b.last.value) * rate), Some(now))
  }

  predicate Available(b: Bucket) { b.tokens >= 1.0 }

  function Refund(b: Bucket, burst: real): Bucket { b.(tokens := Least(burst, b.tokens + 1.0)) }

  lemma ElapsedAdds(a: int, b: int, c: int, rate: real)
    ensures Seconds(b - a) * rate + Seconds(c - b) * rate == Seconds(c - a) * rate
  {
    var x, y := Seconds(b - a), Seconds(c - b);
    assert Seconds(c - a) == x + y;
    assert (x + y) * rate == x * rate + y * rate;
  }

  lemma GainIsPositive(a: int, b: int, rate: real)
    requires a <= b && rate >= 0.0
    ensures Seconds(b - a) * rate >= 0.0
  {}

  /** What the bucket still allows since start, after net sends: before its first
      refill nothing but refunds, then what a full bucket and the elapsed time give. */
  predicate Allows(b: Bucket, net: int, start: int, rate: real, burst: real) {
    && 0.0 <= b.tokens <= burst
    && (if b.last.None? || b.last.value < start then net <= 0
        else net as real + b.tokens <= burst + Seconds(b.last.value - start) * rate)
  }

  lemma RefillAllows(b: Bucket, net: int, start: int, now: int, rate: real, burst: real)
    requires Allows(b, net, start, rate, burst) && rate >= 0.0 && start <= now
    ensures var t := Refill(b, now, rate, burst);
            Allows(t, net, start, rate, burst) && t.last.Some? && start <= t.last.value
  {
    GainIsPositive(start, now, rate);
    if b.last.Some? && start <= b.last.value <= now {
      GainIsPositive(b.last.value, now, rate);
      ElapsedAdds(start, b.last.value, now, rate);
    } else if b.last.Some? && b.last.value <= now {
      GainIsPositive(b.last.value, now, rate);
    }
  }

  lemma TakeAllows(b: Bucket, net: int, start: int, rate: real, burst: real)
    requires Allows(b, net, start, rate, burst) && b.last.Some? && start <= b.last.value && Available(b)
    ensures Allows(b.(tokens := b.tokens - 1.0), net + 1, start, rate, burst)
  {}

  lemma RefundAllows(b: Bucket, net: int, start: int, rate: real, burst: real)
    requires Allows(b, net, start, rate, burst)
    ensures Allows(Refund(b, burst), net - 1, start, rate, burst)
  {}

  /** What an allowance means at a time end not before the last refill. */
  lemma AllowanceBounds(b: Bucket, net: int, start: int, end: int, rate: real, burst: real)
    requires Allows(b, net, start, rate, burst) && rate >= 0.0 && start <= end && (b.last.Some? ==> b.last.value <= end)
    ensures net as real <= burst + Seconds(end - start) * rate
  {
    GainIsPositive(start, end, rate);
    if b.last.Some? && start <= b.last.value {
      GainIsPositive(b.last.value, end, rate);
      ElapsedAdds(start, b.last.value, end, rate);
    }
  }

  /** A bucket has a token after a refill exactly if it was never refilled, or what
      it has and what came in since the last refill make one; it holds its burst
      after the time that fills it. */
  lemma TokenExactly(b: Bucket, now: int, rate: real, burst: real)
    requires 0.0 <= b.tokens <= burst && 1.0 <= burst && 0.0 < rate && (b.last.Some? ==> b.last.value <= now)
    ensures var t := Refill(b, now, rate, burst);
            && 0.0 <= t.tokens <= burst && t.last == Some(now)
            && (Available(t) <==>
                  b.last.None? || 1.0 <= b.tokens + (now - b.last.value) as real * rate / 1_000_000_000.0)
            && (t.tokens == burst <==>
                  b.last.None? || burst <= b.tokens + (now - b.last.value) as real * rate / 1_000_000_000.0)
  {
    if b.last.Some? {
      var x := (now - b.last.value) as real;
      assert x / 1_000_000_000.0 * rate == x * rate / 1_000_000_000.0;
      GainIsPositive(b.last.value, now, rate);
    }
  }

  /** A refund gives back exactly what a send took. */
  lemma RefundUndoesTake(b: Bucket, burst: real)
    requires Available(b) && b.tokens <= burst
    ensures Refund(b.(tokens := b.tokens - 1.0), burst) == b
  {}

  // ----- round robin

  /** rank is the first eligible one from start on. */
  ghost predicate IsFirstEligible(n: nat, start: nat, eligible: set<nat>, rank: nat) {
    start < n && rank < n && rank in eligible && forall r ::
        r in eligible && r < n ==> Dist(start, rank, n) <= Dist(start, r, n)
  }

  /** One pick of another rank brings a waiting rank nearer to its turn. */
  lemma TurnGetsNearer(n: nat, start: nat, rank: nat, r: nat)
    requires start < n && rank < n && r < n && r != rank && Dist(start, rank, n) <= Dist(start, r, n)
    ensures Dist(Slot(rank, 1, n), r, n) < Dist(start, r, n)
  {}

  // ----- choosing a peer

  type Rates = map<PeerID, Bucket>

  function BucketOf(rates: Rates, peer: PeerID): Bucket {
    if peer in rates then rates[peer] else Bucket(PEER_BURST, None)
  }

  function RefillPeer(rates: Rates, peer: PeerID, now: int): Bucket {
    Refill(BucketOf(rates, peer), now, PEER_RATE, PEER_BURST)
  }

  /** The peer at rank has a token and a message waiting. */
  predicate Eligible(q: seq<Descriptor>, order: seq<PeerID>, rates: Rates, now: int, rank: nat) {
    rank < |order| && Available(RefillPeer(rates, order[rank], now)) && First(q, OfPeer(order[rank])) >= 0
  }

  function EligibleSet(q: seq<Descriptor>, order: seq<PeerID>, rates: Rates, now: int): set<nat> {
    set rank | 0 <= rank < |order| && Eligible(q, order, rates, now, rank)
  }

  datatype Choice = Choice(rates: Rates, rank: Option<nat>)

  /** Visits the ranks from step on, refilling each peer's bucket, until one is eligible. */
  function Search(q: seq<Descriptor>, order: seq<PeerID>, rr: nat, step: nat, rates: Rates, now: int): Choice
    requires rr < |order| && step <= |order|
    decreases |order| - step
  {
    if step == |order| then Choice(rates, None)
    else
      var rank := Slot(rr, step, |order|);
      var peer := order[rank];
      var b := RefillPeer(rates, peer, now);
      if Available(b) && First(q, OfPeer(peer)) >= 0
      then Choice(rates[peer := b.(tokens := b.tokens - 1.0)], Some(rank))
      else Search(q, order, rr, step + 1, rates[peer := b], now)
  }

  lemma RefillAgain(b: Bucket, now: int, rate: real, burst: real)
    ensures Refill(Refill(b, now, rate, burst), now, rate, burst) == Refill(b, now, rate, burst)
  {
    assert Seconds(0) * rate == 0.0;
  }

  lemma RefillingKeepsEligible(q: seq<Descriptor>, order: seq<PeerID>, rates: Rates, now: int, peer: PeerID)
    ensures EligibleSet(q, order, rates[peer := RefillPeer(rates, peer, now)], now) == EligibleSet(q, order, rates, now)
  {
    RefillAgain(BucketOf(rates, peer), now, PEER_RATE, PEER_BURST);
  }

  lemma DistOfSlot(rr: nat, step: nat, n: nat, r: nat)
    requires rr < n && step < n && r < n
    ensures Dist(rr, Slot(rr, step, n), n) == step && (Dist(rr, r, n) == step <==> r == Slot(rr, step, n))
  {}

  /** The search finds the first eligible peer in round-robin order, if there is one. */
  lemma {:induction false} SearchFindsFirst(q: seq<Descriptor>, order: seq<PeerID>, rr: nat, step: nat, rates: Rates,
                                now: int)
    requires rr < |order| && step <= |order|
    requires forall r :: r in EligibleSet(q, order, rates, now) ==> step <= Dist(rr, r, |order|)
    ensures var c := Search(q, order, rr, step, rates, now);
            && (c.rank.Some? ==> IsFirstEligible(|order|, rr, EligibleSet(q, order, rates, now), c.rank.value))
            && (c.rank.None? ==> EligibleSet(q, order, rates, now) == {})
    decreases |order| - step
  {
    var n := |order|;
    if step < n {
      var rank := Slot(rr, step, n);
      DistOfSlot(rr, step, n, rank);
      if Eligible(q, order, rates, now, rank) {
        assert rank in EligibleSet(q, order, rates, now);
      } else {
        var rates' := rates[order[rank] := RefillPeer(rates, order[rank], now)];
        RefillingKeepsEligible(q, order, rates, now, order[rank]);
        forall r | r in EligibleSet(q, order, rates', now)
          ensures step + 1 <= Dist(rr, r, n)
        {
          DistOfSlot(rr, step, n, r);
        }
        SearchFindsFirst(q, order, rr, step + 1, rates', now);
      }
    }
  }
}
