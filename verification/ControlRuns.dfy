/** Whole runs of the CONTROL scheduler
    (internal/wgadapter/shimtun/control_scheduler.go): rate and fairness. */
module ControlRuns {
  import opened Wire
  import opened Basics
  import opened Ring
  import opened ControlSpec
  import opened ControlRate

  /** The scheduler as a value. */
  datatype Sched = Sched(capacity: nat, queue: seq<Descriptor>, order: seq<PeerID>, rr: nat, rates: Rates,
      global: Bucket)

  predicate TurnOk(s: Sched) {
    if s.order == [] then s.rr == 0 else s.rr < |s.order|
  }

  datatype Op =
    | Choose(now: int)
    | Pop(k: nat)
    | Enqueue(d: Descriptor)
    | RemovePeer(peer: PeerID)
    | UpdatePeers(peers: seq<PeerID>)
    | Refund(peer: PeerID)

  function RefillGlobal(s: Sched, now: int): Bucket { Refill(s.global, now, GLOBAL_RATE, GLOBAL_BURST) }

  /** The peers are looked at only while a message waits and the interface has a token. */
  predicate Looks(s: Sched, now: int) { s.queue != [] && Available(RefillGlobal(s, now)) && s.order != [] }

  /** The rank that choose picks, if any. */
  function Picks(s: Sched, now: int): Option<nat>
    requires TurnOk(s)
  {
    if Looks(s, now) then Search(s.queue, s.order, s.rr, 0, s.rates, now).rank else None
  }

  function ChooseStep(s: Sched, now: int): Sched
    requires TurnOk(s)
  {
    if s.queue == [] then s
    else if !Looks(s, now) then s.(global := RefillGlobal(s, now))
    else
      var c, g := Search(s.queue, s.order, s.rr, 0, s.rates, now), RefillGlobal(s, now);
      if c.rank.None? then s.(rates := c.rates, global := g)
      else s.(rates := c.rates, global := g.(tokens := g.tokens - 1.0), rr := NextRank(c.rank.value, |s.order|))
  }

  function NextRank(rank: nat, n: nat): nat { if rank + 1 < n then rank + 1 else 0 }

  function RefundStep(s: Sched, peer: PeerID): Sched {
    s.(rates := if peer in s.rates then s.rates[peer := ControlRate.Refund(s.rates[peer], PEER_BURST)] else s.rates,
       global := ControlRate.Refund(s.global, GLOBAL_BURST))
  }

  function UpdateStep(s: Sched, peers: seq<PeerID>): Sched {
    Sched(s.capacity, Filter(s.queue, AmongPeers(peers)), peers,
          if peers == [] then 0 else if s.rr >= |peers| then s.rr % |peers| else s.rr,
          map p | p in peers :: BucketOf(s.rates, p), s.global)
  }

  function Apply(s: Sched, op: Op): (t: Sched)
    requires TurnOk(s)
    ensures TurnOk(t)
  {
    match op
    case Choose(now) => ChooseStep(s, now)
    case Pop(k) => if k < |s.queue| then s.(queue := Without(s.queue, k)) else s
    case Enqueue(d) => s.(queue := ControlSpec.Enqueue(s.queue, s.capacity, AdmissionLimit(s.capacity, |s.order|),
        d).queue)
    case RemovePeer(peer) => s.(queue := Filter(s.queue, NotPeer(peer)))
    case UpdatePeers(peers) => UpdateStep(s, peers)
    case Refund(peer) => RefundStep(s, peer)
  }

  function Run(s: Sched, ops: seq<Op>): (t: Sched)
    requires TurnOk(s)
    ensures TurnOk(t)
    decreases |ops|
  {
    if ops == [] then s else Run(Apply(s, ops[0]), ops[1..])
  }

  // ----- rate

  /** The operation takes a token of the interface, or gives one back. */
  function Spends(s: Sched, op: Op): int
    requires TurnOk(s)
  {
    if op.Choose? && Picks(s, op.now).Some? then 1 else if op.Refund? then -1 else 0
  }

  /** The same for one peer. */
  function SpendsFor(s: Sched, op: Op, peer: PeerID): int
    requires TurnOk(s)
  {
    if op.Choose? && Picks(s, op.now).Some? && PickedPeer(s, op.now) == peer then 1
    else if op == Refund(peer) then -1 else 0
  }

  function PickedPeer(s: Sched, now: int): PeerID
    requires TurnOk(s) && Picks(s, now).Some?
  {
    assert Picks(s, now).value < |s.order| by { SearchInRange(s.queue, s.order, s.rr, 0, s.rates, now); }
    s.order[Picks(s, now).value]
  }

  lemma {:induction false} SearchInRange(q: seq<Descriptor>, order: seq<PeerID>, rr: nat, step: nat, rates: Rates,
                                now: int)
    requires rr < |order| && step <= |order|
    ensures var r := Search(q, order, rr, step, rates, now).rank; r.Some? ==> r.value < |order|
    decreases |order| - step
  {
    if step < |order| {
      var peer := order[Slot(rr, step, |order|)];
      SearchInRange(q, order, rr, step + 1, rates[peer := RefillPeer(rates, peer, now)], now);
    }
  }

  /** Successful choices less refunds over a run. */
  function Net(s: Sched, ops: seq<Op>): int
    requires TurnOk(s)
    decreases |ops|
  {
    if ops == [] then 0 else Spends(s, ops[0]) + Net(Apply(s, ops[0]), ops[1..])
  }

  function NetFor(s: Sched, ops: seq<Op>, peer: PeerID): int
    requires TurnOk(s)
    decreases |ops|
  {
    if ops == [] then 0 else SpendsFor(s, ops[0], peer) + NetFor(Apply(s, ops[0]), ops[1..], peer)
  }

  /** Every choice of the run is made between start and end. */
  predicate During(ops: seq<Op>, start: int, end: int) {
    forall i :: 0 <= i < |ops| && ops[i].Choose? ==> start <= ops[i].now <= end
  }

  predicate NotAfter(b: Bucket, t: int) { b.last.Some? ==> b.last.value <= t }

  lemma GlobalStep(s: Sched, op: Op, net: int, start: int, end: int)
    requires TurnOk(s) && Allows(s.global, net, start, GLOBAL_RATE, GLOBAL_BURST) && NotAfter(s.global, end)
    requires op.Choose? ==> start <= op.now <= end
    ensures var t := Apply(s, op);
            Allows(t.global, net + Spends(s, op), start, GLOBAL_RATE, GLOBAL_BURST) && NotAfter(t.global, end)
  {
    match op
    case Choose(now) =>
      RefillAllows(s.global, net, start, now, GLOBAL_RATE, GLOBAL_BURST);
      if Looks(s, now) { TakeAllows(RefillGlobal(s, now), net, start, GLOBAL_RATE, GLOBAL_BURST); }
    case Refund(_) => RefundAllows(s.global, net, start, GLOBAL_RATE, GLOBAL_BURST);
    case _ =>
  }

  lemma {:induction false} GlobalRun(s: Sched, ops: seq<Op>, net: int, start: int, end: int)
    requires TurnOk(s) && Allows(s.global, net, start, GLOBAL_RATE, GLOBAL_BURST) && NotAfter(s.global, end) &&
             During(ops, start, end)
    ensures var t := Run(s, ops);
            Allows(t.global, net + Net(s, ops), start, GLOBAL_RATE, GLOBAL_BURST) && NotAfter(t.global, end)
    decreases |ops|
  {
    if ops != [] {
      GlobalStep(s, ops[0], net, start, end);
      GlobalRun(Apply(s, ops[0]), ops[1..], net + Spends(s, ops[0]), start, end);
    }
  }

  /** A bucket as the scheduler leaves it by a time: within its burst, refilled no later. */
  predicate Filled(b: Bucket, burst: real, t: int) { 0.0 <= b.tokens <= burst && NotAfter(b, t) }

  /** In every run, whatever is queued, removed or reconfigured meanwhile, the
      choices made between two times, less refunds, are at most the interface's
      burst plus its rate times the time between. */
  lemma GlobalRateIsBounded(s: Sched, ops: seq<Op>, start: int, end: int)
    requires TurnOk(s) && Filled(s.global, GLOBAL_BURST, start) && start <= end && During(ops, start, end)
    ensures Net(s, ops) as real <= GLOBAL_BURST + Seconds(end - start) * GLOBAL_RATE
  {
    assert Seconds(0) * GLOBAL_RATE == 0.0;
    GlobalRun(s, ops, 0, start, end);
    AllowanceBounds(Run(s, ops).global, Net(s, ops), start, end, GLOBAL_RATE, GLOBAL_BURST);
  }

  // ----- rate of one peer

  /** What a search does to one peer's bucket. */
  lemma {:induction false} SearchBucket(q: seq<Descriptor>, order: seq<PeerID>, rr: nat, step: nat, rates: Rates,
                                now: int, peer: PeerID)
    requires rr < |order| && step <= |order|
    ensures var c, b, r := Search(q, order, rr, step, rates, now), BucketOf(rates, peer), RefillPeer(rates, peer, now);
            && (c.rank.Some? ==> c.rank.value < |order|)
            && (c.rank.Some? && order[c.rank.value] == peer ==>
                 Available(r) && BucketOf(c.rates, peer) == r.(tokens := r.tokens - 1.0))
            && (c.rank.None? || order[c.rank.value] != peer ==>
                 BucketOf(c.rates, peer) == b || BucketOf(c.rates, peer) == r)
    decreases |order| - step
  {
    if step < |order| {
      var p := order[Slot(rr, step, |order|)];
      RefillAgain(BucketOf(rates, p), now, PEER_RATE, PEER_BURST);
      SearchBucket(q, order, rr, step + 1, rates[p := RefillPeer(rates, p, now)], now, peer);
    }
  }

  /** The operation leaves the peer configured. */
  predicate Keeps(op: Op, peer: PeerID) { op.UpdatePeers? ==> peer in op.peers }

  lemma PeerStep(s: Sched, op: Op, peer: PeerID, net: int, start: int, end: int)
    requires TurnOk(s) && Allows(BucketOf(s.rates, peer), net, start, PEER_RATE, PEER_BURST) &&
             NotAfter(BucketOf(s.rates, peer), end)
    requires (op.Choose? ==> start <= op.now <= end) && Keeps(op, peer)
    ensures var b := BucketOf(Apply(s, op).rates, peer);
            Allows(b, net + SpendsFor(s, op, peer), start, PEER_RATE, PEER_BURST) && NotAfter(b, end)
  {
    var b := BucketOf(s.rates, peer);
    match op
    case Choose(now) =>
      RefillAllows(b, net, start, now, PEER_RATE, PEER_BURST);
      if Looks(s, now) {
        SearchBucket(s.queue, s.order, s.rr, 0, s.rates, now, peer);
        if Picks(s, now).Some? && PickedPeer(s, now) == peer {
          TakeAllows(RefillPeer(s.rates, peer, now), net, start, PEER_RATE, PEER_BURST);
        }
      }
    case Refund(_) => RefundAllows(b, net, start, PEER_RATE, PEER_BURST);
    case _ =>
  }

  lemma {:induction false} PeerRun(s: Sched, ops: seq<Op>, peer: PeerID, net: int, start: int, end: int)
    requires TurnOk(s) && Allows(BucketOf(s.rates, peer), net, start, PEER_RATE, PEER_BURST) &&
             NotAfter(BucketOf(s.rates, peer), end)
    requires During(ops, start, end) && forall i :: 0 <= i < |ops| ==> Keeps(ops[i], peer)
    ensures var b := BucketOf(Run(s, ops).rates, peer);
            Allows(b, net + NetFor(s, ops, peer), start, PEER_RATE, PEER_BURST) && NotAfter(b, end)
    decreases |ops|
  {
    if ops != [] {
      PeerStep(s, ops[0], peer, net, start, end);
      PeerRun(Apply(s, ops[0]), ops[1..], peer, net + SpendsFor(s, ops[0], peer), start, end);
    }
  }

  /** In every run that keeps the peer configured, its choices made between two
      times, less its refunds, are at most its burst plus its rate times the time
      between. */
  lemma PeerRateIsBounded(s: Sched, ops: seq<Op>, peer: PeerID, start: int, end: int)
    requires TurnOk(s) && Filled(BucketOf(s.rates, peer), PEER_BURST, start) && start <= end && During(ops, start, end)
    requires forall i :: 0 <= i < |ops| ==> Keeps(ops[i], peer)
    ensures NetFor(s, ops, peer) as real <= PEER_BURST + Seconds(end - start) * PEER_RATE
  {
    assert Seconds(0) * PEER_RATE == 0.0;
    PeerRun(s, ops, peer, 0, start, end);
    AllowanceBounds(BucketOf(Run(s, ops).rates, peer), NetFor(s, ops, peer), start, end, PEER_RATE, PEER_BURST);
  }

  // ----- every reachable scheduler

  function NewSched(capacity: nat, order: seq<PeerID>): Sched {
    Sched(capacity, [], order, 0, map p | p in order :: Bucket(PEER_BURST, None), Bucket(GLOBAL_BURST, None))
  }

  /** All buckets are as the scheduler leaves them by time t. */
  ghost predicate AllFilled(s: Sched, t: int) {
    Filled(s.global, GLOBAL_BURST, t) && forall p {:trigger BucketOf(s.rates, p)} ::
        Filled(BucketOf(s.rates, p), PEER_BURST, t)
  }

  lemma RefillFills(b: Bucket, now: int, rate: real, burst: real, t: int)
    requires Filled(b, burst, t) && rate >= 0.0 && now <= t
    ensures Filled(Refill(b, now, rate, burst), burst, t)
  {
    if b.last.Some? && b.last.value <= now { GainIsPositive(b.last.value, now, rate); }
  }

  lemma StepFills(s: Sched, op: Op, t: int)
    requires TurnOk(s) && AllFilled(s, t) && (op.Choose? ==> op.now <= t)
    ensures AllFilled(Apply(s, op), t)
  {
    var s' := Apply(s, op);
    if op.Choose? { RefillFills(s.global, op.now, GLOBAL_RATE, GLOBAL_BURST, t); }
    forall p ensures Filled(BucketOf(s'.rates, p), PEER_BURST, t) {
      assert Filled(BucketOf(s.rates, p), PEER_BURST, t);
      if op.Choose? && Looks(s, op.now) {
        SearchBucket(s.queue, s.order, s.rr, 0, s.rates, op.now, p);
        RefillFills(BucketOf(s.rates, p), op.now, PEER_RATE, PEER_BURST, t);
      }
    }
  }

  /** Whatever a new scheduler has been through by time t, the rate bounds apply from t on. */
  lemma {:induction false} EveryRunFills(s: Sched, ops: seq<Op>, t: int)
    requires TurnOk(s) && AllFilled(s, t) && forall i :: 0 <= i < |ops| && ops[i].Choose? ==> ops[i].now <= t
    ensures AllFilled(Run(s, ops), t)
    decreases |ops|
  {
    if ops != [] {
      StepFills(s, ops[0], t);
      EveryRunFills(Apply(s, ops[0]), ops[1..], t);
    }
  }

  lemma NewIsFilled(capacity: nat, order: seq<PeerID>, t: int)
    ensures TurnOk(NewSched(capacity, order)) && AllFilled(NewSched(capacity, order), t)
  {}

  // ----- removing peers

  /** Removing a peer takes exactly its messages out and leaves the order. */
  lemma RemovalIsExact(s: Sched, peer: PeerID) returns (at: seq<nat>)
    requires TurnOk(s)
    ensures Sieved(s.queue, |s.queue|, Apply(s, RemovePeer(peer)).queue, (d: Descriptor) => d.peer != peer, at)
  {
    at := FilterIsSieved(s.queue, NotPeer(peer), |s.queue|);
  }

  /** New peers take exactly the messages of the others out, leave the order, the
      tokens of who stays and, in range, the turn; who is new starts with a burst. */
  lemma UpdateIsExact(s: Sched, peers: seq<PeerID>) returns (at: seq<nat>)
    requires TurnOk(s)
    ensures var t := Apply(s, UpdatePeers(peers));
            && Sieved(s.queue, |s.queue|, t.queue, (d: Descriptor) => d.peer in peers, at)
            && t.order == peers && t.rates.Keys == (set p | p in peers)
            && (forall p :: p in peers && p in s.rates ==> t.rates[p] == s.rates[p])
            && (forall p :: p in peers && p !in s.rates ==> t.rates[p] == Bucket(8.0, None))
            && (s.rr < |peers| ==> t.rr == s.rr)
  {
    at := FilterIsSieved(s.queue, AmongPeers(peers), |s.queue|);
  }

  // ----- fairness

  predicate FixedPeers(ops: seq<Op>) { forall i :: 0 <= i < |ops| ==> !ops[i].UpdatePeers? }

  /** How many choices of the run succeed. */
  function Successes(s: Sched, ops: seq<Op>): nat
    requires TurnOk(s)
    decreases |ops|
  {
    if ops == [] then 0
    else (if ops[0].Choose? && Picks(s, ops[0].now).Some? then 1 else 0) + Successes(Apply(s, ops[0]), ops[1..])
  }

  /** The peer at rank r has a message and a token at every successful choice. */
  predicate StaysEligible(s: Sched, ops: seq<Op>, r: nat)
    requires TurnOk(s)
    decreases |ops|
  {
    ops == []
    || ((ops[0].Choose? && Picks(s, ops[0].now).Some? ==> Eligible(s.queue, s.order, s.rates, ops[0].now, r))
        && StaysEligible(Apply(s, ops[0]), ops[1..], r))
  }

  /** Some choice of the run picks rank r. */
  predicate GetsATurn(s: Sched, ops: seq<Op>, r: nat)
    requires TurnOk(s)
    decreases |ops|
  {
    ops != [] && ((ops[0].Choose? && Picks(s, ops[0].now) == Some(r)) || GetsATurn(Apply(s, ops[0]), ops[1..], r))
  }

  /** Over every run with a fixed peer set, a peer that is eligible whenever a
      choice succeeds is chosen within its distance in turn, so within as many
      successful choices as there are peers. */
  lemma {:induction false} EveryoneGetsATurn(s: Sched, ops: seq<Op>, r: nat)
    requires TurnOk(s) && FixedPeers(ops) && r < |s.order| && StaysEligible(s, ops, r)
    requires Successes(s, ops) > Dist(s.rr, r, |s.order|)
    ensures GetsATurn(s, ops, r)
    decreases |ops|
  {
    var op, n := ops[0], |s.order|;
    var t := Apply(s, op);
    assert !op.UpdatePeers? && t.order == s.order;
    if op.Choose? && Picks(s, op.now).Some? {
      var rank := Picks(s, op.now).value;
      SearchFindsFirst(s.queue, s.order, s.rr, 0, s.rates, op.now);
      assert r in EligibleSet(s.queue, s.order, s.rates, op.now);
      if rank != r {
        TurnGetsNearer(n, s.rr, rank, r);
        EveryoneGetsATurn(t, ops[1..], r);
      }
    } else {
      EveryoneGetsATurn(t, ops[1..], r);
    }
  }

  lemma WithinOneRound(s: Sched, ops: seq<Op>, r: nat)
    requires TurnOk(s) && FixedPeers(ops) && r < |s.order| && StaysEligible(s, ops, r) && Successes(s, ops) >= |s.order|
    ensures GetsATurn(s, ops, r)
  {
    EveryoneGetsATurn(s, ops, r);
  }
}
