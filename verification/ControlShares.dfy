/** Shares of the CONTROL queue
    (internal/wgadapter/shimtun/control_scheduler.go): who gets a message in. */
module ControlShares {
  import opened Wire
  import opened Ring
  import opened ControlSpec
  import ControlRuns

  /** The places of a peer's descriptors in the queue. */
  function Places(q: seq<Descriptor>, peer: PeerID, n: nat): set<nat>
    requires n <= |q|
  {
    set i: nat | i < n && q[i].peer == peer
  }

  ghost predicate HasProbe(q: seq<Descriptor>, peer: PeerID) {
    exists i :: 0 <= i < |q| && q[i].peer == peer && q[i].kind == Probe
  }

  ghost predicate AnyProbes(q: seq<Descriptor>) {
    exists i :: 0 <= i < |q| && q[i].kind == Probe
  }

  /** The queue already holds this critical message. */
  ghost predicate Holds(q: seq<Descriptor>, d: Descriptor) {
    exists i :: 0 <= i < |q| && q[i].kind != Probe && IdentityOf(q[i]) == IdentityOf(d)
  }

  lemma {:induction false} CountIsPlaces(q: seq<Descriptor>, peer: PeerID, n: nat)
    requires n <= |q|
    ensures CountPeerUpTo(q, peer, n) == |Places(q, peer, n)|
  {
    if n > 0 {
      CountIsPlaces(q, peer, n - 1);
      assert Places(q, peer, n) == Places(q, peer, n - 1) + if q[n - 1].peer == peer then {n - 1} else {};
    }
  }

  // ----- the share

  /** The share is the largest number of places that every peer can have at once,
      and one place where there are more peers than places. */
  lemma ShareIsLargest(capacity: nat, peers: nat)
    requires peers >= 1
    ensures var share := AdmissionLimit(capacity, peers);
            && share >= 1
            && (peers <= capacity ==> share * peers <= capacity < (share + 1) * peers)
            && (peers > capacity ==> share == 1)
  {
    var k := capacity / peers;
    assert k * peers <= capacity < (k + 1) * peers;
    if k < 1 { assert (k + 1) * peers == peers; }
    Nearer(k, if peers > capacity then 0 else k, peers, capacity);
  }

  lemma ShareIsUnique(capacity: nat, peers: nat, share: nat)
    requires 1 <= peers <= capacity && share * peers <= capacity < (share + 1) * peers
    ensures AdmissionLimit(capacity, peers) == share >= 1
  {
    var k := AdmissionLimit(capacity, peers);
    ShareIsLargest(capacity, peers);
    Nearer(k, share, peers, capacity);
    Nearer(share, k, peers, capacity);
  }

  lemma Scale(a: nat, b: nat, k: nat)
    requires a <= b
    ensures a * k <= b * k
  {}

  lemma Nearer(a: nat, b: nat, peers: nat, capacity: nat)
    requires a * peers <= capacity < (b + 1) * peers
    ensures a <= b
  {
    if a > b { Scale(b + 1, a, peers); }
  }

  // ----- what becomes of a critical message

  /** The k-th descriptor is the oldest probe, or the peer's oldest. */
  ghost predicate OldestProbe(q: seq<Descriptor>, k: int, peer: PeerID, own: bool) {
    && 0 <= k < |q| && q[k].kind == Probe && (own ==> q[k].peer == peer)
    && forall i :: 0 <= i < k && q[i].kind == Probe ==> own && q[i].peer != peer
  }

  /** The message goes to the end and the oldest probe, or the peer's oldest, is gone. */
  ghost predicate TakesPlace(q: seq<Descriptor>, d: Descriptor, own: bool, after: seq<Descriptor>) {
    exists k :: OldestProbe(q, k, d.peer, own) && after == Without(q, k) + [d]
  }

  lemma FirstOwn(q: seq<Descriptor>, peer: PeerID)
    ensures var k := First(q, ProbeOf(peer)); if HasProbe(q, peer) then OldestProbe(q, k, peer, true) else k < 0
  {
    var k, p := First(q, ProbeOf(peer)), ProbeOf(peer);
    forall i | 0 <= i < (if k < 0 then |q| else k) ensures q[i].kind != Probe || q[i].peer != peer { assert !p(q[i]); }
    if k >= 0 { assert p(q[k]); }
  }

  lemma FirstAny(q: seq<Descriptor>, peer: PeerID)
    ensures var k := First(q, AnyProbe()); if AnyProbes(q) then OldestProbe(q, k, peer, false) else k < 0
  {
    var k, p := First(q, AnyProbe()), AnyProbe();
    forall i | 0 <= i < (if k < 0 then |q| else k) ensures q[i].kind != Probe { assert !p(q[i]); }
    if k >= 0 { assert p(q[k]); }
  }

  lemma NewIsAdmitted(q: seq<Descriptor>, capacity: nat, limit: nat, d: Descriptor)
    requires d.kind != Probe && !Holds(q, d)
    ensures Enqueue(q, capacity, limit, d) == Admit(MakeRoom(MakePeerRoom(q, limit, d), capacity, d), d)
  {
    FirstSame(q, d);
  }

  lemma FirstSame(q: seq<Descriptor>, d: Descriptor)
    ensures First(q, SameAs(d)) >= 0 ==> Holds(q, d)
  {
    var same, p := First(q, SameAs(d)), SameAs(d);
    if same >= 0 { assert p(q[same]) && IdentityOf(q[same]) == IdentityOf(d); }
  }

  /** A peer that has its share gets a new critical message in exactly if it has
      a probe to give up for it, the oldest of its own. */
  lemma CriticalAtShare(q: seq<Descriptor>, capacity: nat, limit: nat, d: Descriptor)
    requires |q| <= capacity && d.kind != Probe && !Holds(q, d) && |Places(q, d.peer, |q|)| >= limit
    ensures var a := Enqueue(q, capacity, limit, d);
            && (a.dropped <==> !HasProbe(q, d.peer)) && !a.coalesced && a.evicted == !a.dropped
            && if a.dropped then a.queue == q else TakesPlace(q, d, true, a.queue)
  {
    CountIsPlaces(q, d.peer, |q|);
    NewIsAdmitted(q, capacity, limit, d);
    FirstOwn(q, d.peer);
  }

  /** A peer below its share gets a new critical message in exactly if the queue
      has a place or a probe; the oldest probe of all gives way. */
  lemma CriticalBelowShare(q: seq<Descriptor>, capacity: nat, limit: nat, d: Descriptor)
    requires |q| <= capacity && d.kind != Probe && !Holds(q, d) && |Places(q, d.peer, |q|)| < limit
    ensures var a := Enqueue(q, capacity, limit, d);
            && (a.dropped <==> |q| == capacity && !AnyProbes(q)) && !a.coalesced
            && (a.evicted <==> |q| == capacity && AnyProbes(q))
            && if a.dropped then a.queue == q else if a.evicted then TakesPlace(q, d, false, a.queue)
               else a.queue == q + [d]
  {
    CountIsPlaces(q, d.peer, |q|);
    NewIsAdmitted(q, capacity, limit, d);
    FirstAny(q, d.peer);
  }

  /** A critical message that waits already is replaced where it stands. */
  lemma CriticalReplaced(q: seq<Descriptor>, capacity: nat, limit: nat, d: Descriptor)
    requires d.kind != Probe && Holds(q, d)
    ensures var a := Enqueue(q, capacity, limit, d);
            && a.coalesced && !a.dropped && !a.evicted && |a.queue| == |q|
            && exists k :: 0 <= k < |q| && IdentityOf(q[k]) == IdentityOf(d) && a.queue == q[k := d]
  {
    var i :| 0 <= i < |q| && q[i].kind != Probe && IdentityOf(q[i]) == IdentityOf(d);
    assert SameAs(d)(q[i]);
    var same := First(q, SameAs(d));
    assert same >= 0 && IdentityOf(q[same]) == IdentityOf(d);
  }

  /** A probe is admitted exactly if fewer than eight wait and the queue has a
      free place; it takes no other descriptor's. */
  lemma ProbeExactly(q: seq<Descriptor>, capacity: nat, limit: nat, d: Descriptor)
    requires |q| <= capacity && d.kind == Probe
    ensures var a := Enqueue(q, capacity, limit, d);
            && (a.dropped <==> |ProbePlaces(q, |q|)| >= 8 || |q| == capacity)
            && a.queue == (if a.dropped then q else q + [d]) && !a.evicted && !a.coalesced
  {
    ProbesArePlaces(q, |q|);
  }

  function ProbePlaces(q: seq<Descriptor>, n: nat): set<nat>
    requires n <= |q|
  {
    set i: nat | i < n && q[i].kind == Probe
  }

  lemma {:induction false} ProbesArePlaces(q: seq<Descriptor>, n: nat)
    requires n <= |q|
    ensures CountUpTo(q, n) == |ProbePlaces(q, n)|
  {
    if n > 0 {
      ProbesArePlaces(q, n - 1);
      assert ProbePlaces(q, n) == ProbePlaces(q, n - 1) + if q[n - 1].kind == Probe then {n - 1} else {};
    }
  }

  // ----- shares among the peers

  function HeldUpTo(ids: seq<Identity>, peer: PeerID, n: nat): nat
    requires n <= |ids|
  {
    if n == 0 then 0 else HeldUpTo(ids, peer, n - 1) + if ids[n - 1].peer == peer then 1 else 0
  }

  /** How many of these critical messages are the peer's. */
  function Held(ids: seq<Identity>, peer: PeerID): nat { HeldUpTo(ids, peer, |ids|) }

  lemma {:induction false} HeldSame(a: seq<Identity>, b: seq<Identity>, peer: PeerID, n: nat)
    requires n <= |a| && n <= |b| && forall i :: 0 <= i < n ==> a[i] == b[i]
    ensures HeldUpTo(a, peer, n) == HeldUpTo(b, peer, n)
  {
    if n > 0 { HeldSame(a, b, peer, n - 1); }
  }

  lemma HeldPush(ids: seq<Identity>, id: Identity, peer: PeerID)
    ensures Held(ids + [id], peer) == Held(ids, peer) + if id.peer == peer then 1 else 0
  {
    HeldSame(ids + [id], ids, peer, |ids|);
  }

  /** All messages held by the peers at the first n ranks. */
  function Total(ids: seq<Identity>, order: seq<PeerID>, n: nat): nat
    requires n <= |order|
  {
    if n == 0 then 0 else Total(ids, order, n - 1) + Held(ids, order[n - 1])
  }

  lemma {:induction false} TotalPush(ids: seq<Identity>, id: Identity, order: seq<PeerID>, n: nat)
    requires n <= |order|
    ensures Total(ids + [id], order, n) >= Total(ids, order, n) + if id.peer in order[..n] then 1 else 0
  {
    if n > 0 {
      TotalPush(ids, id, order, n - 1);
      HeldPush(ids, id, order[n - 1]);
      assert order[..n] == order[..n - 1] + [order[n - 1]];
    }
  }

  ghost predicate AllKnown(ids: seq<Identity>, order: seq<PeerID>) {
    forall i :: 0 <= i < |ids| ==> ids[i].peer in order
  }

  lemma {:induction false} TotalHasAll(ids: seq<Identity>, order: seq<PeerID>)
    requires AllKnown(ids, order)
    ensures |ids| <= Total(ids, order, |order|)
    decreases |ids|
  {
    if ids != [] {
      var rest, id := ids[..|ids| - 1], ids[|ids| - 1];
      TotalHasAll(rest, order);
      TotalPush(rest, id, order, |order|);
      assert rest + [id] == ids && order[..|order|] == order;
    }
  }

  /** No peer holds more than its share. */
  ghost predicate WithinShares(ids: seq<Identity>, order: seq<PeerID>, share: nat) {
    forall i :: 0 <= i < |order| ==> Held(ids, order[i]) <= share
  }

  lemma {:induction false} TotalIsBounded(ids: seq<Identity>, order: seq<PeerID>, share: nat, n: nat, r: nat)
    requires WithinShares(ids, order, share) && n <= |order| && r < |order| && Held(ids, order[r]) < share
    ensures Total(ids, order, n) + (if r < n then 1 else 0) <= n * share
  {
    if n > 0 {
      TotalIsBounded(ids, order, share, n - 1, r);
      assert n * share == (n - 1) * share + share;
    }
  }

  lemma {:induction false} NoProbesAllCritical(q: seq<Descriptor>, n: nat)
    requires n <= |q| && !AnyProbes(q)
    ensures |CriticalsUpTo(q, n)| == n
  {
    if n > 0 { NoProbesAllCritical(q, n - 1); }
  }

  /** How many of the first n descriptors are critical messages of the peer. */
  function Mine(q: seq<Descriptor>, peer: PeerID, n: nat): nat
    requires n <= |q|
  {
    if n == 0 then 0 else Mine(q, peer, n - 1) + if q[n - 1].kind != Probe && q[n - 1].peer == peer then 1 else 0
  }

  lemma {:induction false} HeldIsMine(q: seq<Descriptor>, peer: PeerID, n: nat)
    requires n <= |q|
    ensures Held(CriticalsUpTo(q, n), peer) == Mine(q, peer, n)
  {
    if n > 0 {
      var ids, d := CriticalsUpTo(q, n - 1), q[n - 1];
      HeldIsMine(q, peer, n - 1);
      HeldPush(ids, IdentityOf(d), peer);
      assert ids + [] == ids;
    }
  }

  lemma {:induction false} MineIsCounted(q: seq<Descriptor>, peer: PeerID, n: nat)
    requires n <= |q|
    ensures Mine(q, peer, n) <= CountPeerUpTo(q, peer, n)
    ensures !HasProbe(q, peer) ==> Mine(q, peer, n) == CountPeerUpTo(q, peer, n)
  {
    if n > 0 { MineIsCounted(q, peer, n - 1); }
  }

  lemma HeldIsCounted(q: seq<Descriptor>, peer: PeerID)
    ensures Held(Criticals(q), peer) <= |Places(q, peer, |q|)|
    ensures !HasProbe(q, peer) ==> Held(Criticals(q), peer) == |Places(q, peer, |q|)|
  {
    CountIsPlaces(q, peer, |q|);
    HeldIsMine(q, peer, |q|);
    MineIsCounted(q, peer, |q|);
  }

  /** While no peer holds more critical messages than its share, one that holds
      fewer gets its message in, however full the queue and whatever probes wait. */
  lemma BelowShareGetsIn(q: seq<Descriptor>, capacity: nat, order: seq<PeerID>, share: nat, d: Descriptor)
    requires |q| <= capacity && 1 <= |order| <= capacity
    requires share * |order| <= capacity < (share + 1) * |order|
    requires AllKnown(Criticals(q), order) && WithinShares(Criticals(q), order, share)
    requires d.kind != Probe && d.peer in order && Held(Criticals(q), d.peer) < share
    ensures var a := Enqueue(q, capacity, AdmissionLimit(capacity, |order|), d);
            !a.dropped && (a.coalesced || Last(a.queue, d))
  {
    ShareIsUnique(capacity, |order|, share);
    if Holds(q, d) {
      CriticalReplaced(q, capacity, share, d);
    } else if |Places(q, d.peer, |q|)| >= share {
      CriticalAtShare(q, capacity, share, d);
      HeldIsCounted(q, d.peer);
    } else {
      CriticalBelowShare(q, capacity, share, d);
      if !AnyProbes(q) { SharesLeaveRoom(q, capacity, order, share, d.peer); }
    }
  }

  lemma SharesLeaveRoom(q: seq<Descriptor>, capacity: nat, order: seq<PeerID>, share: nat, peer: PeerID)
    requires share * |order| <= capacity && !AnyProbes(q)
    requires AllKnown(Criticals(q), order) && WithinShares(Criticals(q), order, share)
    requires peer in order && Held(Criticals(q), peer) < share
    ensures |q| < capacity
  {
    NoProbesAllCritical(q, |q|);
    TotalHasAll(Criticals(q), order);
    var r :| 0 <= r < |order| && order[r] == peer;
    TotalIsBounded(Criticals(q), order, share, |order|, r);
  }

  /** Admission keeps a peer within its share exactly if the peer does not hold
      its share already with a probe beside it: that probe's place would go to one
      critical message more. */
  lemma ShareIsKept(q: seq<Descriptor>, capacity: nat, share: nat, d: Descriptor)
    requires |q| <= capacity && capacity > 0 && CountExploratory(q) <= EXPLORATORY_LIMIT &&
             Held(Criticals(q), d.peer) <= share
    ensures Held(Criticals(Enqueue(q, capacity, share, d).queue), d.peer) <= share
      <==> !(d.kind != Probe && !Holds(q, d) && Held(Criticals(q), d.peer) == share && HasProbe(q, d.peer))
  {
    var a := Enqueue(q, capacity, share, d);
    EnqueueKeeps(q, capacity, share, d);
    assert Criticals(q) + [] == Criticals(q);
    HeldPush(Criticals(q), IdentityOf(d), d.peer);
    if d.kind != Probe {
      if Holds(q, d) { CriticalReplaced(q, capacity, share, d); } else { NewCriticalAndShare(q, capacity, share, d); }
    }
  }

  lemma NewCriticalAndShare(q: seq<Descriptor>, capacity: nat, share: nat, d: Descriptor)
    requires |q| <= capacity && d.kind != Probe && !Holds(q, d)
    ensures var a := Enqueue(q, capacity, share, d);
            && !a.coalesced
            && (Held(Criticals(q), d.peer) >= share ==> (a.dropped <==> !HasProbe(q, d.peer)))
  {
    HeldIsCounted(q, d.peer);
    if |Places(q, d.peer, |q|)| >= share {
      CriticalAtShare(q, capacity, share, d);
    } else {
      CriticalBelowShare(q, capacity, share, d);
    }
  }

  /** With two places and two peers, a critical message, a probe and another
      critical message of the first peer leave no place for the second. */
  lemma ProbeMakesRoomBeyondShare(one: Descriptor, probe: Descriptor, two: Descriptor, other: Descriptor,
                                  capacity: nat, share: nat)
    requires capacity == 2 && share == 1
    requires one.peer == probe.peer == two.peer != other.peer && one.messageID != two.messageID
    requires one.kind == two.kind == other.kind == Ping && probe.kind == Probe
    ensures AdmissionLimit(capacity, 2) == share
    ensures Enqueue([], capacity, share, one).queue == [one]
    ensures Enqueue([one], capacity, share, probe).queue == [one, probe]
    ensures Enqueue([one, probe], capacity, share, two).queue == [one, two]
    ensures Enqueue([one, two], capacity, share, other).dropped
  {
    ShareIsUnique(capacity, 2, share);
    FirstGoesIn([], capacity, share, one);
    ProbeExactly([one], capacity, share, probe);
    assert ProbePlaces([one], |[one]|) == {};
    OwnProbeGivesWay([one, probe], capacity, share, two);
    FullOfCriticals([one, two], capacity, share, other);
  }

  lemma FirstGoesIn(q: seq<Descriptor>, capacity: nat, share: nat, d: Descriptor)
    requires q == [] && capacity >= 1 && share >= 1 && d.kind != Probe
    ensures Enqueue(q, capacity, share, d).queue == [d]
  {
    assert Places(q, d.peer, |q|) == {};
    CriticalBelowShare(q, capacity, share, d);
  }

  lemma OwnProbeGivesWay(q: seq<Descriptor>, capacity: nat, share: nat, d: Descriptor)
    requires |q| == 2 && capacity == 2 && share == 1 && q[0].peer == q[1].peer == d.peer && d.kind != Probe
    requires q[0].kind != Probe && q[1].kind == Probe && q[0].messageID != d.messageID
    ensures Enqueue(q, capacity, share, d).queue == [q[0], d]
  {
    var after := Enqueue(q, capacity, share, d).queue;
    assert 0 in Places(q, d.peer, |q|);
    CriticalAtShare(q, capacity, share, d);
    assert TakesPlace(q, d, true, after);
    var k :| OldestProbe(q, k, d.peer, true) && after == Without(q, k) + [d];
    assert k == 1 && Without(q, k) == [q[0]];
  }

  lemma FullOfCriticals(q: seq<Descriptor>, capacity: nat, share: nat, d: Descriptor)
    requires |q| == 2 && capacity == 2 && share == 1 && q[0].peer == q[1].peer != d.peer && d.kind != Probe
    requires q[0].kind != Probe && q[1].kind != Probe
    ensures Enqueue(q, capacity, share, d).dropped
  {
    assert Places(q, d.peer, |q|) == {};
    CriticalBelowShare(q, capacity, share, d);
  }

  // ----- runs without probes

  lemma {:induction false} MineShift(q: seq<Descriptor>, w: seq<Descriptor>, k: nat, n: nat, peer: PeerID)
    requires k < n <= |q| && w == Without(q, k)
    ensures Mine(w, peer, n - 1) <= Mine(q, peer, n)
  {
    if n == k + 1 { MineSame(w, q, peer, k); } else { MineShift(q, w, k, n - 1, peer); }
  }

  lemma {:induction false} MineSame(a: seq<Descriptor>, b: seq<Descriptor>, peer: PeerID, n: nat)
    requires n <= |a| && n <= |b| && forall i :: 0 <= i < n ==> a[i] == b[i]
    ensures Mine(a, peer, n) == Mine(b, peer, n)
  {
    if n > 0 { MineSame(a, b, peer, n - 1); }
  }

  lemma {:induction false} MineFilter(q: seq<Descriptor>, keep: Descriptor -> bool, n: nat, peer: PeerID)
    requires n <= |q|
    ensures var f := FilterUpTo(q, keep, n); Mine(f, peer, |f|) <= Mine(q, peer, n)
  {
    if n > 0 {
      var f := FilterUpTo(q, keep, n - 1);
      MineFilter(q, keep, n - 1, peer);
      MineSame(f + [q[n - 1]], f, peer, |f|);
      assert f + [] == f;
    }
  }

  /** Every descriptor is a critical message of a configured peer. */
  ghost predicate Ordinary(q: seq<Descriptor>, order: seq<PeerID>) {
    forall i :: 0 <= i < |q| ==> q[i].kind != Probe && q[i].peer in order
  }

  ghost predicate Fair(s: ControlRuns.Sched) {
    && |s.queue| <= s.capacity && s.capacity > 0 && Ordinary(s.queue, s.order)
    && WithinShares(Criticals(s.queue), s.order, AdmissionLimit(s.capacity, |s.order|))
  }

  /** The peers stay, and nobody but they sends, no probes. */
  predicate Plain(op: ControlRuns.Op, order: seq<PeerID>) {
    !op.UpdatePeers? && (op.Enqueue? ==> op.d.kind != Probe && op.d.peer in order)
  }

  lemma EnqueueIsFair(s: ControlRuns.Sched, d: Descriptor)
    requires Fair(s) && d.kind != Probe && d.peer in s.order
    ensures Fair(s.(queue := Enqueue(s.queue, s.capacity, AdmissionLimit(s.capacity, |s.order|), d).queue))
  {
    var share := AdmissionLimit(s.capacity, |s.order|);
    var a := Enqueue(s.queue, s.capacity, share, d);
    NoProbesCounted(s.queue, |s.queue|);
    EnqueueKeeps(s.queue, s.capacity, share, d);
    ShareIsKept(s.queue, s.capacity, share, d);
    assert Criticals(s.queue) + [] == Criticals(s.queue);
    forall i | 0 <= i < |s.order| ensures Held(Criticals(a.queue), s.order[i]) <= share {
      HeldPush(Criticals(s.queue), IdentityOf(d), s.order[i]);
    }
    EnqueueIsOrdinary(s.queue, s.order, s.capacity, share, d);
  }

  lemma {:induction false} NoProbesCounted(q: seq<Descriptor>, n: nat)
    requires n <= |q| && forall i :: 0 <= i < |q| ==> q[i].kind != Probe
    ensures CountUpTo(q, n) == 0
  {
    if n > 0 { NoProbesCounted(q, n - 1); }
  }

  lemma EnqueueIsOrdinary(q: seq<Descriptor>, order: seq<PeerID>, capacity: nat, share: nat, d: Descriptor)
    requires Ordinary(q, order) && |q| <= capacity && d.kind != Probe && d.peer in order
    ensures Ordinary(Enqueue(q, capacity, share, d).queue, order)
  {
    if Holds(q, d) {
      CriticalReplaced(q, capacity, share, d);
    } else if |Places(q, d.peer, |q|)| >= share {
      CriticalAtShare(q, capacity, share, d);
    } else {
      CriticalBelowShare(q, capacity, share, d);
    }
  }

  lemma FewerIsFair(s: ControlRuns.Sched, q: seq<Descriptor>)
    requires Fair(s) && |q| <= |s.queue| && Ordinary(q, s.order)
    requires forall i :: 0 <= i < |s.order| ==> Mine(q, s.order[i], |q|) <= Mine(s.queue, s.order[i], |s.queue|)
    ensures Fair(s.(queue := q))
  {
    FewerWithinShares(q, s.queue, s.order, AdmissionLimit(s.capacity, |s.order|));
  }

  lemma FewerWithinShares(a: seq<Descriptor>, b: seq<Descriptor>, order: seq<PeerID>, share: nat)
    requires WithinShares(Criticals(b), order, share)
    requires forall i :: 0 <= i < |order| ==> Mine(a, order[i], |a|) <= Mine(b, order[i], |b|)
    ensures WithinShares(Criticals(a), order, share)
  {
    forall i | 0 <= i < |order| ensures Held(Criticals(a), order[i]) <= share { FewerHeld(a, b, order[i]); }
  }

  lemma FewerHeld(a: seq<Descriptor>, b: seq<Descriptor>, peer: PeerID)
    requires Mine(a, peer, |a|) <= Mine(b, peer, |b|)
    ensures Held(Criticals(a), peer) <= Held(Criticals(b), peer)
  {
    HeldIsMine(a, peer, |a|);
    HeldIsMine(b, peer, |b|);
  }

  lemma PopIsFair(s: ControlRuns.Sched, k: nat)
    requires Fair(s) && k < |s.queue|
    ensures Fair(s.(queue := Without(s.queue, k)))
  {
    var w := Without(s.queue, k);
    forall i | 0 <= i < |s.order| ensures Mine(w, s.order[i], |w|) <= Mine(s.queue, s.order[i], |s.queue|) {
      MineShift(s.queue, w, k, |s.queue|, s.order[i]);
    }
    FewerIsFair(s, w);
  }

  lemma RemoveIsFair(s: ControlRuns.Sched, keep: Descriptor -> bool)
    requires Fair(s)
    ensures Fair(s.(queue := Filter(s.queue, keep)))
  {
    var f := Filter(s.queue, keep);
    FilterCounts(s.queue, keep, |s.queue|);
    forall i | 0 <= i < |s.order| ensures Mine(f, s.order[i], |f|) <= Mine(s.queue, s.order[i], |s.queue|) {
      MineFilter(s.queue, keep, |s.queue|, s.order[i]);
    }
    forall j | 0 <= j < |f| ensures f[j].kind != Probe && f[j].peer in s.order {
      var i := FilterFrom(s.queue, keep, |s.queue|, j);
    }
    FewerIsFair(s, f);
  }

  lemma StepIsFair(s: ControlRuns.Sched, op: ControlRuns.Op)
    requires ControlRuns.TurnOk(s) && Fair(s) && Plain(op, s.order)
    ensures var t := ControlRuns.Apply(s, op); Fair(t) && t.order == s.order && t.capacity == s.capacity
  {
    match op
    case Enqueue(d) => EnqueueIsFair(s, d);
    case Pop(k) => if k < |s.queue| { PopIsFair(s, k); }
    case RemovePeer(peer) => RemoveIsFair(s, NotPeer(peer));
    case _ =>
  }

  lemma {:induction false} EveryPlainRunIsFair(s: ControlRuns.Sched, ops: seq<ControlRuns.Op>)
    requires ControlRuns.TurnOk(s) && Fair(s) && forall i :: 0 <= i < |ops| ==> Plain(ops[i], s.order)
    ensures var t := ControlRuns.Run(s, ops); Fair(t) && t.order == s.order && t.capacity == s.capacity
    decreases |ops|
  {
    if ops != [] {
      StepIsFair(s, ops[0]);
      EveryPlainRunIsFair(ControlRuns.Apply(s, ops[0]), ops[1..]);
    }
  }

  lemma {:induction false} OrdinaryIsKnown(q: seq<Descriptor>, order: seq<PeerID>, n: nat)
    requires Ordinary(q, order) && n <= |q|
    ensures AllKnown(CriticalsUpTo(q, n), order)
  {
    if n > 0 { OrdinaryIsKnown(q, order, n - 1); }
  }

  /** After every run of critical messages on a new scheduler whose peers have a
      place each, a peer that holds less than its share gets its message in,
      whatever the others sent. */
  lemma NobodyIsShutOut(capacity: nat, order: seq<PeerID>, ops: seq<ControlRuns.Op>, share: nat, d: Descriptor)
    requires 1 <= |order| <= capacity && share * |order| <= capacity < (share + 1) * |order|
    requires forall i :: 0 <= i < |ops| ==> Plain(ops[i], order)
    requires d.kind != Probe && d.peer in order
    ensures var s := ControlRuns.NewSched(capacity, order);
            ControlRuns.TurnOk(s) && var q := ControlRuns.Run(s, ops).queue;
            Held(Criticals(q), d.peer) < share ==> !Enqueue(q, capacity, AdmissionLimit(capacity, |order|), d).dropped
  {
    var s := ControlRuns.NewSched(capacity, order);
    EveryPlainRunIsFair(s, ops);
    var q := ControlRuns.Run(s, ops).queue;
    ShareIsUnique(capacity, |order|, share);
    OrdinaryIsKnown(q, order, |q|);
    if Held(Criticals(q), d.peer) < share { BelowShareGetsIn(q, capacity, order, share, d); }
  }
}
