/** Outbound CONTROL scheduling (internal/wgadapter/shimtun/control_scheduler.go):
    the queue as a sequence, token buckets and round robin. */
module ControlSpec {
  import opened Wire
  import opened Ring

  const DESCRIPTOR_CAPACITY := 16
  const EXPLORATORY_LIMIT := 8
  const PEER_RATE := 32.0
  const PEER_BURST := 8.0
  const GLOBAL_RATE := 128.0
  const GLOBAL_BURST := 16.0

  type PeerID = u32

  datatype Kind =
    Unknown | Hello | HelloAck | Reset | ResetAck | PeerMTU | PeerMTUAck | Ping | Pong | StateSync | Probe | ProbeAck

  /** A decoded CONTROL message waiting to be sent. */
  datatype Descriptor = Descriptor(peer: PeerID, kind: Kind, messageID: nat, replyTo: nat, epoch: nat,
      message: seq<byte>, targetSize: nat)

  const NO_DESCRIPTOR := Descriptor(0, Unknown, 0, 0, 0, [], 0)

  /** Only MTU probes are exploratory; everything else is critical. */
  predicate Exploratory(d: Descriptor) { d.kind == Probe }

  // ----- the queue

  function One(d: Descriptor): nat { if Exploratory(d) then 1 else 0 }

  /** How many of the first n descriptors are exploratory. */
  function CountUpTo(q: seq<Descriptor>, n: nat): nat
    requires n <= |q|
  {
    if n == 0 then 0 else CountUpTo(q, n - 1) + One(q[n - 1])
  }

  function CountExploratory(q: seq<Descriptor>): nat { CountUpTo(q, |q|) }

  function CountPeerUpTo(q: seq<Descriptor>, peer: PeerID, n: nat): nat
    requires n <= |q|
  {
    if n == 0 then 0 else CountPeerUpTo(q, peer, n - 1) + if q[n - 1].peer == peer then 1 else 0
  }

  function CountPeer(q: seq<Descriptor>, peer: PeerID): nat { CountPeerUpTo(q, peer, |q|) }

  function FirstUpTo(q: seq<Descriptor>, p: Descriptor -> bool, n: nat): (k: int)
    requires n <= |q|
    ensures -1 <= k < n && (k >= 0 ==> p(q[k]))
    ensures forall i :: 0 <= i < (if k < 0 then n else k) ==> !p(q[i])
  {
    if n == 0 then -1
    else
      var k := FirstUpTo(q, p, n - 1);
      if k >= 0 then k else if p(q[n - 1]) then n - 1 else -1
  }

  /** The first descriptor that satisfies p, -1 if none does. */
  function First(q: seq<Descriptor>, p: Descriptor -> bool): (k: int)
    ensures -1 <= k < |q| && (k >= 0 ==> p(q[k]))
    ensures forall i :: 0 <= i < (if k < 0 then |q| else k) ==> !p(q[i])
  {
    FirstUpTo(q, p, |q|)
  }

  /** The same critical message for the same peer. */
  predicate SameCritical(want: Descriptor, d: Descriptor) {
    && !Exploratory(d) && d.peer == want.peer && d.kind == want.kind
    && d.epoch == want.epoch && d.messageID == want.messageID && d.replyTo == want.replyTo
  }

  function OfPeer(peer: PeerID): Descriptor -> bool { (d: Descriptor) => d.peer == peer }

  function ProbeOf(peer: PeerID): Descriptor -> bool { (d: Descriptor) => d.peer == peer && Exploratory(d) }

  function AnyProbe(): Descriptor -> bool { (d: Descriptor) => Exploratory(d) }

  function SameAs(want: Descriptor): Descriptor -> bool { (d: Descriptor) => SameCritical(want, d) }

  function AdmissionLimit(capacity: nat, peers: nat): nat {
    var limit := capacity / if peers < 1 then 1 else peers;
    if limit < 1 then 1 else limit
  }

  datatype Admission = Admission(queue: seq<Descriptor>, dropped: bool, evicted: bool, coalesced: bool)

  /** At the peer's share, a critical message takes the place of the peer's oldest probe. */
  function MakePeerRoom(q: seq<Descriptor>, limit: nat, d: Descriptor): Admission {
    if CountPeer(q, d.peer) < limit then Admission(q, false, false, false)
    else
      var k := First(q, ProbeOf(d.peer));
      if k >= 0 then Admission(Without(q, k), false, true, false) else Admission(q, true, false, false)
  }

  /** In a full queue, a critical message takes the place of the oldest probe. */
  function MakeRoom(a: Admission, capacity: nat, d: Descriptor): Admission {
    if a.dropped || |a.queue| < capacity then a
    else
      var k := First(a.queue, AnyProbe());
      if !Exploratory(d) && k >= 0 then Admission(Without(a.queue, k), false, true, false) else a.(dropped := true)
  }

  function Enqueue(q: seq<Descriptor>, capacity: nat, limit: nat, d: Descriptor): Admission {
    if Exploratory(d) && CountExploratory(q) >= EXPLORATORY_LIMIT then Admission(q, true, false, false)
    else
      var same := First(q, SameAs(d));
      if !Exploratory(d) && same >= 0 then Admission(q[same := d], false, false, true)
      else
        Admit(MakeRoom(Roomy(q, limit, d), capacity, d), d)
  }

  function Roomy(q: seq<Descriptor>, limit: nat, d: Descriptor): Admission {
    if Exploratory(d) then Admission(q, false, false, false) else MakePeerRoom(q, limit, d)
  }

  function Admit(a: Admission, d: Descriptor): Admission {
    if a.dropped then Admission(a.queue, true, false, false) else a.(queue := a.queue + [d])
  }

  // ----- what admission keeps

  lemma {:induction false} CountSame(a: seq<Descriptor>, b: seq<Descriptor>, n: nat)
    requires n <= |a| && n <= |b| && forall i :: 0 <= i < n ==> One(a[i]) == One(b[i])
    ensures CountUpTo(a, n) == CountUpTo(b, n)
  {
    if n > 0 { CountSame(a, b, n - 1); }
  }

  lemma CountPush(q: seq<Descriptor>, d: Descriptor)
    ensures CountExploratory(q + [d]) == CountExploratory(q) + One(d)
  {
    CountSame(q + [d], q, |q|);
  }

  lemma {:induction false} CountShift(q: seq<Descriptor>, w: seq<Descriptor>, k: nat, n: nat)
    requires k < n <= |q| && w == Without(q, k)
    ensures CountUpTo(q, n) == CountUpTo(w, n - 1) + One(q[k])
  {
    if n == k + 1 {
      CountSame(q, w, k);
    } else {
      CountShift(q, w, k, n - 1);
    }
  }

  lemma CountWithout(q: seq<Descriptor>, k: nat)
    requires k < |q|
    ensures CountExploratory(q) == CountExploratory(Without(q, k)) + One(q[k])
  {
    CountShift(q, Without(q, k), k, |q|);
  }

  lemma CountReplace(q: seq<Descriptor>, k: nat, d: Descriptor)
    requires k < |q| && Exploratory(d) == Exploratory(q[k])
    ensures CountExploratory(q[k := d]) == CountExploratory(q)
  {
    CountSame(q[k := d], q, |q|);
  }

  /** What identifies a critical message. */
  datatype Identity = Identity(peer: PeerID, kind: Kind, messageID: nat, replyTo: nat, epoch: nat)

  function IdentityOf(d: Descriptor): Identity { Identity(d.peer, d.kind, d.messageID, d.replyTo, d.epoch) }

  function Ids(d: Descriptor): seq<Identity> { if Exploratory(d) then [] else [IdentityOf(d)] }

  function CriticalsUpTo(q: seq<Descriptor>, n: nat): seq<Identity>
    requires n <= |q|
  {
    if n == 0 then [] else CriticalsUpTo(q, n - 1) + Ids(q[n - 1])
  }

  /** The critical messages of a queue, oldest first. */
  function Criticals(q: seq<Descriptor>): seq<Identity> { CriticalsUpTo(q, |q|) }

  lemma {:induction false} CriticalsSame(a: seq<Descriptor>, b: seq<Descriptor>, n: nat)
    requires n <= |a| && n <= |b| && forall i :: 0 <= i < n ==> Ids(a[i]) == Ids(b[i])
    ensures CriticalsUpTo(a, n) == CriticalsUpTo(b, n)
  {
    if n > 0 { CriticalsSame(a, b, n - 1); }
  }

  lemma CriticalsPush(q: seq<Descriptor>, d: Descriptor)
    ensures Criticals(q + [d]) == Criticals(q) + Ids(d)
  {
    CriticalsSame(q + [d], q, |q|);
  }

  lemma {:induction false} CriticalsShift(q: seq<Descriptor>, w: seq<Descriptor>, k: nat, n: nat)
    requires k < n <= |q| && w == Without(q, k) && Exploratory(q[k])
    ensures CriticalsUpTo(q, n) == CriticalsUpTo(w, n - 1)
  {
    if n == k + 1 {
      CriticalsSame(q, w, k);
    } else {
      CriticalsShift(q, w, k, n - 1);
    }
  }

  lemma CriticalsWithout(q: seq<Descriptor>, k: nat)
    requires k < |q| && Exploratory(q[k])
    ensures Criticals(Without(q, k)) == Criticals(q)
  {
    CriticalsShift(q, Without(q, k), k, |q|);
  }

  lemma CriticalsReplace(q: seq<Descriptor>, k: nat, d: Descriptor)
    requires k < |q| && SameCritical(d, q[k])
    ensures Criticals(q[k := d]) == Criticals(q)
  {
    CriticalsSame(q[k := d], q, |q|);
  }

  lemma MakeRoomKeeps(a: Admission, capacity: nat, d: Descriptor)
    requires |a.queue| <= capacity
    ensures var b := MakeRoom(a, capacity, d);
            && Criticals(b.queue) == Criticals(a.queue) && CountExploratory(b.queue) <= CountExploratory(a.queue)
            && |b.queue| <= capacity && (!b.dropped && capacity > 0 ==> |b.queue| < capacity)
            && (b.dropped ==> b.queue == a.queue && (a.dropped || |a.queue| == capacity)) &&
                 (Exploratory(d) ==> b.queue == a.queue)
            && (!a.coalesced ==> !b.coalesced)
  {
    var k := First(a.queue, AnyProbe());
    if k >= 0 {
      CriticalsWithout(a.queue, k);
      CountWithout(a.queue, k);
    }
  }

  lemma MakePeerRoomKeeps(q: seq<Descriptor>, limit: nat, d: Descriptor)
    ensures var a := MakePeerRoom(q, limit, d);
            Criticals(a.queue) == Criticals(q) && CountExploratory(a.queue) <= CountExploratory(q) &&
                (a.queue == q || |a.queue| < |q|) && (a.dropped ==> a.queue == q) && !a.coalesced
  {
    var k := First(q, ProbeOf(d.peer));
    if k >= 0 {
      CriticalsWithout(q, k);
      CountWithout(q, k);
    }
  }

  predicate Last(q: seq<Descriptor>, d: Descriptor) { q != [] && q[|q| - 1] == d }

  /** Admission never evicts a critical message and never reorders them; it drops
      only the message offered, keeps at most 8 probes and never overfills. */
  lemma EnqueueKeeps(q: seq<Descriptor>, capacity: nat, limit: nat, d: Descriptor)
    requires |q| <= capacity && capacity > 0 && CountExploratory(q) <= EXPLORATORY_LIMIT
    ensures var a := Enqueue(q, capacity, limit, d);
            && |a.queue| <= capacity && CountExploratory(a.queue) <= EXPLORATORY_LIMIT
            && Criticals(a.queue) == Criticals(q) + (if a.dropped || a.coalesced || Exploratory(d) then []
                 else [IdentityOf(d)])
            && (a.dropped ==> a.queue == q)
            && (!a.dropped && !a.coalesced ==> Last(a.queue, d))
            && (Exploratory(d) && !a.dropped ==> a.queue == q + [d])
  {
    var same := First(q, SameAs(d));
    if Exploratory(d) && CountExploratory(q) >= EXPLORATORY_LIMIT {
    } else if !Exploratory(d) && same >= 0 {
      CriticalsReplace(q, same, d);
      CountReplace(q, same, d);
    } else {
      AdmissionKeeps(q, capacity, limit, d);
    }
  }

  lemma AdmissionKeeps(q: seq<Descriptor>, capacity: nat, limit: nat, d: Descriptor)
    requires |q| <= capacity && capacity > 0
    requires if Exploratory(d) then CountExploratory(q) < EXPLORATORY_LIMIT
             else CountExploratory(q) <= EXPLORATORY_LIMIT
    ensures var a := Admit(MakeRoom(Roomy(q, limit, d), capacity, d), d);
            && |a.queue| <= capacity && CountExploratory(a.queue) <= EXPLORATORY_LIMIT && !a.coalesced
            && Criticals(a.queue) == Criticals(q) + (if a.dropped || Exploratory(d) then [] else [IdentityOf(d)])
            && (a.dropped ==> a.queue == q) && (!a.dropped ==> Last(a.queue, d)) &&
                 (Exploratory(d) && !a.dropped ==> a.queue == q + [d])
  {
    var roomy := Roomy(q, limit, d);
    MakePeerRoomKeeps(q, limit, d);
    MakeRoomKeeps(roomy, capacity, d);
    AdmitKeeps(MakeRoom(roomy, capacity, d), d);
  }

  lemma AdmitKeeps(a: Admission, d: Descriptor)
    ensures var b := Admit(a, d);
            && b.dropped == a.dropped && (a.dropped ==> b.queue == a.queue)
            && (!a.dropped ==>
                 Criticals(b.queue) == Criticals(a.queue) + (if Exploratory(d) then [] else [IdentityOf(d)]))
            && (!a.dropped ==>
                 CountExploratory(b.queue) == CountExploratory(a.queue) + (if Exploratory(d) then 1 else 0))
            && (!a.dropped ==> Last(b.queue, d) && |b.queue| == |a.queue| + 1 && b.queue == a.queue + [d])
            && b.coalesced == (!a.dropped && a.coalesced)
  {
    CriticalsPush(a.queue, d);
    CountPush(a.queue, d);
  }

  // ----- removing peers

  lemma {:induction false} FilterCounts(q: seq<Descriptor>, keep: Descriptor -> bool, n: nat)
    requires n <= |q|
    ensures |FilterUpTo(q, keep, n)| <= n && CountExploratory(FilterUpTo(q, keep, n)) <= CountUpTo(q, n)
  {
    if n > 0 {
      var f := FilterUpTo(q, keep, n - 1);
      FilterCounts(q, keep, n - 1);
      CountPush(f, q[n - 1]);
      assert f + [] == f;
    }
  }

  function NotPeer(peer: PeerID): Descriptor -> bool { (d: Descriptor) => d.peer != peer }

  function AmongPeers(peers: seq<PeerID>): Descriptor -> bool { (d: Descriptor) => d.peer in peers }
}
