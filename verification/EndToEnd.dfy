/** From the packets of a batch to the packets a receiver completes: what the
    packetizer emits, parsed and reassembled in any order. */
module EndToEnd {
  import opened Wire
  import opened Packing
  import opened PoolSpec
  import opened PoolTheorems
  import opened RoundTrip
  import opened QuietPool
  import P = Packetizers

  function KeyOfRecord(peer: nat, r: Record): Key {
    Key(peer, r.header.dataSessionID, r.header.laneID, r.header.laneSequence)
  }

  /** A carrier reaches the receiver. */
  datatype Arrival = Arrival(carrier: nat, now: int)

  predicate InRange(arrivals: seq<Arrival>, n: nat) {
    forall a :: 0 <= a < |arrivals| ==> arrivals[a].carrier < n
  }

  predicate Arrives(arrivals: seq<Arrival>, j: nat) {
    exists a :: 0 <= a < |arrivals| && arrivals[a].carrier == j
  }

  predicate AllArrive(arrivals: seq<Arrival>, n: nat) {
    forall j :: 0 <= j < n ==> Arrives(arrivals, j)
  }

  function RecordsIn(payload: seq<byte>): seq<Record> {
    match ParseAll(payload)
    case Ok(rs) => rs
    case Err(_) => []
  }

  function AcceptAll(peer: nat, now: int, rs: seq<Record>): (ops: seq<Op>)
    ensures |ops| == |rs| && forall i :: 0 <= i < |rs| ==> ops[i] == AcceptOp(now, KeyOfRecord(peer, rs[i]), rs[i])
  {
    seq(|rs|, i requires 0 <= i < |rs| => AcceptOp(now, KeyOfRecord(peer, rs[i]), rs[i]))
  }

  /** What the carriers hold, as the receiver parses them. */
  function Parsed(emitted: seq<seq<byte>>): (held: seq<seq<Record>>)
    ensures |held| == |emitted| && forall j :: 0 <= j < |emitted| ==> held[j] == RecordsIn(emitted[j])
  {
    seq(|emitted|, j requires 0 <= j < |emitted| => RecordsIn(emitted[j]))
  }

  /** What the receiver does with the records of the carriers that reach it. */
  function Receive(peer: nat, held: seq<seq<Record>>, arrivals: seq<Arrival>): seq<Op>
    requires InRange(arrivals, |held|)
  {
    if arrivals == [] then []
    else
      var n := |arrivals| - 1;
      Receive(peer, held, arrivals[..n]) + AcceptAll(peer, arrivals[n].now, held[arrivals[n].carrier])
  }

  lemma {:induction false} ArrivedIsReceived(peer: nat, held: seq<seq<Record>>, arrivals: seq<Arrival>, a: nat,
                                r: Record)
    returns (op: Op)
    requires InRange(arrivals, |held|) && a < |arrivals| && r in held[arrivals[a].carrier]
    ensures op in Receive(peer, held, arrivals) && op.AcceptOp? && op.key == KeyOfRecord(peer, r) && op.record == r
    decreases |arrivals|
  {
    var n := |arrivals| - 1;
    if a < n {
      assert arrivals[..n][a] == arrivals[a];
      op := ArrivedIsReceived(peer, held, arrivals[..n], a, r);
    } else {
      op := AcceptedOf(peer, arrivals[n].now, held[arrivals[n].carrier], r);
    }
  }

  lemma AcceptedOf(peer: nat, now: int, rs: seq<Record>, r: Record) returns (op: Op)
    requires r in rs
    ensures op in AcceptAll(peer, now, rs) && op == AcceptOp(now, KeyOfRecord(peer, r), r)
  {
    var i :| 0 <= i < |rs| && rs[i] == r;
    op := AcceptAll(peer, now, rs)[i];
  }

  lemma {:induction false} BroughtIsSeen(seen: set<nat>, ops: seq<Op>, key: Key, frags: seq<Record>, op: Op)
    requires op in ops && BringsAny(op, key, frags)
    ensures op.record.header.fragmentIndex in SeenAfter(seen, ops, key, frags)
    decreases |ops|
  {
    var seen' := if BringsAny(ops[0], key, frags) then seen + {ops[0].record.header.fragmentIndex} else seen;
    if op == ops[0] { SeenGrows(seen', ops[1..], key, frags); } else { BroughtIsSeen(seen', ops[1..], key, frags, op); }
  }

  lemma {:induction false} InFlat<T>(ss: seq<seq<T>>, x: T)
    ensures x in P.Flatten(ss) <==> exists j :: 0 <= j < |ss| && x in ss[j]
  {
    if ss != [] {
      var n := |ss| - 1;
      InFlat(ss[..n], x);
      assert forall j :: 0 <= j < n ==> ss[..n][j] == ss[j];
    }
  }

  /** A batch on its way: the carriers, the records in each, the admitted packets
      by their place in the batch and the records of each. */
  datatype Shipment = Shipment(
    carriers: seq<seq<byte>>, sent: seq<seq<Record>>, carrierPayload: int, splits: seq<seq<Record>>, taken: seq<nat>,
    packets: seq<seq<byte>>, metas: seq<Metadata>)

  /** The carriers hold the records of the admitted packets, as PackBatch leaves them. */
  ghost predicate Shipped(b: Shipment) {
    && |b.sent| == |b.carriers|
    && (forall j :: 0 <= j < |b.sent| ==> P.CarrierOf(b.carriers[j], b.sent[j], b.carrierPayload))
    && |b.packets| == |b.metas| && P.Flatten(b.sent) == P.Flatten(b.splits)
    && P.Admitted(b.splits, b.taken, b.packets, b.metas, |b.packets|)
  }

  function PacketAt(b: Shipment, k: nat): seq<byte>
    requires k < |b.taken| && b.taken[k] < |b.packets|
  {
    b.packets[b.taken[k]]
  }

  function MetaAt(b: Shipment, k: nat): Metadata
    requires k < |b.taken| && b.taken[k] < |b.metas|
  {
    b.metas[b.taken[k]]
  }

  /** What a peer's receiver does when carriers of the batch arrive. */
  function Arriving(b: Shipment, peer: nat, arrivals: seq<Arrival>): seq<Op>
    requires InRange(arrivals, |b.carriers|)
  {
    Receive(peer, Parsed(b.carriers), arrivals)
  }

  /** A packetizer that starts empty packs a batch and leaves such carriers. */
  method EmitBatch(packetizer: P.Packetizer, packets: seq<seq<byte>>, metas: seq<Metadata>)
    returns (ok: bool, ghost b: Shipment)
    requires packetizer.Valid() && packetizer.Log() == [] && |packets| == |metas|
    modifies packetizer, packetizer.buffer, packetizer.frags
    ensures ok ==> Shipped(b) && b.carriers == packetizer.emitted && b.packets == packets && b.metas == metas
    ensures packetizer.AlwaysAccepts() ==> ok
  {
    ghost var batch;
    ok, batch := P.PackBatch(packetizer, packets, metas, 0);
    packetizer.Opens();
    assert [] + P.Flatten(batch.splits) == P.Flatten(batch.splits);
    b := Shipment(packetizer.emitted, packetizer.sent, packetizer.carrierPayload, batch.splits, batch.taken, packets,
        metas);
  }

  lemma SplitAt(b: Shipment, k: nat)
    requires Shipped(b) && k < |b.taken|
    ensures |b.splits| == |b.taken| && b.taken[k] < |b.metas| && IsSplitOf(b.splits[k], PacketAt(b, k), MetaAt(b, k))
  {}

  /** Every record of an admitted packet reaches the receiver once every carrier has. */
  lemma RecordArrives(b: Shipment, k: nat, i: nat, peer: nat, arrivals: seq<Arrival>)
    requires Shipped(b) && k < |b.taken| && i < |b.splits[k]|
    requires InRange(arrivals, |b.carriers|) && AllArrive(arrivals, |b.carriers|)
    ensures i in SeenAfter({}, Arriving(b, peer, arrivals), KeyOf(peer, MetaAt(b, k)), b.splits[k])
  {
    SplitAt(b, k);
    var frags, meta, r := b.splits[k], MetaAt(b, k), b.splits[k][i];
    assert CutAt(frags, i, PacketAt(b, k), meta, |frags|);
    InFlat(b.splits, r);
    InFlat(b.sent, r);
    var j :| 0 <= j < |b.sent| && r in b.sent[j];
    P.CarrierRoundTrip(b.carriers[j], b.sent[j], b.carrierPayload);
    assert Arrives(arrivals, j);
    var a :| 0 <= a < |arrivals| && arrivals[a].carrier == j;
    var op := ArrivedIsReceived(peer, Parsed(b.carriers), arrivals, a, r);
    BroughtIsSeen({}, Arriving(b, peer, arrivals), KeyOf(peer, meta), frags, op);
  }

  lemma AllSeen(b: Shipment, k: nat, peer: nat, arrivals: seq<Arrival>)
    requires Shipped(b) && k < |b.taken| && InRange(arrivals, |b.carriers|) && AllArrive(arrivals, |b.carriers|)
    ensures AllOf(b.splits[k], SeenAfter({}, Arriving(b, peer, arrivals), KeyOf(peer, MetaAt(b, k)), b.splits[k]))
  {
    var seen := SeenAfter({}, Arriving(b, peer, arrivals), KeyOf(peer, MetaAt(b, k)), b.splits[k]);
    forall i | 0 <= i < |b.splits[k]| ensures i in seen { RecordArrives(b, k, i, peer, arrivals); }
  }

  /** End to end: the carriers of a batch, in any order and with repetitions, make
      the receiver complete each admitted packet exactly once, byte for byte, in
      every pool that spares the packet's slot. */
  lemma BatchArrives(c: Config, p: Pool, peer: nat, b: Shipment, k: nat, arrivals: seq<Arrival>)
    requires Shipped(b) && k < |b.taken|
    requires Inv(c, p) && ConfigOk(c) && peer < c.maxPeers && |PacketAt(b, k)| <= c.maxPacketSize
    requires InRange(arrivals, |b.carriers|) && AllArrive(arrivals, |b.carriers|)
    requires Spared(c, p, Arriving(b, peer, arrivals), KeyOf(peer, MetaAt(b, k)), b.splits[k])
    ensures var key := KeyOf(peer, MetaAt(b, k));
            IsOnly(Completions(c, p, Arriving(b, peer, arrivals), key), key, PacketAt(b, k))
  {
    SplitAt(b, k);
    AllSeen(b, k, peer, arrivals);
    PacketCompletesOnce(c, p, Arriving(b, peer, arrivals), peer, b.splits[k], PacketAt(b, k), MetaAt(b, k));
  }

  // ----- into a pool with room

  /** The keys of the first n admitted packets. */
  function KeysOf(peer: nat, b: Shipment, n: nat): (keys: set<Key>)
    requires n <= |b.taken| && forall j :: 0 <= j < |b.taken| ==> b.taken[j] < |b.metas|
    ensures |keys| <= n && forall j :: 0 <= j < n ==> KeyOf(peer, MetaAt(b, j)) in keys
  {
    if n == 0 then {} else KeysOf(peer, b, n - 1) + {KeyOf(peer, MetaAt(b, n - 1))}
  }

  /** No other admitted packet has the metadata of packet k. */
  predicate Unique(b: Shipment, k: nat)
    requires k < |b.taken| && forall j :: 0 <= j < |b.taken| ==> b.taken[j] < |b.metas|
  {
    forall j :: 0 <= j < |b.taken| && j != k ==> MetaAt(b, j) != MetaAt(b, k)
  }

  predicate Between(arrivals: seq<Arrival>, start: int, end: int) {
    forall a :: 0 <= a < |arrivals| ==> start <= arrivals[a].now < end
  }

  /** What the receiver takes in came with a carrier. */
  lemma {:induction false} ReceivedHasArrived(peer: nat, held: seq<seq<Record>>, arrivals: seq<Arrival>, i: nat)
    returns (a: nat, r: Record)
    requires InRange(arrivals, |held|) && i < |Receive(peer, held, arrivals)|
    ensures a < |arrivals| && r in held[arrivals[a].carrier]
    ensures Receive(peer, held, arrivals)[i] == AcceptOp(arrivals[a].now, KeyOfRecord(peer, r), r)
    decreases |arrivals|
  {
    var n := |arrivals| - 1;
    var before := Receive(peer, held, arrivals[..n]);
    if i < |before| {
      a, r := ReceivedHasArrived(peer, held, arrivals[..n], i);
    } else {
      a, r := n, held[arrivals[n].carrier][i - |before|];
    }
  }

  /** A record of a carrier belongs to an admitted packet and has its key. */
  lemma RecordHasPacket(b: Shipment, j: nat, r: Record, peer: nat) returns (m: nat)
    requires Shipped(b) && j < |b.carriers| && r in RecordsIn(b.carriers[j])
    ensures m < |b.taken| && IsRecordOf(r, b.splits[m]) && KeyOfRecord(peer, r) == KeyOf(peer, MetaAt(b, m))
  {
    P.CarrierRoundTrip(b.carriers[j], b.sent[j], b.carrierPayload);
    InFlat(b.sent, r);
    InFlat(b.splits, r);
    m :| 0 <= m < |b.splits| && r in b.splits[m];
    var i :| 0 <= i < |b.splits[m]| && b.splits[m][i] == r;
    SplitAt(b, m);
    assert CutAt(b.splits[m], i, PacketAt(b, m), MetaAt(b, m), |b.splits[m]|);
  }

  lemma ArrivalIsQuiet(b: Shipment, k: nat, peer: nat, keys: set<Key>, arrivals: seq<Arrival>, start: int, end: int,
                       i: nat)
    requires Shipped(b) && k < |b.taken| && InRange(arrivals, |b.carriers|) && Between(arrivals, start, end)
    requires Unique(b, k) && KeysOf(peer, b, |b.taken|) <= keys && i < |Arriving(b, peer, arrivals)|
    ensures var op := Arriving(b, peer, arrivals)[i];
            op.AcceptOp? && start <= op.now && QuietOp(op, keys, KeyOf(peer, MetaAt(b, k)), b.splits[k], end)
  {
    var a, r := ReceivedHasArrived(peer, Parsed(b.carriers), arrivals, i);
    var m := RecordHasPacket(b, arrivals[a].carrier, r, peer);
    if m != k { assert MetaAt(b, m) != MetaAt(b, k); }
  }

  /** With nothing left to assume of the run: when the carriers of a batch all reach
      the pool within one lifetime, in any order and with repetitions, and the pool
      has a slot for each packet beside those it holds, every admitted packet of
      unique metadata is completed exactly once, byte for byte. */
  lemma PacketArrives(c: Config, p: Pool, held: set<Key>, peer: nat, b: Shipment, k: nat, arrivals: seq<Arrival>,
                      start: int)
    requires Shipped(b) && k < |b.taken| && Unique(b, k)
    requires Inv(c, p) && Hosts(p, held) && KeyOf(peer, MetaAt(b, k)) !in held && |held| + |b.taken| <= c.perPeerSlots
    requires peer < c.maxPeers && |PacketAt(b, k)| <= c.maxPacketSize
    requires InRange(arrivals, |b.carriers|) && AllArrive(arrivals, |b.carriers|)
    requires Between(arrivals, start, start + c.lifetime)
    ensures var key := KeyOf(peer, MetaAt(b, k));
            IsOnly(Completions(c, p, Arriving(b, peer, arrivals), key), key, PacketAt(b, k))
  {
    var ops, key, keys := Arriving(b, peer, arrivals), KeyOf(peer, MetaAt(b, k)), held + KeysOf(peer, b, |b.taken|);
    SplitAt(b, k);
    HostsMore(p, held, keys - {key});
    forall i | 0 <= i < |ops|
      ensures ops[i].AcceptOp? && start <= ops[i].now && QuietOp(ops[i], keys, key, b.splits[k], start + c.lifetime)
    {
      ArrivalIsQuiet(b, k, peer, keys, arrivals, start, start + c.lifetime, i);
    }
    QuietIsSpared(c, p, ops, keys, peer, b.splits[k], PacketAt(b, k), MetaAt(b, k), start + c.lifetime);
    BatchArrives(c, p, peer, b, k, arrivals);
  }

  /** In particular into an empty pool. */
  lemma EveryPacketArrives(c: Config, peer: nat, b: Shipment, k: nat, arrivals: seq<Arrival>, start: int)
    requires Shipped(b) && k < |b.taken| && Unique(b, k) && |b.taken| <= c.perPeerSlots
    requires ConfigOk(c) && peer < c.maxPeers && |PacketAt(b, k)| <= c.maxPacketSize
    requires InRange(arrivals, |b.carriers|) && AllArrive(arrivals, |b.carriers|)
    requires Between(arrivals, start, start + c.lifetime)
    ensures Inv(c, Fresh(c))
    ensures var key := KeyOf(peer, MetaAt(b, k));
            IsOnly(Completions(c, Fresh(c), Arriving(b, peer, arrivals), key), key, PacketAt(b, k))
  {
    FreshIsInv(c);
    EmptyHosts(c, {});
    PacketArrives(c, Fresh(c), {}, peer, b, k, arrivals, start);
  }
}
