/** Reconfiguring the peers of wireguard-go (internal/wgadapter/peers.go): the
    incremental UAPI program against the full replacement. */
module PeerDiff {
  import opened Wire
  import opened Ring

  type Key = seq<byte>
  type Address = seq<byte>

  /** An all-zero key stands for no preshared key. */
  const ZERO_KEY: Key := [0, 0, 0, 0, 0, 0, 0, 0, 0, 0, 0, 0, 0, 0, 0, 0, 0, 0, 0, 0, 0, 0, 0, 0, 0, 0, 0, 0, 0, 0, 0,
      0]

  datatype PeerPlan = PeerPlan(
    id: nat, key: Key, psk: Option<Key>, pskChanged: bool, carrier: Address, endpoint: string, keepalive: nat)

  // ----- UAPI programs

  datatype Command =
    | ReplacePeers
    | PublicKey(key: Key)
    | RemovePeer
    | ReplaceAllowedIPs
    | AllowedIP(address: Address)
    | Endpoint(endpoint: string)
    | PresharedKey(psk: Key)
    | Keepalive(seconds: nat)

  datatype WgPeer = WgPeer(allowed: set<Address>, endpoint: string, psk: Key, keepalive: nat)

  const NEW_PEER := WgPeer({}, "", ZERO_KEY, 0)

  /** The peers of a wireguard-go device and the one the next lines are about. */
  datatype Device = Device(peers: map<Key, WgPeer>, selected: Option<Key>)

  /** The lines that follow are about a peer of the device. */
  predicate Chosen(d: Device) { d.selected.Some? && d.selected.value in d.peers }

  function Put(d: Device, p: WgPeer): Device
    requires d.selected.Some?
  {
    Device(d.peers[d.selected.value := p], d.selected)
  }

  /** An address routes to one peer: allowing it takes it away from the others. */
  function Unroute(peers: map<Key, WgPeer>, a: Address): map<Key, WgPeer> {
    map k | k in peers :: WgPeer(peers[k].allowed - {a}, peers[k].endpoint, peers[k].psk, peers[k].keepalive)
  }

  function Execute(d: Device, c: Command): Device {
    match c
    case ReplacePeers => Device(map[], None)
    case PublicKey(key) => Device(if key in d.peers then d.peers else d.peers[key := NEW_PEER], Some(key))
    case RemovePeer => if d.selected.Some? then Device(d.peers - {d.selected.value}, None) else d
    case _ => if Chosen(d) then ExecuteChosen(d, d.peers[d.selected.value], c) else d
  }

  /** A line about peer p. */
  function ExecuteChosen(d: Device, p: WgPeer, c: Command): Device
    requires Chosen(d)
  {
    match c
    case ReplaceAllowedIPs => Put(d, p.(allowed := {}))
    case AllowedIP(a) => Put(Device(Unroute(d.peers, a), d.selected), p.(allowed := p.allowed + {a}))
    case Endpoint(e) => Put(d, p.(endpoint := e))
    case PresharedKey(k) => Put(d, p.(psk := k))
    case Keepalive(n) => Put(d, p.(keepalive := n))
    case _ => d
  }

  function Run(d: Device, cs: seq<Command>): Device
    decreases |cs|
  {
    if cs == [] then d else Run(Execute(d, cs[0]), cs[1..])
  }

  lemma {:induction false} RunAppend(d: Device, a: seq<Command>, b: seq<Command>)
    ensures Run(d, a + b) == Run(Run(d, a), b)
    decreases |a|
  {
    if a == [] {
      assert a + b == b;
    } else {
      RunAppend(Execute(d, a[0]), a[1..], b);
      assert (a + b)[1..] == a[1..] + b;
    }
  }

  // ----- the lines of one peer

  function PskOf(p: PeerPlan): Key { if p.psk.Some? then p.psk.value else ZERO_KEY }

  /** What a plan says about one peer. */
  function Planned(p: PeerPlan): WgPeer { WgPeer({p.carrier}, p.endpoint, PskOf(p), p.keepalive) }

  function EndpointLine(p: PeerPlan): seq<Command> { if p.endpoint != "" then [Endpoint(p.endpoint)] else [] }

  function AddLines(p: PeerPlan): seq<Command> {
    [PublicKey(p.key), ReplaceAllowedIPs, AllowedIP(p.carrier)] + EndpointLine(p)
    + (if p.psk.Some? then [PresharedKey(p.psk.value)] else []) + [Keepalive(p.keepalive)]
  }

  function ChangeLines(p: PeerPlan): seq<Command> {
    [PublicKey(p.key)] + EndpointLine(p) + [Keepalive(p.keepalive)] + if p.pskChanged then [PresharedKey(PskOf(p))]
        else []
  }

  function RemoveLines(p: PeerPlan): seq<Command> { [PublicKey(p.key), RemovePeer] }

  /** Nobody else routes address a. */
  ghost predicate Unrouted(peers: map<Key, WgPeer>, a: Address) {
    forall k {:trigger peers[k]} :: k in peers ==> a !in peers[k].allowed
  }

  lemma UnrouteNothing(peers: map<Key, WgPeer>, a: Address)
    requires Unrouted(peers, a)
    ensures Unroute(peers, a) == peers
  {
    forall k | k in peers ensures peers[k].allowed - {a} == peers[k].allowed {}
  }

  lemma RunEndpointLine(d: Device, p: PeerPlan)
    requires d.selected == Some(p.key) && p.key in d.peers
    ensures Run(d, EndpointLine(p)).selected == d.selected
    ensures Run(d, EndpointLine(p)).peers
            == if p.endpoint != "" then d.peers[p.key := d.peers[p.key].(endpoint := p.endpoint)] else d.peers
  {
    if p.endpoint != "" { RunOne(d, Endpoint(p.endpoint)); }
  }

  lemma RunOne(d: Device, c: Command)
    ensures Run(d, [c]) == Execute(d, c)
  {
    assert [c][1..] == [];
  }

  /** The first three lines create a peer that routes its carrier address. */
  lemma RunAddHead(d: Device, p: PeerPlan)
    requires p.key !in d.peers && Unrouted(d.peers, p.carrier)
    ensures Run(d, [PublicKey(p.key), ReplaceAllowedIPs, AllowedIP(p.carrier)])
         == Device(d.peers[p.key := WgPeer({p.carrier}, "", ZERO_KEY, 0)], Some(p.key))
  {
    var head := [PublicKey(p.key), ReplaceAllowedIPs, AllowedIP(p.carrier)];
    var d1 := Execute(d, PublicKey(p.key));
    var d2 := Execute(d1, ReplaceAllowedIPs);
    UnrouteNothing(d2.peers, p.carrier);
    assert {} + {p.carrier} == {p.carrier};
    assert head[1..] == [ReplaceAllowedIPs, AllowedIP(p.carrier)] && head[1..][1..] == [AllowedIP(p.carrier)];
    RunOne(d2, AllowedIP(p.carrier));
  }

  lemma RunAddLines(d: Device, p: PeerPlan)
    requires p.key !in d.peers && Unrouted(d.peers, p.carrier)
    ensures Run(d, AddLines(p)).peers == d.peers[p.key := Planned(p)]
  {
    var head := [PublicKey(p.key), ReplaceAllowedIPs, AllowedIP(p.carrier)];
    var psk := if p.psk.Some? then [PresharedKey(p.psk.value)] else [];
    RunAddHead(d, p);
    var d3 := Run(d, head);
    RunEndpointLine(d3, p);
    var d4 := Run(d3, EndpointLine(p));
    if p.psk.Some? { RunOne(d4, PresharedKey(p.psk.value)); }
    RunOne(Run(d4, psk), Keepalive(p.keepalive));
    RunAppend(d, head, EndpointLine(p));
    RunAppend(d, head + EndpointLine(p), psk);
    RunAppend(d, head + EndpointLine(p) + psk, [Keepalive(p.keepalive)]);
  }

  lemma RunRemoveLines(d: Device, p: PeerPlan)
    ensures Run(d, RemoveLines(p)).peers == d.peers - {p.key}
  {
    assert RemoveLines(p)[1..] == [RemovePeer];
    RunOne(Execute(d, PublicKey(p.key)), RemovePeer);
  }

  /** A survivor's lines turn its old configuration into the new one. */
  lemma RunChangeLines(d: Device, o: PeerPlan, p: PeerPlan)
    requires p.key in d.peers && d.peers[p.key] == Planned(o) && o.carrier == p.carrier
    requires p.endpoint == "" ==> o.endpoint == ""
    requires !p.pskChanged ==> o.psk == p.psk
    ensures Run(d, ChangeLines(p)).peers == d.peers[p.key := Planned(p)]
  {
    var psk := if p.pskChanged then [PresharedKey(PskOf(p))] else [];
    var d1 := Execute(d, PublicKey(p.key));
    RunOne(d, PublicKey(p.key));
    RunEndpointLine(d1, p);
    var d2 := Run(d1, EndpointLine(p));
    RunOne(d2, Keepalive(p.keepalive));
    var d3 := Execute(d2, Keepalive(p.keepalive));
    if p.pskChanged { RunOne(d3, PresharedKey(PskOf(p))); }
    RunAppend(d, [PublicKey(p.key)], EndpointLine(p));
    RunAppend(d, [PublicKey(p.key)] + EndpointLine(p), [Keepalive(p.keepalive)]);
    RunAppend(d, [PublicKey(p.key)] + EndpointLine(p) + [Keepalive(p.keepalive)], psk);
    assert Run(d3, psk).peers == d.peers[p.key := Planned(p)];
  }

  // ----- programs over lists of peers

  function Lines(ps: seq<PeerPlan>, f: PeerPlan -> seq<Command>, n: nat): seq<Command>
    requires n <= |ps|
  {
    if n == 0 then [] else Lines(ps, f, n - 1) + f(ps[n - 1])
  }

  /** The peers part of the full program: replace_peers, then every peer. */
  function FullProgram(ps: seq<PeerPlan>): seq<Command> { [ReplacePeers] + Lines(ps, AddLines, |ps|) }

  datatype Update = Update(
    plan: seq<PeerPlan>, added: seq<PeerPlan>, removed: seq<PeerPlan>, survivors: seq<PeerPlan>, changed: seq<PeerPlan>)

  function IncrementalProgram(u: Update): seq<Command> {
    Lines(u.removed, RemoveLines, |u.removed|) + Lines(u.added, AddLines, |u.added|)
        + Lines(u.changed, ChangeLines, |u.changed|)
  }

  ghost predicate DistinctKeys(ps: seq<PeerPlan>) {
    forall i, j {:trigger ps[i].key, ps[j].key} :: 0 <= i < j < |ps| ==> ps[i].key != ps[j].key
  }

  ghost predicate DistinctCarriers(ps: seq<PeerPlan>) {
    forall i, j {:trigger ps[i].carrier, ps[j].carrier} :: 0 <= i < j < |ps| ==> ps[i].carrier != ps[j].carrier
  }

  /** The device with the first n of ps configured as planned. */
  function After(peers: map<Key, WgPeer>, ps: seq<PeerPlan>, n: nat): map<Key, WgPeer>
    requires n <= |ps|
  {
    if n == 0 then peers else After(peers, ps, n - 1)[ps[n - 1].key := Planned(ps[n - 1])]
  }

  lemma {:induction false} AfterHit(peers: map<Key, WgPeer>, ps: seq<PeerPlan>, n: nat, i: nat)
    requires n <= |ps| && i < n && DistinctKeys(ps)
    ensures ps[i].key in After(peers, ps, n) && After(peers, ps, n)[ps[i].key] == Planned(ps[i])
  {
    if i < n - 1 {
      AfterHit(peers, ps, n - 1, i);
      assert ps[i].key != ps[n - 1].key;
    }
  }

  lemma {:induction false} AfterMiss(peers: map<Key, WgPeer>, ps: seq<PeerPlan>, n: nat, k: Key)
    requires n <= |ps| && forall i :: 0 <= i < n ==> ps[i].key != k
    ensures k in After(peers, ps, n) <==> k in peers
    ensures k in peers ==> After(peers, ps, n)[k] == peers[k]
  {
    if n > 0 { AfterMiss(peers, ps, n - 1, k); }
  }

  lemma {:induction false} AfterUnrouted(peers: map<Key, WgPeer>, ps: seq<PeerPlan>, n: nat, a: Address)
    requires n <= |ps| && Unrouted(peers, a) && forall i :: 0 <= i < n ==> ps[i].carrier != a
    ensures Unrouted(After(peers, ps, n), a)
  {
    if n > 0 { AfterUnrouted(peers, ps, n - 1, a); }
  }

  lemma {:induction false} RunAdds(d: Device, ps: seq<PeerPlan>, n: nat)
    requires n <= |ps| && DistinctKeys(ps) && DistinctCarriers(ps)
    requires forall i :: 0 <= i < |ps| ==> ps[i].key !in d.peers && Unrouted(d.peers, ps[i].carrier)
    ensures Run(d, Lines(ps, AddLines, n)).peers == After(d.peers, ps, n)
  {
    if n > 0 {
      RunAdds(d, ps, n - 1);
      RunAppend(d, Lines(ps, AddLines, n - 1), AddLines(ps[n - 1]));
      AfterMiss(d.peers, ps, n - 1, ps[n - 1].key);
      AfterUnrouted(d.peers, ps, n - 1, ps[n - 1].carrier);
      RunAddLines(Run(d, Lines(ps, AddLines, n - 1)), ps[n - 1]);
    }
  }

  function Less(peers: map<Key, WgPeer>, ps: seq<PeerPlan>, n: nat): map<Key, WgPeer>
    requires n <= |ps|
  {
    if n == 0 then peers else Less(peers, ps, n - 1) - {ps[n - 1].key}
  }

  lemma {:induction false} LessAt(peers: map<Key, WgPeer>, ps: seq<PeerPlan>, n: nat, k: Key)
    requires n <= |ps|
    ensures k in Less(peers, ps, n) <==> k in peers && forall i :: 0 <= i < n ==> ps[i].key != k
    ensures k in Less(peers, ps, n) ==> Less(peers, ps, n)[k] == peers[k]
  {
    if n > 0 { LessAt(peers, ps, n - 1, k); }
  }

  lemma {:induction false} RunRemoves(d: Device, ps: seq<PeerPlan>, n: nat)
    requires n <= |ps|
    ensures Run(d, Lines(ps, RemoveLines, n)).peers == Less(d.peers, ps, n)
  {
    if n > 0 {
      RunRemoves(d, ps, n - 1);
      RunAppend(d, Lines(ps, RemoveLines, n - 1), RemoveLines(ps[n - 1]));
      RunRemoveLines(Run(d, Lines(ps, RemoveLines, n - 1)), ps[n - 1]);
    }
  }

  /** p may take over from its old configuration by change lines alone. */
  predicate Continues(o: PeerPlan, p: PeerPlan) {
    && o.key == p.key && o.carrier == p.carrier && (p.endpoint == "" ==> o.endpoint == "") &&
         (!p.pskChanged ==> o.psk == p.psk)
  }

  lemma {:induction false} RunChanges(d: Device, ps: seq<PeerPlan>, was: seq<PeerPlan>, n: nat)
    requires n <= |ps| == |was| && DistinctKeys(ps)
    requires forall i ::
             0 <= i < |ps| ==> Continues(was[i], ps[i]) && ps[i].key in d.peers && d.peers[ps[i].key] == Planned(was[i])
    ensures Run(d, Lines(ps, ChangeLines, n)).peers == After(d.peers, ps, n)
  {
    if n > 0 {
      RunChanges(d, ps, was, n - 1);
      RunAppend(d, Lines(ps, ChangeLines, n - 1), ChangeLines(ps[n - 1]));
      AfterMiss(d.peers, ps, n - 1, ps[n - 1].key);
      RunChangeLines(Run(d, Lines(ps, ChangeLines, n - 1)), was[n - 1], ps[n - 1]);
    }
  }

  lemma RunFull(d: Device, ps: seq<PeerPlan>)
    requires DistinctKeys(ps) && DistinctCarriers(ps)
    ensures Run(d, FullProgram(ps)).peers == After(map[], ps, |ps|)
  {
    RunAppend(d, [ReplacePeers], Lines(ps, AddLines, |ps|));
    RunOne(d, ReplacePeers);
    RunAdds(Device(map[], None), ps, |ps|);
  }

  // ----- the difference between two plans

  function FindUpTo(ps: seq<PeerPlan>, key: Key, n: nat): (i: int)
    requires n <= |ps|
    ensures -1 <= i < n && (i >= 0 ==> ps[i].key == key)
    ensures i < 0 ==> forall j :: 0 <= j < n ==> ps[j].key != key
  {
    if n == 0 then -1 else if ps[n - 1].key == key then n - 1 else FindUpTo(ps, key, n - 1)
  }

  function Find(ps: seq<PeerPlan>, key: Key): (i: int)
    ensures -1 <= i < |ps| && (i >= 0 ==> ps[i].key == key)
    ensures i < 0 ==> forall j :: 0 <= j < |ps| ==> ps[j].key != key
  {
    FindUpTo(ps, key, |ps|)
  }

  lemma FindIs(ps: seq<PeerPlan>, i: nat)
    requires DistinctKeys(ps) && i < |ps|
    ensures Find(ps, ps[i].key) == i
  {
    var j := Find(ps, ps[i].key);
  }

  /** Peer p stays: its key was there, and its endpoint is not being cleared,
      which the UAPI cannot express for a running peer. */
  predicate Survives(prev: seq<PeerPlan>, p: PeerPlan) {
    Find(prev, p.key) >= 0 && !(prev[Find(prev, p.key)].endpoint != "" && p.endpoint == "")
  }

  predicate Differs(o: PeerPlan, p: PeerPlan) {
    o.endpoint != p.endpoint || o.keepalive != p.keepalive || o.psk != p.psk
  }

  predicate Leaves(plan: seq<PeerPlan>, prev: seq<PeerPlan>, o: PeerPlan) {
    Find(plan, o.key) < 0 || !Survives(prev, plan[Find(plan, o.key)])
  }

  function Survivors(prev: seq<PeerPlan>): PeerPlan -> bool { (p: PeerPlan) => Survives(prev, p) }

  function Joiners(prev: seq<PeerPlan>): PeerPlan -> bool { (p: PeerPlan) => !Survives(prev, p) }

  function Changers(prev: seq<PeerPlan>): PeerPlan -> bool {
    (p: PeerPlan) => Survives(prev, p) && Differs(prev[Find(prev, p.key)], p)
  }

  function Leavers(plan: seq<PeerPlan>, prev: seq<PeerPlan>): PeerPlan -> bool {
    (o: PeerPlan) => Leaves(plan, prev, o)
  }

  /** u is the difference between prev and u.plan. */
  ghost predicate IsUpdate(prev: seq<PeerPlan>, u: Update) {
    && u.survivors == Filter(u.plan, Survivors(prev)) && u.added == Filter(u.plan, Joiners(prev))
    && u.changed == Filter(u.plan, Changers(prev)) && u.removed == Filter(prev, Leavers(u.plan, prev))
    && (forall i {:trigger Survives(prev, u.plan[i])} :: 0 <= i < |u.plan| && Survives(prev, u.plan[i]) ==>
          u.plan[i].pskChanged == (prev[Find(prev, u.plan[i].key)].psk != u.plan[i].psk))
  }

  lemma {:induction false} FilterDistinct(ps: seq<PeerPlan>, keep: PeerPlan -> bool, n: nat)
    requires n <= |ps| && DistinctKeys(ps) && DistinctCarriers(ps)
    ensures DistinctKeys(FilterUpTo(ps, keep, n)) && DistinctCarriers(FilterUpTo(ps, keep, n))
  {
    if n > 0 {
      FilterDistinct(ps, keep, n - 1);
      var f, f' := FilterUpTo(ps, keep, n - 1), FilterUpTo(ps, keep, n);
      forall i, j | 0 <= i < j < |f'| ensures f'[i].key != f'[j].key && f'[i].carrier != f'[j].carrier {
        assert f'[i] == f[i];
        if j < |f| {
          assert f'[j] == f[j];
        } else {
          var x := FilterFrom(ps, keep, n - 1, i);
        }
      }
    }
  }

  /** No key of the filtered list is k unless a kept entry has it. */
  lemma FilterKeys(ps: seq<PeerPlan>, keep: PeerPlan -> bool, k: Key)
    requires DistinctKeys(ps)
    ensures (exists j :: 0 <= j < |Filter(ps, keep)| && Filter(ps, keep)[j].key == k) <==>
            Find(ps, k) >= 0 && keep(ps[Find(ps, k)])
  {
    var f := Filter(ps, keep);
    if Find(ps, k) >= 0 && keep(ps[Find(ps, k)]) {
      var j := FilterHas(ps, keep, |ps|, Find(ps, k));
      assert f[j].key == k;
    }
    if j :| 0 <= j < |f| && f[j].key == k {
      var i := FilterFrom(ps, keep, |ps|, j);
      FindIs(ps, i);
    }
  }

  // ----- the incremental program means the full one

  /** Both plans are usable and a key keeps its carrier address. */
  ghost predicate Compatible(prev: seq<PeerPlan>, plan: seq<PeerPlan>) {
    && DistinctKeys(prev) && DistinctCarriers(prev) && DistinctKeys(plan) && DistinctCarriers(plan)
    && (forall i {:trigger Find(prev, plan[i].key)} :: 0 <= i < |plan| && Find(prev, plan[i].key) >= 0 ==>
          prev[Find(prev, plan[i].key)].carrier == plan[i].carrier)
  }

  function Configured(ps: seq<PeerPlan>): map<Key, WgPeer> { After(map[], ps, |ps|) }

  lemma ConfiguredAt(ps: seq<PeerPlan>, k: Key)
    requires DistinctKeys(ps)
    ensures k in Configured(ps) <==> Find(ps, k) >= 0
    ensures k in Configured(ps) ==> Configured(ps)[k] == Planned(ps[Find(ps, k)])
  {
    if Find(ps, k) >= 0 { AfterHit(map[], ps, |ps|, Find(ps, k)); } else { AfterMiss(map[], ps, |ps|, k); }
  }

  /** After the removals exactly the survivors are left, as they were. */
  lemma AfterRemovals(prev: seq<PeerPlan>, u: Update, k: Key)
    requires IsUpdate(prev, u) && Compatible(prev, u.plan)
    ensures var s := Less(Configured(prev), u.removed, |u.removed|); var i := Find(u.plan, k);
            && (k in s <==> i >= 0 && Survives(prev, u.plan[i]))
            && (k in s ==> s[k] == Planned(prev[Find(prev, k)]))
  {
    ConfiguredAt(prev, k);
    LessAt(Configured(prev), u.removed, |u.removed|, k);
    FilterKeys(prev, Leavers(u.plan, prev), k);
  }

  lemma AfterAdditions(prev: seq<PeerPlan>, u: Update, k: Key)
    requires IsUpdate(prev, u) && Compatible(prev, u.plan)
    ensures var s := After(Less(Configured(prev), u.removed, |u.removed|), u.added, |u.added|);
            var i := Find(u.plan, k);
            && (k in s <==> i >= 0)
            && (i >= 0 ==> s[k] == Planned(if Survives(prev, u.plan[i]) then prev[Find(prev, k)] else u.plan[i]))
  {
    AfterRemovals(prev, u, k);
    FilterKeys(u.plan, Joiners(prev), k);
    FilterDistinct(u.plan, Joiners(prev), |u.plan|);
    var s, i := Less(Configured(prev), u.removed, |u.removed|), Find(u.plan, k);
    if i >= 0 && !Survives(prev, u.plan[i]) {
      var j := FilterHas(u.plan, Joiners(prev), |u.plan|, i);
      AfterHit(s, u.added, |u.added|, j);
    } else {
      AfterMiss(s, u.added, |u.added|, k);
    }
  }

  lemma AfterChanges(prev: seq<PeerPlan>, u: Update, k: Key)
    requires IsUpdate(prev, u) && Compatible(prev, u.plan)
    ensures var s := After(After(Less(Configured(prev), u.removed, |u.removed|), u.added, |u.added|), u.changed,
            |u.changed|);
            && (k in s <==> k in Configured(u.plan))
            && (k in s ==> s[k] == Configured(u.plan)[k])
  {
    AfterAdditions(prev, u, k);
    ConfiguredAt(u.plan, k);
    FilterKeys(u.plan, Changers(prev), k);
    FilterDistinct(u.plan, Changers(prev), |u.plan|);
    var s, i := After(Less(Configured(prev), u.removed, |u.removed|), u.added, |u.added|), Find(u.plan, k);
    if i >= 0 && Changers(prev)(u.plan[i]) {
      var j := FilterHas(u.plan, Changers(prev), |u.plan|, i);
      AfterHit(s, u.changed, |u.changed|, j);
    } else {
      AfterMiss(s, u.changed, |u.changed|, k);
    }
  }

  /** Nothing is in the way of the peers to be added. */
  lemma RoomForAdded(prev: seq<PeerPlan>, u: Update, i: nat)
    requires IsUpdate(prev, u) && Compatible(prev, u.plan) && i < |u.added|
    ensures var s := Less(Configured(prev), u.removed, |u.removed|);
            u.added[i].key !in s && Unrouted(s, u.added[i].carrier)
  {
    var s := Less(Configured(prev), u.removed, |u.removed|);
    var x := FilterFrom(u.plan, Joiners(prev), |u.plan|, i);
    FindIs(u.plan, x);
    AfterRemovals(prev, u, u.added[i].key);
    forall k | k in s ensures u.added[i].carrier !in s[k].allowed {
      AfterRemovals(prev, u, k);
      var y := Find(u.plan, k);
      assert Find(prev, u.plan[y].key) >= 0;
      assert x != y;
    }
  }

  function OldOf(prev: seq<PeerPlan>, p: PeerPlan): PeerPlan {
    if Find(prev, p.key) >= 0 then prev[Find(prev, p.key)] else p
  }

  lemma ChangedContinue(prev: seq<PeerPlan>, u: Update, i: nat)
    requires IsUpdate(prev, u) && Compatible(prev, u.plan) && i < |u.changed|
    ensures var s := After(Less(Configured(prev), u.removed, |u.removed|), u.added, |u.added|); var p := u.changed[i];
            Continues(OldOf(prev, p), p) && p.key in s && s[p.key] == Planned(OldOf(prev, p))
  {
    var x := FilterFrom(u.plan, Changers(prev), |u.plan|, i);
    FindIs(u.plan, x);
    assert Survives(prev, u.plan[x]);
    AfterAdditions(prev, u, u.changed[i].key);
  }

  /** On a device configured by the previous plan, the incremental program leaves
      the same peers, with the same routes, endpoints, preshared keys and
      keepalives, as the full program of the new plan leaves on any device. */
  lemma IncrementalMeansFull(prev: seq<PeerPlan>, u: Update, d: Device, any: Device)
    requires IsUpdate(prev, u) && Compatible(prev, u.plan) && d.peers == Configured(prev)
    ensures Run(d, IncrementalProgram(u)).peers == Run(any, FullProgram(u.plan)).peers
  {
    var rs, cs := Lines(u.removed, RemoveLines, |u.removed|), Lines(u.changed, ChangeLines, |u.changed|);
    var ads := Lines(u.added, AddLines, |u.added|);
    RunAppend(d, rs + ads, cs);
    RunAppend(d, rs, ads);
    RunRemoves(d, u.removed, |u.removed|);
    var d1 := Run(d, rs);
    FilterDistinct(u.plan, Joiners(prev), |u.plan|);
    forall i | 0 <= i < |u.added|
      ensures u.added[i].key !in d1.peers && Unrouted(d1.peers, u.added[i].carrier)
    {
      RoomForAdded(prev, u, i);
    }
    RunAdds(d1, u.added, |u.added|);
    var d2 := Run(d1, ads);
    var was := seq(|u.changed|, i requires 0 <= i < |u.changed| => OldOf(prev, u.changed[i]));
    FilterDistinct(u.plan, Changers(prev), |u.plan|);
    forall i | 0 <= i < |u.changed|
      ensures Continues(was[i], u.changed[i]) && u.changed[i].key in d2.peers &&
              d2.peers[u.changed[i].key] == Planned(was[i])
    {
      ChangedContinue(prev, u, i);
    }
    RunChanges(d2, u.changed, was, |u.changed|);
    SameMap(prev, u);
    RunFull(any, u.plan);
  }

  lemma SameMap(prev: seq<PeerPlan>, u: Update)
    requires IsUpdate(prev, u) && Compatible(prev, u.plan)
    ensures After(After(Less(Configured(prev), u.removed, |u.removed|), u.added, |u.added|), u.changed, |u.changed|)
            == Configured(u.plan)
  {
    forall k ensures var s := After(After(Less(Configured(prev), u.removed, |u.removed|), u.added, |u.added|),
        u.changed, |u.changed|);
                     (k in s <==> k in Configured(u.plan)) && (k in s ==> s[k] == Configured(u.plan)[k]) {
      AfterChanges(prev, u, k);
    }
  }

  /** Every new peer is added or a survivor, every old one removed or a survivor,
      and never both. */
  lemma UpdatePartitions(prev: seq<PeerPlan>, u: Update, k: Key)
    requires IsUpdate(prev, u) && Compatible(prev, u.plan)
    ensures var a, r, s := Find(u.added, k) >= 0, Find(u.removed, k) >= 0, Find(u.survivors, k) >= 0;
            && (Find(u.plan, k) >= 0 <==> a || s) && (Find(prev, k) >= 0 <==> r || s) && !(a && s) && !(r && s)
  {
    FilterKeys(u.plan, Joiners(prev), k);
    FilterKeys(u.plan, Survivors(prev), k);
    FilterKeys(prev, Leavers(u.plan, prev), k);
    FindExists(u.added, k);
    FindExists(u.removed, k);
    FindExists(u.survivors, k);
  }

  lemma FindExists(ps: seq<PeerPlan>, k: Key)
    ensures Find(ps, k) >= 0 <==> exists j :: 0 <= j < |ps| && ps[j].key == k
  {}
}
