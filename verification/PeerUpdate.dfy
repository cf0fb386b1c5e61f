/** Resolving a new peer list against the running plan (internal/wgadapter/peers.go). */
module PeerUpdates {
  import opened Wire
  import opened Basics
  import opened Ring
  import opened PeerDiff

  /** Apart from its identifier and the changed mark, p is what was asked for. */
  predicate Keeps(asked: PeerPlan, p: PeerPlan) {
    p == asked.(id := p.id, pskChanged := p.pskChanged)
  }

  ghost predicate DistinctIds(ps: seq<PeerPlan>) {
    forall i, j {:trigger ps[i].id, ps[j].id} :: 0 <= i < j < |ps| ==> ps[i].id != ps[j].id
  }

  lemma SurvivesKeeps(prev: seq<PeerPlan>, asked: PeerPlan, p: PeerPlan)
    requires Keeps(asked, p)
    ensures Survives(prev, p) == Survives(prev, asked)
  {}

  /** Entry j has its final identifier: it survives, or one of the first n did claim one. */
  predicate Settled(prev: seq<PeerPlan>, next: seq<PeerPlan>, n: nat, j: nat)
    requires j < |next|
  {
    j < n || Survives(prev, next[j])
  }

  /** The first n entries are settled; survivors have their old identifiers, and no
      identifier is used twice. */
  ghost predicate Assigned(prev: seq<PeerPlan>, next: seq<PeerPlan>, plan: seq<PeerPlan>, used: set<nat>, n: nat) {
    && |plan| == |next| && n <= |next|
    && (forall j {:trigger Keeps(next[j], plan[j])} :: 0 <= j < |next| ==> Keeps(next[j], plan[j]))
    && (forall j {:trigger Settled(prev, next, n, j)} ::
         0 <= j < |next| && Settled(prev, next, n, j) ==> plan[j].id in used)
    && (forall j {:trigger Survives(prev, next[j])} ::
         0 <= j < |next| && Survives(prev, next[j]) ==> plan[j].id == prev[Find(prev, next[j].key)].id)
    && (forall i, j {:trigger Settled(prev, next, n, i), Settled(prev, next, n, j)} ::
          0 <= i < j < |next| && Settled(prev, next, n, i) && Settled(prev, next, n, j) ==> plan[i].id != plan[j].id)
  }

  lemma ClaimOne(prev: seq<PeerPlan>, next: seq<PeerPlan>, plan: seq<PeerPlan>, used: set<nat>, n: nat, id: nat)
    requires Assigned(prev, next, plan, used, n) && n < |next| && !Survives(prev, next[n]) && id !in used
    ensures Assigned(prev, next, plan[n := plan[n].(id := id)], used + {id}, n + 1)
  {
    var plan', used' := plan[n := plan[n].(id := id)], used + {id};
    assert Keeps(next[n], plan[n]);
    forall j | 0 <= j < |next| ensures Keeps(next[j], plan'[j]) { assert Keeps(next[j], plan[j]); }
    forall j | 0 <= j < |next| && Settled(prev, next, n + 1, j)
      ensures plan'[j].id in used'
    {
      assert j != n ==> Settled(prev, next, n, j);
    }
    forall i, j | 0 <= i < j < |next| && Settled(prev, next, n + 1, i) && Settled(prev, next, n + 1, j)
      ensures plan'[i].id != plan'[j].id
    {
      assert i != n ==> Settled(prev, next, n, i);
      assert j != n ==> Settled(prev, next, n, j);
    }
  }

  /** A survivor only has its preshared key compared. */
  lemma MarkOne(prev: seq<PeerPlan>, next: seq<PeerPlan>, plan: seq<PeerPlan>, used: set<nat>, n: nat, changed: bool)
    requires Assigned(prev, next, plan, used, n) && n < |next| && Survives(prev, next[n])
    ensures Assigned(prev, next, plan[n := plan[n].(pskChanged := changed)], used, n + 1)
  {
    var plan' := plan[n := plan[n].(pskChanged := changed)];
    assert Keeps(next[n], plan[n]);
    forall j | 0 <= j < |next| ensures Keeps(next[j], plan'[j]) { assert Keeps(next[j], plan[j]); }
    forall j | 0 <= j < |next| && Settled(prev, next, n + 1, j)
      ensures plan'[j].id in used
    {
      assert Settled(prev, next, n, j);
    }
    forall i, j | 0 <= i < j < |next| && Settled(prev, next, n + 1, i) && Settled(prev, next, n + 1, j)
      ensures plan'[i].id != plan'[j].id
    {
      assert Settled(prev, next, n, i) && Settled(prev, next, n, j);
    }
  }

  /** The previous plan by key. */
  ghost predicate ByKey(prev: seq<PeerPlan>, byKey: map<Key, PeerPlan>) {
    forall k {:trigger k in byKey} ::
        (k in byKey <==> Find(prev, k) >= 0) && (k in byKey ==> byKey[k] == prev[Find(prev, k)])
  }

  method IndexByKey(prev: seq<PeerPlan>) returns (byKey: map<Key, PeerPlan>)
    requires DistinctKeys(prev)
    ensures ByKey(prev, byKey)
  {
    byKey := map[];
    for i := 0 to |prev|
      invariant forall k {:trigger k in byKey} ::
                (k in byKey <==> FindUpTo(prev, k, i) >= 0) && (k in byKey ==> byKey[k] == prev[FindUpTo(prev, k, i)])
    {
      byKey := byKey[prev[i].key := prev[i]];
    }
  }

  /** The first i peers of next are pinned; replaced are those among them that
      start over under a new identifier. */
  ghost predicate Pinned(prev: seq<PeerPlan>, next: seq<PeerPlan>, byKey: map<Key, PeerPlan>, i: nat,
                         plan: seq<PeerPlan>,
                         used: set<nat>, replaced: set<Key>)
  {
    && i <= |next| == |plan| && ByKey(prev, byKey)
    && (forall j :: i <= j < |next| ==> plan[j] == next[j])
    && (forall j :: 0 <= j < i ==> PinnedAt(prev, next, plan, used, j))
    && (forall k {:trigger k in replaced} :: k in replaced <==>
          FindUpTo(next, k, i) >= 0 && k in byKey && !Survives(prev, next[FindUpTo(next, k, i)]))
  }

  predicate PinnedAt(prev: seq<PeerPlan>, next: seq<PeerPlan>, plan: seq<PeerPlan>, used: set<nat>, j: nat)
    requires j < |next| == |plan|
  {
    && plan[j] == next[j].(id := plan[j].id)
    && (Survives(prev, next[j]) ==> plan[j].id == prev[Find(prev, next[j].key)].id && plan[j].id in used)
  }

  /** Pins peer i unless it is new or starts over. */
  method PinOne(prev: seq<PeerPlan>, next: seq<PeerPlan>, byKey: map<Key, PeerPlan>, i: nat, plan: seq<PeerPlan>,
                used: set<nat>, replaced: set<Key>)
    returns (plan': seq<PeerPlan>, used': set<nat>, replaced': set<Key>)
    requires DistinctKeys(next) && i < |next| && Pinned(prev, next, byKey, i, plan, used, replaced)
    ensures Pinned(prev, next, byKey, i + 1, plan', used', replaced')
  {
    plan', used', replaced' := plan, used, replaced;
    var key := next[i].key;
    assert key in byKey <==> Find(prev, key) >= 0;
    var survived := key in byKey;
    if survived && byKey[key].endpoint != "" && plan[i].endpoint == "" {
      replaced' := replaced + {key};
      survived := false;
    }
    if survived {
      plan' := plan[i := plan[i].(id := byKey[key].id)];
      used' := used + {byKey[key].id};
    }
    forall j | 0 <= j < i + 1 ensures PinnedAt(prev, next, plan', used', j) {
      if j < i { assert PinnedAt(prev, next, plan, used, j); }
    }
  }

  /** Pins survivors to their identifiers, so that freed ones are known before new peers claim them. */
  method PinSurvivors(prev: seq<PeerPlan>, next: seq<PeerPlan>, byKey: map<Key, PeerPlan>)
    returns (plan: seq<PeerPlan>, used: set<nat>, replaced: set<Key>)
    requires ByKey(prev, byKey) && DistinctKeys(next) && DistinctKeys(prev) && DistinctIds(prev)
    ensures Assigned(prev, next, plan, used, 0)
    ensures forall k {:trigger k in replaced} :: k in replaced <==>
              Find(next, k) >= 0 && k in byKey && !Survives(prev, next[Find(next, k)])
  {
    plan, used, replaced := next, {}, {};
    for i := 0 to |next|
      invariant Pinned(prev, next, byKey, i, plan, used, replaced)
    {
      plan, used, replaced := PinOne(prev, next, byKey, i, plan, used, replaced);
    }
    forall j | 0 <= j < |next|
      ensures plan[j] == next[j].(id := plan[j].id)
      ensures Survives(prev, next[j]) ==> plan[j].id == prev[Find(prev, next[j].key)].id && plan[j].id in used
    {
      assert PinnedAt(prev, next, plan, used, j);
    }
    PinnedIsAssigned(prev, next, plan, used);
  }

  lemma PinnedIsAssigned(prev: seq<PeerPlan>, next: seq<PeerPlan>, plan: seq<PeerPlan>, used: set<nat>)
    requires |plan| == |next| && DistinctKeys(next) && DistinctKeys(prev) && DistinctIds(prev)
    requires forall j ::
             0 <= j < |next| ==>
             plan[j] == next[j].(id := plan[j].id) &&
             (Survives(prev, next[j]) ==> plan[j].id == prev[Find(prev, next[j].key)].id && plan[j].id in used)
    ensures Assigned(prev, next, plan, used, 0)
  {
    forall i, j | 0 <= i < j < |next| && Survives(prev, next[i]) && Survives(prev, next[j])
      ensures plan[i].id != plan[j].id
    {
      var x, y := Find(prev, next[i].key), Find(prev, next[j].key);
      assert next[i].key != next[j].key;
      assert prev[x].key != prev[y].key;
      assert x < y ==> prev[x].id != prev[y].id;
      assert y < x ==> prev[y].id != prev[x].id;
    }
  }

  /** The least identifier from start on that is not in use. */
  method NextFree(used: set<nat>, start: nat) returns (id: nat)
    requires forall x :: 0 <= x < start ==> x in used
    ensures id !in used && forall x :: 0 <= x < id ==> x in used
  {
    id := start;
    BelowCount(used, id);
    while id in used
      invariant (forall x :: 0 <= x < id ==> x in used) && id <= |used|
      decreases |used| - id
    {
      BelowCount(used, id + 1);
      id := id + 1;
    }
  }

  lemma BelowCount(used: set<nat>, n: nat)
    requires forall x :: 0 <= x < n ==> x in used
    ensures n <= |used|
  {
    SubsetSize(Below(n), used);
  }

  /** The lists built from the first n entries of plan. */
  ghost predicate Sorted(prev: seq<PeerPlan>, plan: seq<PeerPlan>, n: nat, survivors: seq<PeerPlan>,
                         changed: seq<PeerPlan>, added: seq<PeerPlan>) {
    && n <= |plan| && survivors == FilterUpTo(plan, Survivors(prev), n) &&
         changed == FilterUpTo(plan, Changers(prev), n)
    && added == FilterUpTo(plan, Joiners(prev), n)
    && (forall i {:trigger Survives(prev, plan[i])} ::
         0 <= i < n && Survives(prev, plan[i]) ==>
         plan[i].pskChanged == (prev[Find(prev, plan[i].key)].psk != plan[i].psk))
  }

  /** Entry n gets its final form p and joins the lists it belongs to. */
  lemma SortOne(prev: seq<PeerPlan>, plan: seq<PeerPlan>, n: nat, survivors: seq<PeerPlan>, changed: seq<PeerPlan>,
                added: seq<PeerPlan>, p: PeerPlan)
    requires Sorted(prev, plan, n, survivors, changed, added) && n < |plan|
    requires Survives(prev, p) ==> p.pskChanged == (prev[Find(prev, p.key)].psk != p.psk)
    ensures Sorted(prev, plan[n := p], n + 1, survivors + (if Survives(prev, p) then [p] else []),
                   changed + (if Survives(prev, p) && Differs(prev[Find(prev, p.key)], p) then [p] else []),
                   added + (if Survives(prev, p) then [] else [p]))
  {
    var plan' := plan[n := p];
    FilterSame(plan, plan', Survivors(prev), n);
    FilterSame(plan, plan', Changers(prev), n);
    FilterSame(plan, plan', Joiners(prev), n);
    forall i | 0 <= i < n + 1 && Survives(prev, plan'[i])
      ensures plan'[i].pskChanged == (prev[Find(prev, plan'[i].key)].psk != plan'[i].psk)
    {
      assert i < n ==> Survives(prev, plan[i]);
    }
  }

  lemma StaysOne(prev: seq<PeerPlan>, next: seq<PeerPlan>, plan: seq<PeerPlan>, used: set<nat>, n: nat,
                 survivors: seq<PeerPlan>, changed: seq<PeerPlan>, added: seq<PeerPlan>, p: PeerPlan)
    requires Assigned(prev, next, plan, used, n) && Sorted(prev, plan, n, survivors, changed, added) && n < |next| &&
             Survives(prev, next[n])
    requires var o := prev[Find(prev, next[n].key)]; p == plan[n].(pskChanged := o.psk != plan[n].psk)
    ensures Assigned(prev, next, plan[n := p], used, n + 1)
    ensures Sorted(prev, plan[n := p], n + 1, survivors + [p], if Differs(prev[Find(prev, next[n].key)], p) then changed
            + [p] else changed, added)
  {
    assert Keeps(next[n], plan[n]);
    MarkOne(prev, next, plan, used, n, p.pskChanged);
    SurvivesKeeps(prev, next[n], p);
    SortOne(prev, plan, n, survivors, changed, added, p);
    assert added + [] == added && changed + [] == changed;
  }

  lemma JoinsOne(prev: seq<PeerPlan>, next: seq<PeerPlan>, plan: seq<PeerPlan>, used: set<nat>, n: nat,
                 survivors: seq<PeerPlan>, changed: seq<PeerPlan>, added: seq<PeerPlan>, p: PeerPlan)
    requires Assigned(prev, next, plan, used, n) && Sorted(prev, plan, n, survivors, changed, added) && n < |next| &&
             !Survives(prev, next[n])
    requires p == plan[n].(id := p.id) && p.id !in used
    ensures Assigned(prev, next, plan[n := p], used + {p.id}, n + 1) &&
            Sorted(prev, plan[n := p], n + 1, survivors, changed, added + [p])
  {
    assert Keeps(next[n], plan[n]);
    ClaimOne(prev, next, plan, used, n, p.id);
    SurvivesKeeps(prev, next[n], p);
    SortOne(prev, plan, n, survivors, changed, added, p);
    assert survivors + [] == survivors && changed + [] == changed;
  }

  method SortPeers(prev: seq<PeerPlan>, next: seq<PeerPlan>, pinned: seq<PeerPlan>, pinnedIds: set<nat>, byKey: map<Key,
                   PeerPlan>, replaced: set<Key>)
    returns (plan: seq<PeerPlan>, survivors: seq<PeerPlan>, changed: seq<PeerPlan>, added: seq<PeerPlan>)
    requires ByKey(prev, byKey) && DistinctKeys(next) && Assigned(prev, next, pinned, pinnedIds, 0)
    requires forall k {:trigger k in replaced} ::
             k in replaced <==> Find(next, k) >= 0 && k in byKey && !Survives(prev, next[Find(next, k)])
    ensures Sorted(prev, plan, |plan|, survivors, changed, added)
    ensures exists used :: Assigned(prev, next, plan, used, |next|)
  {
    plan, survivors, changed, added := pinned, [], [], [];
    var used, nextFree := pinnedIds, 0;
    for i := 0 to |next|
      invariant Assigned(prev, next, plan, used, i) && Sorted(prev, plan, i, survivors, changed, added)
      invariant forall x :: 0 <= x < nextFree ==> x in used
    {
      assert Keeps(next[i], plan[i]);
      SurvivesHere(prev, next, byKey, replaced, i);
      if plan[i].key in byKey && plan[i].key !in replaced {
        var old' := byKey[plan[i].key];
        var p := plan[i].(pskChanged := old'.psk != plan[i].psk);
        StaysOne(prev, next, plan, used, i, survivors, changed, added, p);
        plan, survivors := plan[i := p], survivors + [p];
        if old'.endpoint != p.endpoint || old'.keepalive != p.keepalive || p.pskChanged { changed := changed + [p]; }
      } else {
        nextFree := NextFree(used, nextFree);
        var p := plan[i].(id := nextFree);
        JoinsOne(prev, next, plan, used, i, survivors, changed, added, p);
        plan, used, added := plan[i := p], used + {nextFree}, added + [p];
      }
    }
  }

  lemma SurvivesHere(prev: seq<PeerPlan>, next: seq<PeerPlan>, byKey: map<Key, PeerPlan>, replaced: set<Key>, i: nat)
    requires ByKey(prev, byKey) && DistinctKeys(next) && i < |next|
    requires forall k {:trigger k in replaced} ::
             k in replaced <==> Find(next, k) >= 0 && k in byKey && !Survives(prev, next[Find(next, k)])
    ensures Survives(prev, next[i]) <==> next[i].key in byKey && next[i].key !in replaced
    ensures next[i].key in byKey ==> byKey[next[i].key] == prev[Find(prev, next[i].key)]
  {
    FindIs(next, i);
    assert next[i].key in byKey <==> Find(prev, next[i].key) >= 0;
  }

  lemma {:induction false} FindKept(next: seq<PeerPlan>, plan: seq<PeerPlan>, k: Key, n: nat)
    requires |plan| == |next| && n <= |plan| && forall j {:trigger Keeps(next[j], plan[j])} ::
             0 <= j < |next| ==> Keeps(next[j], plan[j])
    ensures FindUpTo(plan, k, n) == FindUpTo(next, k, n)
  {
    if n > 0 {
      assert Keeps(next[n - 1], plan[n - 1]);
      FindKept(next, plan, k, n - 1);
    }
  }

  /** The old peers whose key is gone or is to be created anew. */
  method CollectRemoved(prev: seq<PeerPlan>, next: seq<PeerPlan>, plan: seq<PeerPlan>, byKey: map<Key, PeerPlan>,
                        replaced: set<Key>)
    returns (removed: seq<PeerPlan>)
    requires ByKey(prev, byKey) && |plan| == |next| && forall j {:trigger Keeps(next[j], plan[j])} ::
             0 <= j < |next| ==> Keeps(next[j], plan[j])
    requires forall k {:trigger k in replaced} ::
             k in replaced <==> Find(next, k) >= 0 && k in byKey && !Survives(prev, next[Find(next, k)])
    ensures removed == Filter(prev, Leavers(plan, prev))
  {
    var newKeys := set i | 0 <= i < |plan| :: plan[i].key;
    removed := [];
    for i := 0 to |prev|
      invariant removed == FilterUpTo(prev, Leavers(plan, prev), i)
    {
      var k := prev[i].key;
      FindKept(next, plan, k, |plan|);
      FindExists(plan, k);
      assert k in byKey;
      if Find(plan, k) >= 0 {
        assert Keeps(next[Find(plan, k)], plan[Find(plan, k)]);
        SurvivesKeeps(prev, next[Find(plan, k)], plan[Find(plan, k)]);
      }
      if k !in newKeys || k in replaced { removed := removed + [prev[i]]; }
    }
  }

  /** What an update must not change: the carrier address and key of this end. */
  datatype LocalIdentity = LocalIdentity(carrier: seq<byte>, publicKey: Key)

  /** Resolves the new peers against the running plan: survivors keep their
      identifiers, newcomers take free ones, and the lists say what has to change. */
  method PreparePeerUpdate(next: seq<PeerPlan>, prev: seq<PeerPlan>, local: LocalIdentity, running: LocalIdentity)
    returns (r: Option<Update>)
    requires DistinctKeys(next) && DistinctKeys(prev) && DistinctIds(prev)
    ensures r.Some? <==> local == running
    ensures r.Some? ==> var u := r.value;
            && IsUpdate(prev, u) && |u.plan| == |next| && (forall i :: 0 <= i < |next| ==> Keeps(next[i], u.plan[i]))
            && DistinctIds(u.plan)
            && forall i ::
                 0 <= i < |next| && Survives(prev, next[i]) ==> u.plan[i].id == prev[Find(prev, next[i].key)].id
  {
    if local.carrier != running.carrier || local.publicKey != running.publicKey { return None; }
    var byKey := IndexByKey(prev);
    var pinned, used, replaced := PinSurvivors(prev, next, byKey);
    var plan, survivors, changed, added := SortPeers(prev, next, pinned, used, byKey, replaced);
    ghost var ids :| Assigned(prev, next, plan, ids, |next|);
    var removed := CollectRemoved(prev, next, plan, byKey, replaced);
    forall i | 0 <= i < |next| ensures Keeps(next[i], plan[i]) {}
    forall i, j | 0 <= i < j < |plan| ensures plan[i].id != plan[j].id {
      assert Settled(prev, next, |next|, i) && Settled(prev, next, |next|, j);
    }
    r := Some(Update(plan, added, removed, survivors, changed));
  }

  // ----- writing the programs

  method RenderUpdate(u: Update) returns (program: seq<Command>)
    ensures program == IncrementalProgram(u)
  {
    var removals := [];
    for i := 0 to |u.removed|
      invariant removals == Lines(u.removed, RemoveLines, i)
    {
      removals := removals + [PublicKey(u.removed[i].key), RemovePeer];
    }
    var additions := RenderAll(u.added);
    var changes := [];
    for i := 0 to |u.changed|
      invariant changes == Lines(u.changed, ChangeLines, i)
    {
      var p := u.changed[i];
      var lines := [PublicKey(p.key)];
      if p.endpoint != "" { lines := lines + [Endpoint(p.endpoint)]; }
      lines := lines + [Keepalive(p.keepalive)];
      if p.pskChanged { lines := lines + [PresharedKey(PskOf(p))]; }
      changes := changes + lines;
    }
    program := removals + additions + changes;
  }

  method RenderAll(ps: seq<PeerPlan>) returns (program: seq<Command>)
    ensures program == Lines(ps, AddLines, |ps|)
  {
    program := [];
    for i := 0 to |ps|
      invariant program == Lines(ps, AddLines, i)
    {
      var p := ps[i];
      var lines := [PublicKey(p.key), ReplaceAllowedIPs, AllowedIP(p.carrier)];
      if p.endpoint != "" { lines := lines + [Endpoint(p.endpoint)]; }
      if p.psk.Some? { lines := lines + [PresharedKey(p.psk.value)]; }
      lines := lines + [Keepalive(p.keepalive)];
      assert lines == AddLines(p);
      program := program + lines;
    }
  }

  method RenderFull(ps: seq<PeerPlan>) returns (program: seq<Command>)
    ensures program == FullProgram(ps)
  {
    var peers := RenderAll(ps);
    program := [ReplacePeers] + peers;
  }
}
