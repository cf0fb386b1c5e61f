/** What every interleaving of mutations keeps. */
module MutationTheorems {
  import opened Wire
  import opened Basics
  import opened MutationSpec

  datatype Limits = Limits(capacity: int, lifetime: int)

  /** A mutation in progress; reply is set once its operation has run. */
  datatype Call = Call(id: RequestID, mutation: Mutation, reply: Option<Reply>)

  /** used are all instance identifiers ever given out, successes the mutations
      that succeeded, in order. */
  datatype State = State(cache: Cache, calls: seq<Call>, faces: map<InstanceID, Interface>, used: set<InstanceID>,
      successes: seq<Mutation>)

  /** Each step is one section under the locks of the source. */
  datatype Step =
    | Begin(id: RequestID, hash: Hash, mutation: Mutation, now: int, victim: Option<RequestID>)
    | Perform(k: nat, target: InstanceID, world: World)
    | Finish(k: nat, now: int)
    | Create(instance: InstanceID, config: nat)
    | Fault(instance: InstanceID)
    | Delete(instance: InstanceID)

  ghost predicate NoneFinished(c: Cache) {
    forall id :: id in c ==> !c[id].finished
  }

  /** A new request is admitted: unknown, and room is free or can be made. */
  ghost predicate Admitted(l: Limits, s: State, e: Step) {
    e.Begin? && var c := Prune(s.cache, e.now, l.lifetime); e.id !in c && (HasRoom(c, l.capacity) || !NoneFinished(c))
  }

  ghost predicate Enabled(l: Limits, s: State, e: Step) {
    match e
    case Begin(_, _, _, now, victim) => Admitted(l, s, e) ==>
        Reserved(Prune(s.cache, now, l.lifetime), l.capacity, victim)
    case Perform(k, _, _) => k < |s.calls| && s.calls[k].reply.None?
    case Finish(k, _) => k < |s.calls| && s.calls[k].reply.Some?
    case Create(instance, _) => instance !in s.used
    case Fault(instance) => instance in s.faces
    case Delete(instance) => instance in s.faces
  }

  ghost function Apply(l: Limits, s: State, e: Step): State
    requires Enabled(l, s, e)
  {
    match e
    case Begin(id, hash, mutation, now, victim) =>
      var c := Prune(s.cache, now, l.lifetime);
      if !Admitted(l, s, e) then s.(cache := c)
      else s.(cache := Without(c, victim)[id := Entry(hash, false, now, None)],
          calls := s.calls + [Call(id, mutation, None)])
    case Perform(k, target, world) => PerformCall(s, k, target, world)
    case Finish(k, now) =>
      s.(cache := Finished(s.cache, s.calls[k].id, s.calls[k].reply.value, now),
          calls := s.calls[..k] + s.calls[k + 1..])
    case Create(instance, config) =>
      s.(faces := s.faces[instance := Interface(instance, 0, Running, true, config)], used := s.used + {instance})
    case Fault(instance) =>
      var f := s.faces[instance];
      if f.lifecycle == Running then s.(faces := s.faces[instance := f.(lifecycle := Error, alive := false)]) else s
    case Delete(instance) => s.(faces := s.faces - {instance})
  }

  function PerformCall(s: State, k: nat, target: InstanceID, world: World): State
    requires k < |s.calls|
  {
    if target !in s.faces then s.(calls := s.calls[k := s.calls[k].(reply := Some(Failure(InvalidArgument)))])
    else
      var o := PerformOn(s.faces[target], s.calls[k].mutation, world);
      s.(calls := s.calls[k := s.calls[k].(reply := Some(o.reply))], faces := s.faces[target := o.face],
         successes := s.successes + if o.reply.Success? then [s.calls[k].mutation] else [])
  }

  // ----- the invariant

  predicate Pending(s: State, k: nat) {
    k < |s.calls| && s.calls[k].id in s.cache && !s.cache[s.calls[k].id].finished
  }

  ghost predicate InProgress(calls: seq<Call>, id: RequestID) {
    exists k :: 0 <= k < |calls| && calls[k].id == id
  }

  ghost predicate CacheInv(l: Limits, s: State) {
    && (l.capacity > 0 ==> |s.cache| <= l.capacity)
    && (forall k {:trigger Pending(s, k)} :: 0 <= k < |s.calls| ==> Pending(s, k))
    && (forall j, k {:trigger s.calls[j].id, s.calls[k].id} ::
         0 <= j < k < |s.calls| ==> s.calls[j].id != s.calls[k].id)
    && (forall id {:trigger InProgress(s.calls, id)} ::
         id in s.cache && !s.cache[id].finished ==> InProgress(s.calls, id))
  }

  predicate Past(s: State, m: Mutation) {
    m.instance in s.used && (m.instance in s.faces ==> m.expected < s.faces[m.instance].generation)
  }

  predicate SameTarget(a: Mutation, b: Mutation) { a.instance == b.instance && a.expected == b.expected }

  ghost predicate FaceInv(s: State) {
    && s.faces.Keys <= s.used
    && (forall i {:trigger s.faces[i]} :: i in s.faces ==> s.faces[i].instance == i)
    && (forall a {:trigger Past(s, s.successes[a])} :: 0 <= a < |s.successes| ==> Past(s, s.successes[a]))
    && (forall a, b {:trigger SameTarget(s.successes[a], s.successes[b])} ::
         0 <= a < b < |s.successes| ==> !SameTarget(s.successes[a], s.successes[b]))
  }

  ghost predicate Inv(l: Limits, s: State) { CacheInv(l, s) && FaceInv(s) }

  // ----- the cache

  lemma PruneShrinks(c: Cache, now: int, lifetime: int)
    ensures |Prune(c, now, lifetime)| <= |c|
    ensures forall id :: id in Prune(c, now, lifetime) ==> id in c && Prune(c, now, lifetime)[id] == c[id]
    ensures forall id :: id in c && !c[id].finished ==> id in Prune(c, now, lifetime)
  {
    var p := Prune(c, now, lifetime);
    assert p.Keys <= c.Keys;
    SubsetSize(p.Keys, c.Keys);
  }

  lemma PruneKeeps(l: Limits, s: State, now: int)
    requires CacheInv(l, s)
    ensures CacheInv(l, s.(cache := Prune(s.cache, now, l.lifetime)))
  {
    var t := s.(cache := Prune(s.cache, now, l.lifetime));
    PruneShrinks(s.cache, now, l.lifetime);
    forall k | 0 <= k < |t.calls| ensures Pending(t, k) { assert Pending(s, k); }
  }

  /** Evicting a finished entry frees a place and touches no pending one. */
  lemma EvictKeeps(l: Limits, s: State, victim: Option<RequestID>)
    requires CacheInv(l, s) && Reserved(s.cache, l.capacity, victim)
    ensures CacheInv(l, s.(cache := Without(s.cache, victim))) && HasRoom(Without(s.cache, victim), l.capacity)
  {
    var c := Without(s.cache, victim);
    if victim.Some? {
      assert c.Keys == s.cache.Keys - {victim.value} && |c| == |c.Keys| && |s.cache| == |s.cache.Keys|;
    }
    forall k | 0 <= k < |s.calls| ensures Pending(s.(cache := c), k) { assert Pending(s, k); }
  }

  lemma InsertKeeps(l: Limits, s: State, id: RequestID, entry: Entry, call: Call)
    requires CacheInv(l, s) && HasRoom(s.cache, l.capacity) && id !in s.cache && !entry.finished && call.id == id
    ensures CacheInv(l, s.(cache := s.cache[id := entry], calls := s.calls + [call]))
  {
    var t := s.(cache := s.cache[id := entry], calls := s.calls + [call]);
    assert t.cache.Keys == s.cache.Keys + {id} && |t.cache| == |t.cache.Keys| && |s.cache| == |s.cache.Keys|;
    forall k | 0 <= k < |s.calls| ensures s.calls[k].id != id { assert Pending(s, k); }
    forall k | 0 <= k < |t.calls| ensures Pending(t, k) { assert k < |s.calls| ==> Pending(s, k); }
    forall x | x in t.cache && !t.cache[x].finished ensures InProgress(t.calls, x) {
      if x == id {
        assert t.calls[|s.calls|].id == id;
      } else {
        assert InProgress(s.calls, x);
        var k :| 0 <= k < |s.calls| && s.calls[k].id == x;
        assert t.calls[k].id == x;
      }
    }
  }

  lemma BeginKeeps(l: Limits, s: State, e: Step)
    requires CacheInv(l, s) && e.Begin? && Enabled(l, s, e)
    ensures CacheInv(l, Apply(l, s, e))
  {
    var c := Prune(s.cache, e.now, l.lifetime);
    PruneKeeps(l, s, e.now);
    if Admitted(l, s, e) {
      EvictKeeps(l, s.(cache := c), e.victim);
      InsertKeeps(l, s.(cache := Without(c, e.victim)), e.id, Entry(e.hash, false, e.now, None),
          Call(e.id, e.mutation, None));
    }
  }

  lemma FinishKeeps(l: Limits, s: State, e: Step)
    requires CacheInv(l, s) && e.Finish? && Enabled(l, s, e)
    ensures CacheInv(l, Apply(l, s, e))
  {
    var k, t := e.k, Apply(l, s, e);
    assert Pending(s, k);
    assert t.cache.Keys == s.cache.Keys && |t.cache| == |t.cache.Keys| && |s.cache| == |s.cache.Keys|;
    forall j | 0 <= j < |t.calls| ensures Pending(t, j) {
      var i := if j < k then j else j + 1;
      assert Pending(s, i) && s.calls[i].id != s.calls[k].id;
    }
    forall id | id in t.cache && !t.cache[id].finished ensures InProgress(t.calls, id) {
      assert InProgress(s.calls, id);
      var i :| 0 <= i < |s.calls| && s.calls[i].id == id;
      var j := if i < k then i else i - 1;
      assert t.calls[j].id == id;
    }
  }

  lemma PerformKeepsCalls(l: Limits, s: State, e: Step)
    requires CacheInv(l, s) && e.Perform? && Enabled(l, s, e)
    ensures CacheInv(l, Apply(l, s, e))
  {
    var t := Apply(l, s, e);
    forall j | 0 <= j < |t.calls| ensures Pending(t, j) { assert Pending(s, j); }
    forall id | id in t.cache && !t.cache[id].finished ensures InProgress(t.calls, id) {
      assert InProgress(s.calls, id);
      var k :| 0 <= k < |s.calls| && s.calls[k].id == id;
      assert t.calls[k].id == id;
    }
  }

  // ----- the interfaces

  lemma PerformKeepsFaces(l: Limits, s: State, e: Step)
    requires FaceInv(s) && e.Perform? && Enabled(l, s, e)
    ensures FaceInv(Apply(l, s, e))
  {
    var t := Apply(l, s, e);
    if e.target in s.faces {
      var m := s.calls[e.k].mutation;
      PerformMovesOn(s.faces[e.target], m, e.world);
      forall a | 0 <= a < |t.successes|
        ensures Past(t, t.successes[a])
      {
        assert a < |s.successes| ==> Past(s, s.successes[a]);
      }
      forall a, b | 0 <= a < b < |t.successes| ensures !SameTarget(t.successes[a], t.successes[b]) {
        if b < |s.successes| {
          assert !SameTarget(s.successes[a], s.successes[b]);
        } else {
          assert Past(s, s.successes[a]);
        }
      }
    } else {
      forall a | 0 <= a < |t.successes| ensures Past(t, t.successes[a]) { assert Past(s, s.successes[a]); }
      forall a, b | 0 <= a < b < |t.successes|
        ensures !SameTarget(t.successes[a], t.successes[b])
      {
        assert !SameTarget(s.successes[a], s.successes[b]);
      }
    }
  }

  lemma OthersKeepFaces(l: Limits, s: State, e: Step)
    requires FaceInv(s) && !e.Perform? && Enabled(l, s, e)
    ensures FaceInv(Apply(l, s, e))
  {
    var t := Apply(l, s, e);
    assert t.successes == s.successes;
    forall a | 0 <= a < |t.successes| ensures Past(t, t.successes[a]) { assert Past(s, s.successes[a]); }
    forall a, b | 0 <= a < b < |t.successes|
      ensures !SameTarget(t.successes[a], t.successes[b])
    {
      assert !SameTarget(s.successes[a], s.successes[b]);
    }
  }

  lemma OthersKeepCache(l: Limits, s: State, e: Step)
    requires CacheInv(l, s) && (e.Create? || e.Fault? || e.Delete?) && Enabled(l, s, e)
    ensures CacheInv(l, Apply(l, s, e))
  {
    var t := Apply(l, s, e);
    forall j | 0 <= j < |t.calls| ensures Pending(t, j) { assert Pending(s, j); }
  }

  lemma StepKeepsInv(l: Limits, s: State, e: Step)
    requires Inv(l, s) && Enabled(l, s, e)
    ensures Inv(l, Apply(l, s, e))
  {
    match e
    case Begin(_, _, _, _, _) => BeginKeeps(l, s, e); OthersKeepFaces(l, s, e);
    case Finish(_, _) => FinishKeeps(l, s, e); OthersKeepFaces(l, s, e);
    case Perform(_, _, _) => PerformKeepsCalls(l, s, e); PerformKeepsFaces(l, s, e);
    case Create(_, _) => OthersKeepCache(l, s, e); OthersKeepFaces(l, s, e);
    case Fault(_) => OthersKeepCache(l, s, e); OthersKeepFaces(l, s, e);
    case Delete(_) => OthersKeepCache(l, s, e); OthersKeepFaces(l, s, e);
  }

  // ----- whole runs

  ghost predicate Possible(l: Limits, s: State, es: seq<Step>)
    decreases |es|
  {
    es == [] || (Enabled(l, s, es[0]) && Possible(l, Apply(l, s, es[0]), es[1..]))
  }

  ghost function RunSteps(l: Limits, s: State, es: seq<Step>): State
    requires Possible(l, s, es)
    decreases |es|
  {
    if es == [] then s else RunSteps(l, Apply(l, s, es[0]), es[1..])
  }

  const START := State(map[], [], map[], {}, [])

  /** In every interleaving at most one operation per request identifier is in
      progress, its entry is in the cache, the cache stays within its capacity,
      and no two successes on one instance expected the same generation. */
  lemma {:induction false} EveryRunKeepsInv(l: Limits, s: State, es: seq<Step>)
    requires Inv(l, s) && Possible(l, s, es)
    ensures Inv(l, RunSteps(l, s, es))
    decreases |es|
  {
    if es != [] {
      StepKeepsInv(l, s, es[0]);
      EveryRunKeepsInv(l, Apply(l, s, es[0]), es[1..]);
    }
  }

  lemma StartIsInv(l: Limits)
    ensures Inv(l, START)
  {}

  /** A pending entry leaves that state only when its own operation finishes: no
      expiry, eviction or other request touches it. */
  lemma PendingStays(l: Limits, s: State, e: Step, id: RequestID)
    requires Inv(l, s) && Enabled(l, s, e) && id in s.cache && !s.cache[id].finished
    ensures var t := Apply(l, s, e);
            id in t.cache && (t.cache[id] == s.cache[id] || (e.Finish? && s.calls[e.k].id == id))
    ensures e.Begin? && e.id == id ==> Apply(l, s, e).calls == s.calls
  {
    if e.Begin? { PruneShrinks(s.cache, e.now, l.lifetime); }
  }

  /** A finished entry keeps its reply for as long as it is cached, so that
      repeating the request gets that reply and starts nothing. */
  lemma ReplyStays(l: Limits, s: State, e: Step, id: RequestID)
    requires Inv(l, s) && Enabled(l, s, e) && id in s.cache && s.cache[id].finished
    ensures var t := Apply(l, s, e); id in t.cache && t.cache[id].finished ==> t.cache[id] == s.cache[id]
    ensures e.Begin? && e.id == id && id in Prune(s.cache, e.now, l.lifetime) ==>
              Apply(l, s, e).calls == s.calls && Apply(l, s, e).cache[id] == s.cache[id]
  {
    if e.Begin? { PruneShrinks(s.cache, e.now, l.lifetime); }
    if e.Finish? { assert Pending(s, e.k); }
  }

  /** More than its lifetime has passed since the operation finished; a lifetime
      of zero or less never passes. */
  predicate Outlived(l: Limits, entry: Entry, now: int) { entry.finished && 0 < l.lifetime < now - entry.at }

  /** An entry changes exactly if its own operation finishes, or a request finds
      it outlived or takes its place. */
  lemma EntryChanges(l: Limits, s: State, e: Step, id: RequestID)
    requires Inv(l, s) && Enabled(l, s, e) && id in s.cache
    ensures var t := Apply(l, s, e);
            (id in t.cache && t.cache[id] == s.cache[id])
            <==> !(e.Finish? && s.calls[e.k].id == id) &&
                 !(e.Begin? && (Outlived(l, s.cache[id], e.now) || (Admitted(l, s, e) && e.victim == Some(id))))
  {
    if e.Finish? { assert Pending(s, e.k); }
  }

  /** A place is taken only from a finished entry of a full cache, and then from
      an oldest one that has not been outlived. */
  lemma EvictsOldestFinished(l: Limits, s: State, e: Step, id: RequestID)
    requires Inv(l, s) && e.Begin? && Enabled(l, s, e) && Admitted(l, s, e) && e.victim == Some(id)
    ensures id in s.cache && s.cache[id].finished && !Outlived(l, s.cache[id], e.now)
    ensures 0 < l.capacity && |s.cache| == l.capacity
    ensures forall x ::
              x in s.cache && s.cache[x].finished && !Outlived(l, s.cache[x], e.now) ==> s.cache[id].at <= s.cache[x].at
  {
    var c := Prune(s.cache, e.now, l.lifetime);
    PruneShrinks(s.cache, e.now, l.lifetime);
    forall x | x in s.cache && s.cache[x].finished && !Outlived(l, s.cache[x], e.now)
      ensures s.cache[id].at <= s.cache[x].at
    {
      assert x in c;
    }
  }

  /** A finished operation leaves its reply under the hash of its request, dated
      with the time it finished. */
  lemma FinishPublishes(l: Limits, s: State, e: Step)
    requires Inv(l, s) && e.Finish? && Enabled(l, s, e)
    ensures var id := s.calls[e.k].id;
            && id in s.cache && !InProgress(Apply(l, s, e).calls, id)
            && Apply(l, s, e).cache == s.cache[id := Entry(s.cache[id].hash, true, e.now, s.calls[e.k].reply)]
  {
    assert Pending(s, e.k);
  }

  /** The step starts an operation for the request. */
  ghost predicate Starts(l: Limits, s: State, e: Step, id: RequestID)
    requires Enabled(l, s, e)
  {
    e.Begin? && e.id == id && |Apply(l, s, e).calls| > |s.calls|
  }

  ghost function TimesStarted(l: Limits, s: State, es: seq<Step>, id: RequestID): nat
    requires Possible(l, s, es)
    decreases |es|
  {
    if es == [] then 0
    else (if Starts(l, s, es[0], id) then 1 else 0) + TimesStarted(l, Apply(l, s, es[0]), es[1..], id)
  }

  /** A request comes within the lifetime of the entry, once that is finished, and
      finds another place to take. */
  ghost predicate StillKnown(l: Limits, s: State, e: Step, id: RequestID) {
    e.Begin? && id in s.cache && s.cache[id].finished ==>
      (l.lifetime <= 0 || e.now <= s.cache[id].at + l.lifetime) && e.victim != Some(id)
  }

  ghost predicate Remembered(l: Limits, s: State, es: seq<Step>, id: RequestID)
    requires Possible(l, s, es)
    decreases |es|
  {
    es == [] || (StillKnown(l, s, es[0], id) && Remembered(l, Apply(l, s, es[0]), es[1..], id))
  }

  lemma StepRemembers(l: Limits, s: State, e: Step, id: RequestID)
    requires Inv(l, s) && Enabled(l, s, e) && id in s.cache && StillKnown(l, s, e, id)
    ensures var t := Apply(l, s, e);
            && id in t.cache && t.cache[id].hash == s.cache[id].hash && !Starts(l, s, e, id)
            && (s.cache[id].finished ==> t.cache[id] == s.cache[id])
  {
    if e.Finish? { assert Pending(s, e.k); }
  }

  /** A request that is under way or remembered is not started again, whatever
      comes in between, and its reply stays the same once there is one. */
  lemma {:induction false} RunsOnce(l: Limits, s: State, es: seq<Step>, id: RequestID)
    requires Inv(l, s) && Possible(l, s, es) && Remembered(l, s, es, id) && id in s.cache
    ensures var t := RunSteps(l, s, es);
            && TimesStarted(l, s, es, id) == 0 && id in t.cache && t.cache[id].hash == s.cache[id].hash
            && (s.cache[id].finished ==> t.cache[id] == s.cache[id])
    decreases |es|
  {
    if es != [] {
      StepRemembers(l, s, es[0], id);
      StepKeepsInv(l, s, es[0]);
      RunsOnce(l, Apply(l, s, es[0]), es[1..], id);
    }
  }

  /** A request that comes more than a lifetime after its operation finished is
      started anew; its old entry makes the room. */
  lemma OutlivedStartsAnew(l: Limits, s: State, e: Step)
    requires Inv(l, s) && e.Begin? && Enabled(l, s, e) && e.id in s.cache && Outlived(l, s.cache[e.id], e.now)
    ensures Starts(l, s, e, e.id)
  {
    var c := Prune(s.cache, e.now, l.lifetime);
    assert c.Keys <= s.cache.Keys - {e.id};
    SubsetSize(c.Keys, s.cache.Keys - {e.id});
    assert |c| == |c.Keys| && |s.cache| == |s.cache.Keys|;
  }

  lemma GenerationStep(l: Limits, s: State, e: Step, i: InstanceID)
    requires Inv(l, s) && Enabled(l, s, e) && i in s.used
    ensures var t := Apply(l, s, e);
            i in t.used && (i !in s.faces ==> i !in t.faces) &&
                (i in t.faces ==> s.faces[i].generation <= t.faces[i].generation)
  {
    if e.Perform? && e.target in s.faces { PerformMovesOn(s.faces[e.target], s.calls[e.k].mutation, e.world); }
  }

  /** An instance's generation never goes down, and a deleted instance does not return. */
  lemma {:induction false} GenerationNeverFalls(l: Limits, s: State, es: seq<Step>, i: InstanceID)
    requires Inv(l, s) && Possible(l, s, es) && i in s.used
    ensures var t := RunSteps(l, s, es);
            (i !in s.faces ==> i !in t.faces) && (i in t.faces ==> s.faces[i].generation <= t.faces[i].generation)
    decreases |es|
  {
    if es != [] {
      GenerationStep(l, s, es[0], i);
      StepKeepsInv(l, s, es[0]);
      GenerationNeverFalls(l, Apply(l, s, es[0]), es[1..], i);
    }
  }
}
