/** The request cache (manager/mutation_cache.go) and the interface supervisor
    (manager/interface_supervisor.go); each method is one section under a lock. */
module Mutations {
  import opened Wire
  import opened MutationSpec

  datatype Admission = Mismatch | Join | Full | Started

  class MutationCache {
    const capacity: int
    const lifetime: int
    var entries: Cache

    constructor (capacity: int, lifetime: int)
      ensures entries == map[] && this.capacity == capacity && this.lifetime == lifetime
    {
      this.capacity, this.lifetime, entries := capacity, lifetime, map[];
    }

    /** Drops the finished entries that have outlived their time. */
    method PruneLocked(now: int)
      modifies this
      ensures entries == Prune(old(entries), now, lifetime)
      ensures forall id :: id in entries <==>
                id in old(entries) && !(old(entries)[id].finished && 0 < lifetime < now - old(entries)[id].at)
    {
      if lifetime <= 0 { return; }
      var todo, kept := entries.Keys, entries;
      while todo != {}
        invariant todo <= old(entries).Keys
        invariant kept == map id | id in old(entries) && (id in todo || !Stale(old(entries)[id], now, lifetime)) ::
                  old(entries)[id]
        decreases |todo|
      {
        var id :| id in todo;
        todo := todo - {id};
        if Stale(entries[id], now, lifetime) { kept := kept - {id}; }
      }
      entries := kept;
    }

    /** Makes room for one entry by dropping an oldest finished one, never a pending one. */
    method ReserveLocked() returns (ok: bool, ghost victim: Option<RequestID>)
      modifies this
      ensures ok <==> HasRoom(old(entries), capacity) || exists id :: id in old(entries) && old(entries)[id].finished
      ensures ok ==> Reserved(old(entries), capacity, victim) && entries == Without(old(entries), victim)
      ensures !ok ==> entries == old(entries)
    {
      if capacity <= 0 || |entries| < capacity { return true, None; }
      var oldest := Oldest();
      victim := oldest;
      ok := oldest.Some?;
      if ok { entries := entries - {oldest.value}; }
    }

    method Oldest() returns (oldest: Option<RequestID>)
      ensures oldest.Some? ==> IsOldest(entries, oldest.value)
      ensures oldest.None? ==> forall id :: id in entries ==> !entries[id].finished
    {
      oldest := None;
      var todo := entries.Keys;
      while todo != {}
        invariant todo <= entries.Keys
        invariant oldest.Some? ==> oldest.value in entries && entries[oldest.value].finished
        invariant forall id ::
                  id in entries && id !in todo && entries[id].finished ==>
                  oldest.Some? && entries[oldest.value].at <= entries[id].at
        decreases |todo|
      {
        var id :| id in todo;
        todo := todo - {id};
        if entries[id].finished && (oldest.None? || entries[id].at < entries[oldest.value].at) { oldest := Some(id); }
      }
    }

    /** The first section of execute: a known request joins or is refused, a new
        one is entered as pending if there is room. */
    method Begin(id: RequestID, hash: Hash, now: int) returns (a: Admission, ghost victim: Option<RequestID>)
      modifies this
      ensures var c := Prune(old(entries), now, lifetime);
              && (a.Join? || a.Mismatch? <==> id in c) && (id in c ==> (a.Mismatch? <==> c[id].hash != hash))
              && (a.Full? <==> id !in c && !HasRoom(c, capacity) && forall x :: x in c ==> !c[x].finished)
              && (a.Started? ==> Reserved(c, capacity, victim))
              && entries == if a.Started? then Without(c, victim)[id := Entry(hash, false, now, None)] else c
    {
      PruneLocked(now);
      victim := None;
      if id in entries {
        return if entries[id].hash != hash then Mismatch else Join, victim;
      }
      var ok;
      ok, victim := ReserveLocked();
      if !ok { return Full, victim; }
      entries := entries[id := Entry(hash, false, now, None)];
      a := Started;
    }

    /** The last section of execute publishes the reply. */
    method Complete(id: RequestID, reply: Reply, now: int)
      requires id in entries && !entries[id].finished
      modifies this
      ensures entries == Finished(old(entries), id, reply, now)
    {
      entries := entries[id := Entry(entries[id].hash, true, now, Some(reply))];
    }
  }

  class Supervisor {
    const instance: InstanceID
    var generation: nat
    var lifecycle: Lifecycle
    var alive: bool
    var config: nat

    ghost function Abs(): Interface
      reads this
    {
      Interface(instance, generation, lifecycle, alive, config)
    }

    constructor (instance: InstanceID, config: nat)
      ensures Abs() == Interface(instance, 0, Running, true, config)
    {
      this.instance, this.config, generation, lifecycle, alive := instance, config, 0, Running, true;
    }

    method CheckMutation(m: Mutation) returns (err: Option<Reply>)
      ensures err == MutationSpec.CheckMutation(Abs(), m)
    {
      if !m.sound { return Some(Failure(InvalidArgument)); }
      if m.instance != instance { return Some(Failure(Aborted)); }
      if m.expected != generation { return Some(Failure(Aborted)); }
      err := None;
    }

    method ApplyPeerRequest(m: Mutation, w: World) returns (reply: Reply)
      modifies this
      ensures Outcome(Abs(), reply) == ApplyOn(old(Abs()), m, w)
    {
      var err := CheckMutation(m);
      if err.Some? { return err.value; }
      if lifecycle != Running || !alive { return Failure(FailedPrecondition); }
      if !w.argumentsOk { return Failure(InvalidArgument); }
      if w.refusal.Some? { return Failure(w.refusal.value); }
      generation, config := generation + 1, m.config;
      reply := Success(generation);
    }

    method RestartRequest(m: Mutation, w: World) returns (reply: Reply)
      modifies this
      ensures Outcome(Abs(), reply) == RestartOn(old(Abs()), m, w)
    {
      if !w.nameOk { return Failure(InvalidArgument); }
      var err := CheckMutation(m);
      if err.Some? { return err.value; }
      if lifecycle != Running && lifecycle != Error { return Failure(FailedPrecondition); }
      if !w.argumentsOk { return Failure(InvalidArgument); }
      var failure := RestartLocked(m.config, w);
      if failure.Some? { return Failure(failure.value); }
      reply := if w.reports then Success(generation) else Failure(Unavailable);
    }

    /** Replaces the runtime; on failure the previous one is started again. */
    method RestartLocked(next: nat, w: World) returns (failure: Option<Code>)
      modifies this
      ensures failure == if !w.keyReserved then Some(AlreadyExists) else if (old(alive) && !w.closes) ||
              !w.starts then Some(Internal) else None
      ensures Abs() == if !w.keyReserved then old(Abs())
                       else if old(alive) && !w.closes then old(Abs()).(lifecycle := Error)
                       else if !w.starts then RollBack(old(Abs()).(alive := false), w).face
                       else old(Abs()).(generation := old(generation) + 1, lifecycle := Running, alive := true,
                           config := next)
    {
      var oldGeneration, oldLifecycle := generation, lifecycle;
      lifecycle := Restarting;
      if !w.keyReserved {
        lifecycle := oldLifecycle;
        return Some(AlreadyExists);
      }
      if alive {
        if !w.closes {
          lifecycle := Error;
          return Some(Internal);
        }
        alive := false;
      }
      if !w.starts {
        Rollback(oldGeneration, w);
        return Some(Internal);
      }
      alive, config, generation, lifecycle := true, next, oldGeneration + 1, Running;
      failure := None;
    }

    method Rollback(oldGeneration: nat, w: World)
      requires !alive && oldGeneration == generation
      modifies this
      ensures Abs() == if w.restarts then old(Abs()).(generation := oldGeneration + 1, lifecycle := Running,
              alive := true)
                       else old(Abs()).(lifecycle := Error)
    {
      lifecycle := RollingBack;
      if !w.restarts {
        alive, lifecycle := false, Error;
        return;
      }
      alive, generation, lifecycle := true, oldGeneration + 1, Running;
    }

    /** The runtime stopped on its own. */
    method Watch()
      modifies this
      ensures Abs() == if old(lifecycle) == Running then old(Abs()).(lifecycle := Error, alive := false) else old(Abs())
    {
      if lifecycle == Running { alive, lifecycle := false, Error; }
    }
  }
}
