/** Idempotent mutations (manager/mutation_cache.go) on interfaces with generations
    (manager/interface_supervisor.go), as interleaved steps. */
module MutationSpec {
  import opened Wire

  type RequestID = seq<byte>
  type Hash = seq<byte>
  type InstanceID = seq<byte>

  datatype Code = InvalidArgument | Aborted | FailedPrecondition | AlreadyExists | ResourceExhausted | Internal
      | Unavailable

  /** What a mutation answers: the generation reached, or an error. */
  datatype Reply = Success(generation: nat) | Failure(code: Code)

  // ----- the request cache

  datatype Entry = Entry(hash: Hash, finished: bool, at: int, reply: Option<Reply>)

  type Cache = map<RequestID, Entry>

  predicate Stale(e: Entry, now: int, lifetime: int) {
    e.finished && now - e.at > lifetime
  }

  function Prune(c: Cache, now: int, lifetime: int): Cache {
    if lifetime <= 0 then c else map id | id in c && !Stale(c[id], now, lifetime) :: c[id]
  }

  /** victim is a finished entry, none older. */
  ghost predicate IsOldest(c: Cache, victim: RequestID) {
    victim in c && c[victim].finished && forall id :: id in c && c[id].finished ==> c[victim].at <= c[id].at
  }

  predicate HasRoom(c: Cache, capacity: int) { capacity <= 0 || |c| < capacity }

  /** Making room takes nothing, or the victim. */
  ghost predicate Reserved(c: Cache, capacity: int, victim: Option<RequestID>) {
    if HasRoom(c, capacity) then victim == None else victim.Some? && IsOldest(c, victim.value)
  }

  function Without(c: Cache, victim: Option<RequestID>): Cache {
    if victim.Some? then c - {victim.value} else c
  }

  function Finished(c: Cache, id: RequestID, reply: Reply, now: int): Cache {
    if id in c then c[id := Entry(c[id].hash, true, now, Some(reply))] else c
  }

  // ----- one interface

  datatype Lifecycle = Starting | Running | Restarting | RollingBack | Deleting | Error

  datatype Interface = Interface(instance: InstanceID, generation: nat, lifecycle: Lifecycle, alive: bool, config: nat)

  /** What the world answers during an operation; refusal is the code with which
      the runtime refuses new peers. */
  datatype World = World(
    nameOk: bool, argumentsOk: bool, keyReserved: bool, closes: bool, refusal: Option<Code>, starts: bool,
        restarts: bool,
    reports: bool)

  /** sound says that the request has a mutation context with a well-formed identifier. */
  datatype Mutation =
    | ApplyPeers(sound: bool, instance: InstanceID, expected: nat, config: nat)
    | Restart(sound: bool, instance: InstanceID, expected: nat, config: nat)

  datatype Outcome = Outcome(face: Interface, reply: Reply)

  function CheckMutation(f: Interface, m: Mutation): Option<Reply> {
    if !m.sound then Some(Failure(InvalidArgument))
    else if m.instance != f.instance || m.expected != f.generation then Some(Failure(Aborted)) else None
  }

  function ApplyOn(f: Interface, m: Mutation, w: World): Outcome {
    if CheckMutation(f, m).Some? then Outcome(f, CheckMutation(f, m).value)
    else if f.lifecycle != Running || !f.alive then Outcome(f, Failure(FailedPrecondition))
    else if !w.argumentsOk then Outcome(f, Failure(InvalidArgument))
    else if w.refusal.Some? then Outcome(f, Failure(w.refusal.value))
    else Outcome(f.(generation := f.generation + 1, config := m.config), Success(f.generation + 1))
  }

  /** The previous configuration is started again; that too is a new generation. */
  function RollBack(f: Interface, w: World): Outcome {
    if !w.restarts then Outcome(f.(lifecycle := Error, alive := false), Failure(Internal))
    else Outcome(f.(generation := f.generation + 1, lifecycle := Running, alive := true), Failure(Internal))
  }

  function RestartOn(f: Interface, m: Mutation, w: World): Outcome {
    if !w.nameOk then Outcome(f, Failure(InvalidArgument))
    else if CheckMutation(f, m).Some? then Outcome(f, CheckMutation(f, m).value)
    else if f.lifecycle != Running && f.lifecycle != Error then Outcome(f, Failure(FailedPrecondition))
    else if !w.argumentsOk then Outcome(f, Failure(InvalidArgument))
    else if !w.keyReserved then Outcome(f, Failure(AlreadyExists))
    else if f.alive && !w.closes then Outcome(f.(lifecycle := Error), Failure(Internal))
    else if !w.starts then RollBack(f.(alive := false), w)
    else
      Outcome(f.(generation := f.generation + 1, lifecycle := Running, alive := true, config := m.config),
              if w.reports then Success(f.generation + 1) else Failure(Unavailable))
  }

  function PerformOn(f: Interface, m: Mutation, w: World): Outcome {
    if m.ApplyPeers? then ApplyOn(f, m, w) else RestartOn(f, m, w)
  }

  /** An operation succeeds only at the generation it expects and moves past it;
      no operation moves the generation back. */
  lemma PerformMovesOn(f: Interface, m: Mutation, w: World)
    ensures var o := PerformOn(f, m, w);
            && o.face.instance == f.instance && f.generation <= o.face.generation <= f.generation + 1
            && (o.reply.Success? ==>
                 m.instance == f.instance && m.expected == f.generation && o.face.generation == f.generation + 1)
            && (o.face.generation > f.generation ==> m.expected == f.generation)
  {}

  /** When an operation succeeds: never on another instance or generation, a peer
      update only on a running interface, a restart also after an error. */
  lemma SucceedsExactly(f: Interface, m: Mutation, w: World)
    ensures PerformOn(f, m, w).reply.Success?
            <==> && m.sound && m.instance == f.instance && m.expected == f.generation && w.argumentsOk
                 && (m.ApplyPeers? ==> f.lifecycle.Running? && f.alive && w.refusal.None?)
                 && (m.Restart? ==> (f.lifecycle.Running? || f.lifecycle.Error?) && w.nameOk && w.keyReserved &&
                                    (f.alive ==> w.closes) && w.starts && w.reports)
  {}

  /** A malformed request is told so; one for another instance or generation is
      aborted; either changes nothing. */
  lemma StaleIsAborted(f: Interface, m: Mutation, w: World)
    requires m.Restart? ==> w.nameOk
    ensures !m.sound ==> PerformOn(f, m, w) == Outcome(f, Failure(InvalidArgument))
    ensures m.sound && (m.instance != f.instance || m.expected != f.generation) ==>
              PerformOn(f, m, w) == Outcome(f, Failure(Aborted))
  {}

  /** A restart that got past its checks never leaves the interface as it was: it
      runs at a new generation, with the new configuration or the old, or is an
      error. */
  lemma RestartLeavesItsMark(f: Interface, m: Mutation, w: World)
    requires m.Restart? && m.sound && m.instance == f.instance && m.expected == f.generation
    requires (f.lifecycle.Running? || f.lifecycle.Error?) && w.nameOk && w.argumentsOk && w.keyReserved
    ensures var o := RestartOn(f, m, w);
            && (o.face.lifecycle == Error || (o.face.lifecycle == Running && o.face.generation == f.generation + 1))
            && (o.face.lifecycle == Running ==>
                 o.face.alive && o.face.config == if w.starts then m.config else f.config)
            && (o.face.lifecycle == Error ==> o.reply == Failure(Internal))
  {}

  /** A success reports the new generation and leaves the new configuration
      running. */
  lemma SuccessRuns(f: Interface, m: Mutation, w: World)
    ensures var o := PerformOn(f, m, w);
            o.reply.Success? ==>
              && o.reply.generation == o.face.generation && o.face.config == m.config
              && o.face.lifecycle == Running && o.face.alive
  {}

  /** A peer update that fails changes nothing. A restart that fails leaves the old
      configuration, unless the new one runs and only the report was lost; nothing
      but a restart takes the interface down. */
  lemma FailureRollsBack(f: Interface, m: Mutation, w: World)
    ensures var o := PerformOn(f, m, w);
            o.reply.Failure? ==>
              && (m.ApplyPeers? ==> o.face == f)
              && (m.instance != f.instance || m.expected != f.generation || !m.sound ==> o.face == f)
              && (o.face.config != f.config ==> o.reply == Failure(Unavailable) && o.face.config == m.config)
              && (o.face.generation == f.generation && o.face != f ==> o.face.lifecycle == Error)
              && (o.face.generation > f.generation ==> o.face.lifecycle == Running && o.face.alive)
  {}
}
