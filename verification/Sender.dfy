/** Lane sequence numbers of the sender (internal/core/datapath/sender.go) and
    their carry-over when a sender is replaced (internal/wgadapter/shimtun/device.go). */
module Senders {
  import opened Wire
  import opened Reorder

  const MAX_LIFETIME := 60_000_000_000

  /** A successful Add on one lane: which one it was in this session, the clock
      when it was admitted and when it was done, and the reuse wait in force. */
  datatype Use = Use(pos: nat, begun: int, done: int, wait: int)

  /** The sequence number an Add sent. */
  function Sequence(u: Use): u32 { Wrap(u.pos) }

  predicate EndsCycle(u: Use) { Wrap(u.pos + 1) == 0 }

  /** One use after another: consecutive, in time order, and across a wrap at
      least the wait apart. */
  predicate Follows(u: Use, v: Use) {
    v.pos == u.pos + 1 && u.done <= v.begun && (EndsCycle(u) ==> u.done + u.wait <= v.begun)
  }

  predicate Linked(uses: seq<Use>, i: nat) {
    i + 1 < |uses| ==> Follows(uses[i], uses[i + 1])
  }

  ghost predicate UsesOk(uses: seq<Use>) {
    && (uses != [] ==> uses[0].pos == 0)
    && (forall i {:trigger uses[i]} :: 0 <= i < |uses| ==> uses[i].begun <= uses[i].done && uses[i].wait > 0)
    && (forall i {:trigger Linked(uses, i)} :: 0 <= i < |uses| ==> Linked(uses, i))
  }

  lemma {:induction false} PositionsCount(uses: seq<Use>, i: nat)
    requires UsesOk(uses) && i < |uses|
    ensures uses[i].pos == i
  {
    if i > 0 {
      PositionsCount(uses, i - 1);
      assert Linked(uses, i - 1);
    }
  }

  lemma {:induction false} TimeOrder(uses: seq<Use>, i: nat, j: nat)
    requires UsesOk(uses) && i < j < |uses|
    ensures uses[i].done <= uses[j].begun
    decreases j
  {
    assert Linked(uses, j - 1);
    if i < j - 1 { TimeOrder(uses, i, j - 1); }
  }

  /** Two Adds of one session that send the same sequence number on a lane are
      apart by the wait in force at a wrap between them. */
  lemma ReuseIsALifetimeApart(uses: seq<Use>, i: nat, j: nat) returns (w: nat)
    requires UsesOk(uses) && i < j < |uses| && Sequence(uses[i]) == Sequence(uses[j])
    ensures i <= w < j && EndsCycle(uses[w]) && uses[j].begun >= uses[i].done + uses[w].wait
  {
    PositionsCount(uses, i);
    PositionsCount(uses, j);
    w := i + (MOD - 1 - Wrap(i));
    assert Wrap(w + 1) == 0 && w < j;
    PositionsCount(uses, w);
    assert Linked(uses, w);
    if i < w { TimeOrder(uses, i, w); }
    if w + 1 < j { TimeOrder(uses, w + 1, j); }
  }

  /** The lane's next number and pause agree with its uses; clock is the latest time read. */
  ghost predicate LaneOk(uses: seq<Use>, next: u32, block: int, clock: int) {
    && UsesOk(uses) && next == Wrap(|uses|) && 0 < clock
    && (uses != [] ==> uses[|uses| - 1].done <= clock)
    && (uses == [] || !EndsCycle(uses[|uses| - 1]) ==> block == 0)
    && (uses != [] && EndsCycle(uses[|uses| - 1]) ==>
          var u := uses[|uses| - 1]; if block == 0 then u.done + u.wait <= clock else block == u.done + u.wait)
  }

  lemma Waits(uses: seq<Use>, next: u32, block: int, clock: int, now: int)
    requires LaneOk(uses, next, block, clock) && clock <= now && (block == 0 || block <= now)
    ensures LaneOk(uses, next, 0, now)
  {}

  lemma Passes(uses: seq<Use>, next: u32, block: int, clock: int, now: int)
    requires LaneOk(uses, next, block, clock) && clock <= now
    ensures LaneOk(uses, next, block, now)
  {}

  lemma Uses(uses: seq<Use>, next: u32, begun: int, done: int, wait: int)
    requires LaneOk(uses, next, 0, begun) && begun <= done && wait > 0
    ensures LaneOk(uses + [Use(|uses|, begun, done, wait)], Wrap(next as nat + 1),
            if Wrap(next as nat + 1) == 0 then done + wait else 0, done)
  {
    var u := Use(|uses|, begun, done, wait);
    var uses' := uses + [u];
    if uses != [] { PositionsCount(uses, |uses| - 1); }
    forall i | 0 <= i < |uses'| ensures Linked(uses', i) { assert i < |uses| ==> Linked(uses, i); }
    assert Wrap(next as nat + 1) == Wrap(|uses| + 1);
  }

  datatype SendError = InnerInvalid | InnerDest | PeerMTU | LaneWrap | PacketizerFailed

  class Sender {
    const session: u16
    const reuseWait: int
    const sequences: array<u32>
    const wrapBlocks: array<int>
    /** This session's uses by lane, and the latest clock reading. */
    ghost var uses: seq<seq<Use>>
    ghost var clock: int

    ghost predicate Valid()
      reads this, sequences, wrapBlocks
    {
      && sequences.Length == wrapBlocks.Length == LANES == |uses| && (sequences as object) != wrapBlocks &&
           reuseWait > 0
      && (forall l {:trigger Lane(l)} :: 0 <= l < LANES ==> Lane(l))
    }

    ghost predicate Lane(l: nat)
      reads this, sequences, wrapBlocks
    {
      l < |uses| && l < sequences.Length && l < wrapBlocks.Length && LaneOk(uses[l], sequences[l], wrapBlocks[l], clock)
    }

    /** A sender for a new session. */
    constructor Open(session: u16, lifetime: int, now: int)
      requires now > 0
      ensures Valid() && this.session == session && clock == now && (forall l :: 0 <= l < LANES ==> uses[l] == [])
      ensures fresh(sequences) && fresh(wrapBlocks) && reuseWait == if lifetime <= 0 then MAX_LIFETIME else lifetime
    {
      this.session, reuseWait := session, if lifetime <= 0 then MAX_LIFETIME else lifetime;
      sequences := new u32[LANES](_ => 0);
      wrapBlocks := new int[LANES](_ => 0);
      uses, clock := seq(LANES, _ => []), now;
    }

    /** A replacement in the same session takes over the numbers and pauses. */
    constructor Replace(other: Sender, lifetime: int)
      requires other.Valid()
      ensures Valid() && session == other.session && uses == other.uses && clock == other.clock
      ensures fresh(sequences) && fresh(wrapBlocks) && reuseWait == if lifetime <= 0 then MAX_LIFETIME else lifetime
    {
      session, reuseWait := other.session, if lifetime <= 0 then MAX_LIFETIME else lifetime;
      sequences := new u32[LANES](i requires 0 <= i < LANES &&
          other.sequences.Length == LANES reads other.sequences => other.sequences[i]);
      wrapBlocks := new int[LANES](i requires 0 <= i < LANES &&
          other.wrapBlocks.Length == LANES reads other.wrapBlocks => other.wrapBlocks[i]);
      uses, clock := other.uses, other.clock;
      new;
      forall l | 0 <= l < LANES ensures Lane(l) { assert other.Lane(l); }
    }

    /** Sends one packet on a lane. checks is what parsing, routing and the peer's
        MTU say of it; begun and done are the clock before and after packing;
        packs is what the packetizer answers. */
    method Add(checks: Option<SendError>, lane: nat, begun: int, done: int, packs: bool)
      returns (err: Option<SendError>)
      requires Valid() && lane < LANES && clock <= begun <= done
      modifies sequences, wrapBlocks, `uses, `clock
      ensures Valid() && clock == done
      ensures err == if checks.Some? then checks else if old(wrapBlocks[lane]) != 0 &&
              begun < old(wrapBlocks[lane]) then Some(LaneWrap) else if !packs then Some(PacketizerFailed) else None
      ensures uses == if err.None?
              then old(uses)[lane := old(uses)[lane] + [Use(|old(uses)[lane]|, begun, done, reuseWait)]] else old(uses)
    {
      assert Lane(lane);
      forall l | 0 <= l < LANES ensures LaneOk(uses[l], sequences[l], wrapBlocks[l], done) {
        assert Lane(l);
        Passes(uses[l], sequences[l], wrapBlocks[l], clock, done);
      }
      if checks.Some? {
        clock := done;
        return checks;
      }
      if wrapBlocks[lane] != 0 && begun < wrapBlocks[lane] {
        clock := done;
        return Some(LaneWrap);
      }
      Waits(uses[lane], sequences[lane], wrapBlocks[lane], clock, begun);
      Passes(uses[lane], sequences[lane], 0, begun, done);
      wrapBlocks[lane] := 0;
      if !packs {
        clock := done;
        return Some(PacketizerFailed);
      }
      Uses(uses[lane], sequences[lane], begun, done, reuseWait);
      sequences[lane] := Wrap(sequences[lane] as nat + 1);
      if sequences[lane] == 0 { wrapBlocks[lane] := done + reuseWait; }
      uses := uses[lane := uses[lane] + [Use(|uses[lane]|, begun, done, reuseWait)]];
      clock := done;
      err := None;
    }
  }

  /** InstallDataPlane: the session decides whether the lanes go on or start afresh. */
  method InstallDataPlane(running: Sender, session: u16, lifetime: int, now: int) returns (next: Sender)
    requires running.Valid() && running.clock <= now
    ensures fresh(next) && next.Valid() && next.session == session
    ensures session == running.session ==> next.uses == running.uses
    ensures session != running.session ==> forall l :: 0 <= l < LANES ==> next.uses[l] == []
  {
    if session == running.session {
      next := new Sender.Replace(running, lifetime);
    } else {
      assert running.Lane(0);
      next := new Sender.Open(session, lifetime, now);
    }
  }
}
