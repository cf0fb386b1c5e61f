/** The reorder queue as it is built: a fixed array scanned linearly, with 32-bit
    modular comparisons, proved to do what the queue of positions does. */
module Reorderers {
  import opened Wire
  import opened Basics
  import opened PoolSpec
  import opened ProbeIndex
  import opened Reorder

  datatype Lane = Lane(peer: nat, session: u16, lane: u8)

  datatype LaneConfig = LaneConfig(enabled: bool, capacity: nat, maxDelay: int, lane: Lane)

  predicate LaneConfigOk(c: LaneConfig) {
    c.enabled ==> 0 < c.capacity < HALF && c.maxDelay > 0 && c.lane.session != 0
  }

  datatype ReorderError = WrongLane | OutputTooSmall

  type Entries = seq<Option<Packet>>

  /** Entry i, if used, is the packet held at its position pos[i]. */
  ghost predicate EntryOk(entries: Entries, pos: seq<nat>, at: map<nat, nat>, held: Held, i: nat) {
    i < |entries| == |pos| &&
        (entries[i].Some? ==> pos[i] in held && held[pos[i]] == entries[i].value && pos[i] in at && at[pos[i]] == i)
  }

  /** The packet held at p sits in entry at[p]. */
  ghost predicate HeldOk(entries: Entries, pos: seq<nat>, at: map<nat, nat>, held: Held, p: nat) {
    p in held && p in at && at[p] < |entries| == |pos| && pos[at[p]] == p && entries[at[p]] == Some(held[p])
  }

  /** pos and at tie each used entry to its position and back. */
  ghost predicate Stored(entries: Entries, pos: seq<nat>, at: map<nat, nat>, held: Held) {
    && |pos| == |entries|
    && (forall i {:trigger EntryOk(entries, pos, at, held, i)} ::
         0 <= i < |entries| ==> EntryOk(entries, pos, at, held, i))
    && (forall p {:trigger HeldOk(entries, pos, at, held, p)} :: p in held ==> HeldOk(entries, pos, at, held, p))
  }

  lemma StoreOne(entries: Entries, pos: seq<nat>, at: map<nat, nat>, held: Held, i: nat, p: nat, x: Packet)
    requires Stored(entries, pos, at, held) && i < |entries| && entries[i].None? && p !in held
    ensures Stored(entries[i := Some(x)], pos[i := p], at[p := i], held[p := x])
  {
    var e', p', a', h' := entries[i := Some(x)], pos[i := p], at[p := i], held[p := x];
    forall j | 0 <= j < |e'| ensures EntryOk(e', p', a', h', j) { assert EntryOk(entries, pos, at, held, j); }
    forall q | q in h' ensures HeldOk(e', p', a', h', q) { assert q != p ==> HeldOk(entries, pos, at, held, q); }
  }

  lemma DropOne(entries: Entries, pos: seq<nat>, at: map<nat, nat>, held: Held, i: nat)
    requires Stored(entries, pos, at, held) && i < |entries| && entries[i].Some?
    ensures pos[i] in held && Stored(entries[i := None], pos, at - {pos[i]}, held - {pos[i]})
  {
    assert EntryOk(entries, pos, at, held, i);
    var e', a', h' := entries[i := None], at - {pos[i]}, held - {pos[i]};
    forall j | 0 <= j < |e'| ensures EntryOk(e', pos, a', h', j) { assert EntryOk(entries, pos, at, held, j); }
    forall q | q in h' ensures HeldOk(e', pos, a', h', q) { assert HeldOk(entries, pos, at, held, q); }
  }

  /** Some entry is used exactly when some packet is held, and every held packet has an entry. */
  lemma EntriesShowHeld(entries: Entries, pos: seq<nat>, at: map<nat, nat>, held: Held, p: nat)
    requires Stored(entries, pos, at, held) && p in held
    ensures exists i :: 0 <= i < |entries| && entries[i].Some? && pos[i] == p
  {
    assert HeldOk(entries, pos, at, held, p);
  }

  lemma HasRoom(entries: Entries, pos: seq<nat>, at: map<nat, nat>, held: Held)
    requires Stored(entries, pos, at, held) && |held| < |entries|
    ensures exists i :: 0 <= i < |entries| && entries[i].None?
  {
    if forall i :: 0 <= i < |entries| ==> entries[i].Some? {
      forall i, j | 0 <= i < j < |pos| ensures pos[i] != pos[j] {
        assert EntryOk(entries, pos, at, held, i) && EntryOk(entries, pos, at, held, j);
      }
      EntriesCount(pos, |pos|);
      forall p | p in ProbeIndex.Entries(pos, |pos|) ensures p in held.Keys {
        var i :| 0 <= i < |pos| && pos[i] == p;
        assert EntryOk(entries, pos, at, held, i);
      }
      SubsetSize(ProbeIndex.Entries(pos, |pos|), held.Keys);
    }
  }

  class Reorderer {
    const config: LaneConfig
    const entries: array<Option<Packet>>
    var next: u32
    var count: nat
    var gapStartedAt: Option<int>
    ghost var base: nat
    ghost var held: Held
    ghost var pos: seq<nat>
    ghost var at: map<nat, nat>

    ghost function Abs(): Queue
      reads this
    {
      Queue(base, held, gapStartedAt)
    }

    /** The array holds exactly the held packets, none of them before base. */
    ghost predicate Bound()
      reads this, entries
    {
      && LaneConfigOk(config) && entries.Length == (if config.enabled then config.capacity else 0)
      && next == Wrap(base) && count == |held| && Stored(entries[..], pos, at, held)
      && AllFit(base, held)
    }

    ghost predicate Valid()
      reads this, entries
    {
      Bound() && QueueOk(Abs(), entries.Length)
    }

    constructor (config: LaneConfig, nextSequence: u32)
      requires LaneConfigOk(config)
      ensures Valid() && this.config == config && fresh(entries)
      ensures Abs() == Queue(nextSequence, map[], None)
    {
      this.config := config;
      entries := new Option<Packet>[if config.enabled then config.capacity else 0](i => None);
      next, count, gapStartedAt := nextSequence, 0, None;
      base, held, at := nextSequence, map[], map[];
      pos := seq<nat>(if config.enabled then config.capacity else 0, i => 0);
    }

    /** An entry's distance from next is its position's distance from base. */
    lemma EntryPosition(i: nat)
      requires Bound() && i < entries.Length && entries[i].Some?
      ensures pos[i] in held && held[pos[i]] == entries[i].value
      ensures Sub(entries[i].value.key.sequence, next) == pos[i] - base && base <= pos[i]
    {
      assert EntryOk(entries[..], pos, at, held, i);
      assert Fits(base, pos[i], held[pos[i]]);
      PositionIsFaithful(base, pos[i]);
    }

    method Contains(sequence: u32) returns (found: bool)
      requires Bound()
      ensures found <==> PositionOf(base, sequence) in held
    {
      var i := 0;
      ghost var p := PositionOf(base, sequence);
      PositionWraps(base, sequence);
      while i < entries.Length
        invariant 0 <= i <= entries.Length
        invariant forall j :: 0 <= j < i && entries[j].Some? ==> pos[j] != p
      {
        if entries[i].Some? {
          EntryPosition(i);
          if entries[i].value.key.sequence == sequence { return true; }
        }
        i := i + 1;
      }
      if p in held { EntriesShowHeld(entries[..], pos, at, held, p); }
      return false;
    }

    /** The entry whose sequence is next, or -1. */
    method FindNext() returns (index: int)
      requires Bound()
      ensures index == -1 ==> base !in held
      ensures index != -1 ==> 0 <= index < entries.Length && entries[index].Some? && pos[index] == base
    {
      var i := 0;
      while i < entries.Length
        invariant 0 <= i <= entries.Length
        invariant forall j :: 0 <= j < i && entries[j].Some? ==> pos[j] != base
      {
        if entries[i].Some? {
          EntryPosition(i);
          if entries[i].value.key.sequence == next { return i; }
        }
        i := i + 1;
      }
      if base in held { EntriesShowHeld(entries[..], pos, at, held, base); }
      return -1;
    }

    /** The entry closest ahead of next, or -1 when there is none. */
    method ClosestAhead() returns (best: int)
      requires Bound()
      ensures best == -1 <==> held == map[]
      ensures best != -1 ==> 0 <= best < entries.Length && entries[best].Some? && IsLeast(held.Keys, pos[best])
    {
      best := -1;
      var i := 0;
      while i < entries.Length
        invariant 0 <= i <= entries.Length && -1 <= best < i
        invariant best == -1 ==> forall j :: 0 <= j < i ==> entries[j].None?
        invariant best != -1 ==>
                  entries[best].Some? && forall j :: 0 <= j < i && entries[j].Some? ==> pos[best] <= pos[j]
      {
        if entries[i].Some? {
          EntryPosition(i);
          if best >= 0 { EntryPosition(best); }
          if best < 0 || Sub(entries[i].value.key.sequence, next) < Sub(entries[best].value.key.sequence, next) {
            best := i;
          }
        }
        i := i + 1;
      }
      forall p | p in held ensures best != -1 && pos[best] <= p { EntriesShowHeld(entries[..], pos, at, held, p); }
      if best != -1 {
        EntryPosition(best);
      }
    }

    /** Empties one entry. */
    method Take(index: nat) returns (packet: Packet)
      requires Bound() && index < entries.Length && entries[index].Some?
      modifies entries, `count, `held, `at
      ensures Bound() && old(pos[index]) in old(held) && packet == old(held)[old(pos[index])] &&
              held == old(held) - {old(pos[index])}
    {
      EntryPosition(index);
      HeldAhead(base, held);
      DropOne(entries[..], pos, at, held, index);
      RemoveShrinks(held, pos[index]);
      packet := entries[index].value;
      ghost var before := entries[..];
      entries[index] := None;
      assert entries[..] == before[index := None];
      count := count - 1;
      FitLater(base, base, held, held - {pos[index]});
      at, held := at - {pos[index]}, held - {pos[index]};
    }

    /** Moves next behind position m. */
    method Advance(sequence: u32, ghost m: nat)
      requires Bound() && Wrap(m) == sequence && base <= m && forall p :: p in held ==> m < p
      modifies `next, `base
      ensures Bound() && base == m + 1
    {
      FitLater(base, m + 1, held, held);
      next := if sequence == MOD - 1 then 0 else sequence + 1;
      base := m + 1;
    }

    /** Takes the entry at index, whose position comes before all others. */
    method TakeFirst(index: nat) returns (packet: Packet)
      requires Bound() && index < entries.Length && entries[index].Some? && IsLeast(held.Keys, pos[index])
      modifies entries, `count, `held, `at, `base, `next
      ensures Bound() && packet == old(held)[old(pos[index])] && held == old(held) - {old(pos[index])} &&
              base == old(pos[index]) + 1
      ensures count == old(count) - 1
    {
      ghost var m := pos[index];
      EntryPosition(index);
      RemoveShrinks(held, m);
      packet := Take(index);
      Advance(packet.key.sequence, m);
    }

    /** Delivers what follows next without a gap. */
    method DrainContiguous() returns (out: seq<Packet>)
      requires Bound()
      modifies entries, `count, `held, `at, `base, `next
      ensures Bound()
      ensures base == DrainFrom(old(base), old(held)).0 && held == DrainFrom(old(base), old(held)).1
      ensures out == Packets(DrainFrom(old(base), old(held)).2)
    {
      out := [];
      ghost var start: nat, all: Held, sent: seq<Slotted> := base, held, [];
      while true
        invariant Bound() && out == Packets(sent) && base == start + |sent| && IsRun(start, all, sent, held)
        decreases count
      {
        ghost var b: nat, h: Held := base, held;
        var more, packet := DrainStep();
        if !more {
          RunIsDrain(start, all, sent, held);
          return;
        }
        RunGrows(start, all, sent, h);
        PacketsSnoc(sent, At(b, packet));
        out, sent := out + [packet], sent + [At(b, packet)];
      }
    }

    method DrainStep() returns (more: bool, packet: Packet)
      requires Bound()
      modifies entries, `count, `held, `at, `base, `next
      ensures Bound() && more == (old(base) in old(held))
      ensures more ==>
              packet == old(held)[old(base)] && held == old(held) - {old(base)} && base == old(base) + 1 &&
              count < old(count)
      ensures !more ==> held == old(held) && base == old(base)
    {
      HeldAhead(base, held);
      var index := FindNext();
      if index < 0 { return false, Packet(Handle(0, 0), NO_KEY, []); }
      assert IsLeast(held.Keys, pos[index]) by { EntryPosition(index); }
      packet := TakeFirst(index);
      return true, packet;
    }

    /** Delivers everything held, closest first. */
    method FlushHeld() returns (out: seq<Packet>)
      requires Bound()
      modifies this, entries
      ensures Bound() && Abs() == Queue(FlushFrom(old(base), old(held)).0, map[], None)
      ensures out == Packets(FlushFrom(old(base), old(held)).1)
    {
      out := [];
      ghost var goal, sent: seq<Slotted> := FlushFrom(base, held), [];
      while count > 0
        invariant Bound() && out == Packets(sent) && Flushing(goal, sent, base, held)
      {
        var index := ClosestAhead();
        FlushOne(goal, sent, base, held, pos[index]);
        ghost var x := At(pos[index], held[pos[index]]);
        PacketsSnoc(sent, x);
        var packet := TakeFirst(index);
        out, sent := out + [packet], sent + [x];
      }
      FlushDone(goal, sent, base);
      gapStartedAt := None;
    }

    /** Where a packet still to be flushed belongs: not held, and congruent to its
        sequence; a repeated one a cycle behind the held packet of its sequence. */
    ghost predicate Waiting(packet: Packet, v: nat)
      reads this
    {
      && v !in held && Wrap(v) == packet.key.sequence && base <= v
      && (v < base + MOD || (v - MOD in held && v < base + MOD + HALF))
    }

    /** The modular comparison puts the waiting packet first exactly when its position is first. */
    lemma WaitingOrder(packet: Packet, v: nat, index: int)
      requires Bound() && Waiting(packet, v)
      requires index == -1 ==> held == map[]
      requires index != -1 ==> 0 <= index < entries.Length && entries[index].Some? && IsLeast(held.Keys, pos[index])
      ensures index == -1 || Sub(packet.key.sequence, next) < Sub(entries[index].value.key.sequence, next) ==>
                forall p :: p in held ==> v < p
      ensures index != -1 && Sub(packet.key.sequence, next) >= Sub(entries[index].value.key.sequence, next) ==>
              pos[index] < v
    {
      HeldAhead(base, held);
      if index != -1 { EntryPosition(index); }
      PositionIsFaithful(base, if v < base + MOD then v else v - MOD);
    }

    lemma WaitingAtStart(packet: Packet)
      requires Valid()
      ensures Waiting(packet, IncludedAt(Abs(), packet))
    {
      HeldAhead(base, held);
      PositionWraps(base, packet.key.sequence);
    }

    /** Delivers everything held together with packet, in order of distance. */
    method FlushHeldWith(packet: Packet) returns (out: seq<Packet>)
      requires Valid()
      modifies this, entries
      ensures Bound() && Abs() == FlushIncludingQueue(old(Abs()), packet).queue
      ensures out == Packets(FlushIncludingQueue(old(Abs()), packet).out)
    {
      out := [];
      ghost var v := IncludedAt(Abs(), packet);
      WaitingAtStart(packet);
      ghost var goal, sent: seq<Slotted> := FlushFrom(base, held[v := packet]), [];
      var waiting := true;
      while count > 0 || waiting
        invariant Bound() && out == Packets(sent)
        invariant waiting ==> Waiting(packet, v) && FlushingWith(goal, sent, base, held, v, packet)
        invariant !waiting ==> Flushing(goal, sent, base, held)
        decreases count, waiting
      {
        out, sent, waiting := FlushWithStep(packet, out, waiting, goal, sent, v);
      }
      FlushDone(goal, sent, base);
      gapStartedAt := None;
    }

    method FlushWithStep(packet: Packet, out: seq<Packet>, waiting: bool, ghost goal: (nat, seq<Slotted>),
                         ghost sent: seq<Slotted>, ghost v: nat)
      returns (out': seq<Packet>, ghost sent': seq<Slotted>, waiting': bool)
      requires Bound() && (count > 0 || waiting) && out == Packets(sent)
      requires waiting ==> Waiting(packet, v) && FlushingWith(goal, sent, base, held, v, packet)
      requires !waiting ==> Flushing(goal, sent, base, held)
      modifies entries, `count, `held, `at, `base, `next
      ensures Bound() && out' == Packets(sent')
      ensures waiting' ==> waiting && Waiting(packet, v) && FlushingWith(goal, sent', base, held, v, packet)
      ensures !waiting' ==> Flushing(goal, sent', base, held)
      ensures count < old(count) || (count == old(count) && waiting && !waiting')
    {
      var index := ClosestAhead();
      if waiting { WaitingOrder(packet, v, index); }
      if waiting && (index < 0 || Sub(packet.key.sequence, next) < Sub(entries[index].value.key.sequence, next)) {
        FlushExtra(goal, sent, base, held, v, packet);
        PacketsSnoc(sent, At(v, packet));
        Advance(packet.key.sequence, v);
        return out + [packet], sent + [At(v, packet)], false;
      }
      ghost var x := At(pos[index], held[pos[index]]);
      if waiting {
        FlushBeforeExtra(goal, sent, base, held, v, packet, pos[index]);
        WaitingStays(packet, v, pos[index]);
      } else {
        FlushOne(goal, sent, base, held, pos[index]);
      }
      PacketsSnoc(sent, x);
      var first := TakeFirst(index);
      return out + [first], sent + [x], waiting;
    }

    lemma WaitingStays(packet: Packet, v: nat, m: nat)
      requires Bound() && Waiting(packet, v) && m in held && m < v
      ensures v !in held - {m} && m + 1 <= v && (v < m + 1 + MOD || (v - MOD in held - {m} && v < m + 1 + MOD + HALF))
    {
      HeldAhead(base, held);
    }

    /** Puts packet into the first unused entry. */
    method Insert(packet: Packet, ghost p: nat)
      requires Bound() && count < entries.Length && p !in held && Fits(base, p, packet)
      modifies entries, `count, `held, `at, `pos
      ensures Bound() && held == old(held)[p := packet]
    {
      HasRoom(entries[..], pos, at, held);
      var i := 0;
      while entries[i].Some?
        invariant 0 <= i < entries.Length && exists j :: i <= j < entries.Length && entries[j].None?
        decreases entries.Length - i
      {
        i := i + 1;
      }
      StoreOne(entries[..], pos, at, held, i, p, packet);
      ghost var before, held' := entries[..], held[p := packet];
      forall q | q in held' ensures Fits(base, q, held'[q]) { assert q != p ==> Fits(base, q, held[q]); }
      entries[i] := Some(packet);
      assert entries[..] == before[i := Some(packet)];
      count := count + 1;
      pos, at, held := pos[i := p], at[p := i], held';
    }

    predicate MatchesLane(packet: Packet) {
      config.enabled ==>
          packet.key.peer == config.lane.peer && packet.key.session == config.lane.session &&
          packet.key.lane == config.lane.lane
    }

    /** Handles one completed packet; outLen is the room in the caller's buffer. */
    method Accept(now: int, packet: Packet, outLen: nat)
      returns (err: Option<ReorderError>, fate: Fate, out: seq<Packet>)
      requires Valid()
      modifies this, entries
      ensures Valid()
      ensures err == if !MatchesLane(packet) then Some(WrongLane)
              else if outLen < entries.Length + 1 then Some(OutputTooSmall) else None
      ensures err.Some? ==> Abs() == old(Abs()) && out == []
      ensures err.None? && !config.enabled ==> Abs() == old(Abs()) && fate == Delivered && out == [packet]
      ensures err.None? && config.enabled ==> Abs() == AcceptQueue(entries.Length, old(Abs()), now, packet).queue
      ensures err.None? && config.enabled ==> fate == AcceptQueue(entries.Length, old(Abs()), now, packet).fate
      ensures err.None? && config.enabled ==> out == Packets(AcceptQueue(entries.Length, old(Abs()), now, packet).out)
    {
      out, err, fate := [], None, Delivered;
      if !MatchesLane(packet) { return Some(WrongLane), fate, []; }
      if outLen < entries.Length + 1 { return Some(OutputTooSmall), fate, []; }
      if !config.enabled { return None, Delivered, [packet]; }
      ghost var q := Abs();
      ghost var m := AcceptQueue(entries.Length, q, now, packet);
      AcceptQueueKeeps(entries.Length, q, now, packet);
      var sequence := packet.key.sequence;
      PositionWraps(base, sequence);
      if sequence == next {
        out := DeliverNext(packet);
        return None, Delivered, out;
      }
      if !AheadOf(sequence, next) { return None, Late, []; }
      var found := Contains(sequence);
      if found { return None, Repeated, []; }
      if count == entries.Length {
        out := FlushHeldWith(packet);
        return None, Flushed, out;
      }
      Insert(packet, PositionOf(base, sequence));
      if count == 1 { gapStartedAt := Some(now); }
      return None, Queued, [];
    }

    /** The in-order case: the packet itself, then all that waited for it. */
    method DeliverNext(packet: Packet) returns (out: seq<Packet>)
      requires Valid() && packet.key.sequence == next
      modifies this, entries
      ensures Bound()
      ensures base == DrainFrom(old(base) + 1, old(held)).0 && held == DrainFrom(old(base) + 1, old(held)).1
      ensures gapStartedAt == if held == map[] then None else old(gapStartedAt)
      ensures out == Packets([At(old(base), packet)] + DrainFrom(old(base) + 1, old(held)).2)
    {
      HeldAhead(base, held);
      Advance(next, base);
      var rest := DrainContiguous();
      out := [packet] + rest;
      if count == 0 { gapStartedAt := None; }
      PacketsCons(At(old(base), packet), DrainFrom(old(base) + 1, old(held)).2);
      assert count == 0 <==> held == map[];
    }

    method Tick(now: int, outLen: nat) returns (err: Option<ReorderError>, out: seq<Packet>)
      requires Valid()
      modifies this, entries
      ensures Valid()
      ensures err.Some? <==> config.enabled && Overdue(old(Abs()), config.maxDelay, now) && outLen < entries.Length
      ensures err.Some? ==> Abs() == old(Abs()) && out == []
      ensures err.None? ==>
              Abs() == TickQueue(old(Abs()), config.maxDelay, now).queue &&
              out == Packets(TickQueue(old(Abs()), config.maxDelay, now).out)
    {
      HeldAhead(base, held);
      HeldPlaced(base, held);
      FlushQueueKeeps(Abs(), entries.Length);
      assert !config.enabled ==> |held| == 0;
      if !config.enabled || count == 0 || now < gapStartedAt.value + config.maxDelay { return None, []; }
      if outLen < entries.Length { return Some(OutputTooSmall), []; }
      out := FlushHeld();
      return None, out;
    }

    method Flush(outLen: nat) returns (err: Option<ReorderError>, out: seq<Packet>)
      requires Valid()
      modifies this, entries
      ensures Valid()
      ensures err.Some? <==> old(held) != map[] && outLen < entries.Length
      ensures err.Some? ==> Abs() == old(Abs()) && out == []
      ensures err.None? ==> Abs() == FlushQueue(old(Abs())).queue && out == Packets(FlushQueue(old(Abs())).out)
    {
      HeldAhead(base, held);
      HeldPlaced(base, held);
      FlushQueueKeeps(Abs(), entries.Length);
      if !config.enabled || count == 0 { return None, []; }
      if outLen < entries.Length { return Some(OutputTooSmall), []; }
      out := FlushHeld();
      return None, out;
    }

    method FlushIncluding(packet: Packet, outLen: nat) returns (err: Option<ReorderError>, out: seq<Packet>)
      requires Valid()
      modifies this, entries
      ensures Valid()
      ensures err == if config.enabled && !MatchesLane(packet) then Some(WrongLane)
                     else if outLen < entries.Length + 1 then Some(OutputTooSmall) else None
      ensures err.Some? ==> Abs() == old(Abs()) && out == []
      ensures err.None? && !config.enabled ==> Abs() == old(Abs()) && out == [packet]
      ensures err.None? && config.enabled ==>
                Abs() == FlushIncludingQueue(old(Abs()), packet).queue &&
                    out == Packets(FlushIncludingQueue(old(Abs()), packet).out)
    {
      if !config.enabled {
        if outLen < 1 { return Some(OutputTooSmall), []; }
        return None, [packet];
      }
      if !MatchesLane(packet) { return Some(WrongLane), []; }
      if outLen < entries.Length + 1 { return Some(OutputTooSmall), []; }
      FlushIncludingKeeps(Abs(), packet, entries.Length);
      out := FlushHeldWith(packet);
      return None, out;
    }

    method WouldQueue(sequence: u32) returns (yes: bool)
      requires Valid()
      ensures yes <==> config.enabled && Reorder.WouldQueue(entries.Length, Abs(), sequence)
    {
      if !config.enabled || sequence == next || !AheadOf(sequence, next) { return false; }
      var found := Contains(sequence);
      if found { return false; }
      return count < entries.Length;
    }
  }

  /** Refuses exactly the configurations outside LaneConfigOk. */
  method NewReorderer(config: LaneConfig, nextSequence: u32) returns (r: Option<Reorderer>)
    ensures r.Some? <==> LaneConfigOk(config)
    ensures r.Some? ==> fresh(r.value) && r.value.Valid() && r.value.config == config
    ensures r.Some? ==> r.value.Abs() == Queue(nextSequence, map[], None)
  {
    if config.enabled &&
        (config.capacity <= 0 || config.capacity >= HALF || config.maxDelay <= 0 || config.lane.session == 0) {
      return None;
    }
    var reorderer := new Reorderer(config, nextSequence);
    r := Some(reorderer);
  }
}
