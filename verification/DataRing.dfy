/** The shared DATA carrier ring (internal/wgadapter/shimtun/device.go) as a FIFO
    of peer and payload. The slab is kept as one row of bytes per slot. */
module DataRings {
  import opened Wire
  import opened Ring

  type PeerID = u32

  datatype Carrier = Carrier(peer: PeerID, payload: seq<byte>)

  datatype QueueError = CarrierQueueFull | CarrierTooLong

  function NotOf(peer: PeerID): Carrier -> bool { (c: Carrier) => c.peer != peer }

  /** What the slots hold: the first lens[i] bytes of row i, for peers[i]. */
  function Cells(rows: seq<seq<byte>>, lens: seq<nat>, peers: seq<PeerID>): (cells: seq<Carrier>)
    requires |rows| == |lens| == |peers|
    ensures |cells| == |rows|
  {
    seq(|rows|, i requires 0 <= i < |rows| => Carrier(peers[i], if lens[i] <= |rows[i]| then rows[i][..lens[i]]
        else rows[i]))
  }

  /** Compaction in progress: the survivors of the first n entries lie at the
      front, the entries from n on are still in place. */
  ghost predicate Compacting(cells: seq<Carrier>, head: nat, q: seq<Carrier>, keep: Carrier -> bool, n: nat,
                             kept: nat) {
    && head < |cells| && |q| <= |cells| && n <= |q| && kept == |FilterUpTo(q, keep, n)| <= n
    && (forall i {:trigger Slot(head, i, |cells|)} ::
         0 <= i < kept ==> cells[Slot(head, i, |cells|)] == FilterUpTo(q, keep, n)[i])
    && (forall i {:trigger Slot(head, i, |cells|)} :: n <= i < |q| ==> cells[Slot(head, i, |cells|)] == q[i])
  }

  lemma CompactStep(cells: seq<Carrier>, head: nat, q: seq<Carrier>, keep: Carrier -> bool, n: nat, kept: nat)
    requires Compacting(cells, head, q, keep, n, kept) && n < |q|
    ensures keep(q[n]) ==> Compacting(cells[Slot(head, kept, |cells|) := q[n]], head, q, keep, n + 1, kept + 1)
    ensures !keep(q[n]) ==> Compacting(cells, head, q, keep, n + 1, kept)
  {
    var f := FilterUpTo(q, keep, n);
    if keep(q[n]) {
      var cells' := cells[Slot(head, kept, |cells|) := q[n]];
      assert FilterUpTo(q, keep, n + 1) == f + [q[n]];
      forall i | 0 <= i < kept + 1 ensures cells'[Slot(head, i, |cells|)] == (f + [q[n]])[i] {
        if i < kept { SlotInjective(head, i, kept, |cells|); }
      }
      forall i | n + 1 <= i < |q|
        ensures cells'[Slot(head, i, |cells|)] == q[i]
      {
        SlotInjective(head, i, kept, |cells|);
      }
    } else {
      assert FilterUpTo(q, keep, n + 1) == f + [] == f;
    }
  }

  /** The slots behind the first m entries do not matter. */
  lemma HoldsFewer(cells: seq<Carrier>, head: nat, q: seq<Carrier>, m: nat)
    requires Holds(cells, head, q) && m <= |q|
    ensures Holds(cells, head, q[..m])
  {}

  lemma HoldsElsewhere(cells: seq<Carrier>, head: nat, q: seq<Carrier>, k: nat, c: Carrier)
    requires Holds(cells, head, q) && |q| <= k < |cells|
    ensures Holds(cells[Slot(head, k, |cells|) := c], head, q)
  {
    forall i | 0 <= i < |q|
      ensures cells[Slot(head, k, |cells|) := c][Slot(head, i, |cells|)] == q[i]
    {
      SlotInjective(head, i, k, |cells|);
    }
  }

  class DataRing {
    const stride: nat
    const payloadStride: nat
    var rows: array<seq<byte>>
    var lens: array<nat>
    var peers: array<PeerID>
    var head: nat
    var count: nat
    var overflows: nat
    /** The queued carriers, oldest first. */
    ghost var queue: seq<Carrier>

    ghost predicate Shape()
      reads this, rows, lens, peers
    {
      && payloadStride <= stride && 0 < rows.Length == lens.Length == peers.Length && (lens as object) != peers
      && (forall i {:trigger rows[i]} :: 0 <= i < rows.Length ==> |rows[i]| == stride)
      && (forall i {:trigger lens[i]} :: 0 <= i < lens.Length ==> lens[i] <= stride)
    }

    ghost function Slots(): seq<Carrier>
      requires Shape()
      reads this, rows, lens, peers
    {
      Cells(rows[..], lens[..], peers[..])
    }

    ghost predicate Valid()
      reads this, rows, lens, peers
    {
      Shape() && Holds(Slots(), head, queue) && count == |queue|
    }

    constructor (slots: nat, stride: nat, payloadStride: nat)
      requires slots > 0 && payloadStride <= stride
      ensures Valid() && queue == [] && head == 0 && rows.Length == slots && fresh(rows) && fresh(lens) && fresh(peers)
      ensures this.stride == stride && this.payloadStride == payloadStride
    {
      this.stride, this.payloadStride := stride, payloadStride;
      rows := new seq<byte>[slots](_ => seq<byte>(stride, _ => 0));
      lens := new nat[slots](_ => 0);
      peers := new PeerID[slots](_ => 0);
      head, count, overflows, queue := 0, 0, 0, [];
    }

    /** Copies c into a slot; the bytes of the row behind it stay. */
    method Write(index: nat, c: Carrier)
      requires Shape() && index < rows.Length && |c.payload| <= stride
      modifies rows, lens, peers
      ensures Shape() && Slots() == old(Slots())[index := c]
    {
      rows[index] := c.payload + rows[index][|c.payload|..];
      lens[index] := |c.payload|;
      peers[index] := c.peer;
      assert c.payload == rows[index][..|c.payload|];
    }

    /** Marks a slot as empty. */
    method Erase(index: nat)
      requires Shape() && index < rows.Length
      modifies lens, peers
      ensures Shape() && Slots() == old(Slots())[index := Carrier(0, [])]
    {
      lens[index] := 0;
      peers[index] := 0;
    }

    method Read(index: nat) returns (c: Carrier)
      requires Shape() && index < rows.Length
      ensures c == Slots()[index] && |c.payload| <= stride
    {
      c := Carrier(peers[index], rows[index][..lens[index]]);
    }

    /** Appends a payload, unless the ring is full or the payload too long. */
    method Enqueue(peer: PeerID, packet: seq<byte>) returns (err: Option<QueueError>)
      requires Valid()
      modifies this, rows, lens, peers
      ensures Valid() && rows == old(rows) && lens == old(lens) && peers == old(peers)
      ensures err == if old(|queue|) == rows.Length then Some(CarrierQueueFull)
              else if |packet| > payloadStride then Some(CarrierTooLong) else None
      ensures queue == if err.None? then old(queue) + [Carrier(peer, packet)] else old(queue)
      ensures overflows == old(overflows) + if err == Some(CarrierQueueFull) then 1 else 0
    {
      if count == lens.Length {
        overflows := overflows + 1;
        return Some(CarrierQueueFull);
      }
      if |packet| > payloadStride { return Some(CarrierTooLong); }
      PushBack(Slots(), head, queue, Carrier(peer, packet));
      Write(Slot(head, count, lens.Length), Carrier(peer, packet));
      count, queue := count + 1, queue + [Carrier(peer, packet)];
      err := None;
    }

    /** Takes the oldest carrier out. */
    method Dequeue() returns (c: Carrier)
      requires Valid() && queue != []
      modifies this, lens, peers
      ensures Valid() && c == old(queue)[0] && queue == old(queue)[1..] && rows == old(rows) && lens == old(lens) &&
              peers == old(peers)
    {
      assert Slot(head, 0, rows.Length) == head;
      c := Read(head);
      PopFront(Slots(), head, queue, Carrier(0, []));
      Erase(head);
      head := Slot(head, 1, lens.Length);
      count, queue := count - 1, queue[1..];
    }

    /** Drops the newest carriers until want are left. */
    method Rollback(want: nat)
      requires Valid()
      modifies `count, `queue, lens, peers
      ensures Valid() && queue == old(queue)[..if want < old(count) then want else old(count)]
    {
      while count > want
        invariant Valid() && count <= old(count) &&
                  (if want < old(count) then want <= count else count == old(count)) && queue == old(queue)[..count]
      {
        HoldsFewer(Slots(), head, queue, count - 1);
        HoldsElsewhere(Slots(), head, queue[..count - 1], count - 1, Carrier(0, []));
        Erase(Slot(head, count - 1, lens.Length));
        count, queue := count - 1, queue[..count - 1];
      }
    }

    /** Removes one peer's carriers in place, keeping the order of the others. */
    method Purge(peer: PeerID)
      requires Valid()
      modifies `count, `queue, rows, lens, peers
      ensures Valid() && queue == Filter(old(queue), NotOf(peer))
    {
      var kept := Compact(peer);
      var before := count;
      count, queue := kept, Filter(queue, NotOf(peer));
      for offset := kept to before
        invariant Valid() && kept == count && queue == Filter(old(queue), NotOf(peer)) && before <= lens.Length
        modifies lens, peers
      {
        HoldsElsewhere(Slots(), head, queue, offset, Carrier(0, []));
        Erase(Slot(head, offset, lens.Length));
      }
    }

    method Compact(peer: PeerID) returns (kept: nat)
      requires Valid()
      modifies rows, lens, peers
      ensures Shape() && kept == |Filter(queue, NotOf(peer))| <= count &&
              Holds(Slots(), head, Filter(queue, NotOf(peer)))
    {
      kept := 0;
      for offset := 0 to count
        invariant Shape() && Compacting(Slots(), head, queue, NotOf(peer), offset, kept)
      {
        kept := CompactOne(peer, offset, kept);
      }
    }

    method CompactOne(peer: PeerID, offset: nat, kept: nat) returns (kept': nat)
      requires Shape() && offset < |queue| && Compacting(Slots(), head, queue, NotOf(peer), offset, kept)
      modifies rows, lens, peers
      ensures Shape() && Compacting(Slots(), head, queue, NotOf(peer), offset + 1, kept')
    {
      CompactStep(Slots(), head, queue, NotOf(peer), offset, kept);
      var oldIndex := Slot(head, offset, lens.Length);
      kept' := kept;
      if peers[oldIndex] != peer {
        Move(oldIndex, Slot(head, kept, lens.Length));
        kept' := kept + 1;
      }
    }

    /** Copies one slot over another. */
    method Move(oldIndex: nat, newIndex: nat)
      requires Shape() && oldIndex < rows.Length && newIndex < rows.Length
      modifies rows, lens, peers
      ensures Shape() && Slots() == old(Slots())[newIndex := old(Slots())[oldIndex]]
    {
      if newIndex != oldIndex {
        var c := Read(oldIndex);
        Write(newIndex, c);
      }
    }

    /** Enlarges the ring; the queued carriers keep their order. */
    method Grow(slots: nat)
      requires Valid()
      modifies this
      ensures Valid() && queue == old(queue) && rows.Length == if slots > old(rows.Length) then slots
              else old(rows.Length)
      ensures rows.Length > old(rows.Length) ==> fresh(rows) && fresh(lens) && fresh(peers)
      ensures rows.Length == old(rows.Length) ==> rows == old(rows) && lens == old(lens) && peers == old(peers)
    {
      if slots <= lens.Length { return; }
      var bigger := new DataRing(slots, stride, payloadStride);
      CopyTo(bigger);
      rows, lens, peers, head := bigger.rows, bigger.lens, bigger.peers, 0;
    }

    method CopyTo(bigger: DataRing)
      requires Valid() && bigger.Valid() && bigger.queue == [] && bigger.head == 0 && bigger != this &&
               bigger.stride == stride && rows.Length <= bigger.rows.Length
      requires var mine := {rows as object, lens, peers};
               bigger.rows !in mine && bigger.lens !in mine && bigger.peers !in mine
      modifies bigger.rows, bigger.lens, bigger.peers
      ensures Valid() && bigger.Shape() && Holds(bigger.Slots(), 0, queue)
    {
      for i := 0 to count
        invariant Valid() && bigger.Shape() && Holds(bigger.Slots(), 0, queue[..i])
      {
        var c := Read(Slot(head, i, lens.Length));
        PushBack(bigger.Slots(), 0, queue[..i], c);
        bigger.Write(i, c);
        assert queue[..i] + [c] == queue[..i + 1];
      }
      assert queue[..count] == queue;
    }
  }
}
