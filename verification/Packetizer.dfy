/** Packing records into carriers (internal/core/packetizer/packetizer.go). */
module Packetizers {
  import opened Wire
  import opened Packing

  datatype PackError = SplitFailed(error: SplitError) | EmitFailed

  predicate ConfigOk(carrierPayload: int, minPack: int) {
    HEADER_SIZE < carrierPayload <= MAX_U16 && minPack >= 1
  }

  /** payload is one well-formed DATA carrier that holds exactly rs. */
  predicate CarrierOf(payload: seq<byte>, rs: seq<Record>, carrierPayload: int) {
    rs != [] && AllValid(rs) && payload == EncodeAll(rs) && |payload| <= carrierPayload
  }

  /** Every emitted carrier fits, is told apart from CONTROL by its first two
      bytes, and parses back to the records it was built from with nothing left. */
  lemma CarrierRoundTrip(payload: seq<byte>, rs: seq<Record>, carrierPayload: int)
    requires CarrierOf(payload, rs, carrierPayload)
    ensures 2 <= |payload| <= carrierPayload && GetU16(payload[..2]) != 0
    ensures ParseAll(payload) == Ok(rs)
  {
    DataIsNotControl(rs);
    ParseIffEncoded(payload, rs);
  }

  function Flatten<T>(ss: seq<seq<T>>): seq<T> {
    if ss == [] then [] else Flatten(ss[..|ss| - 1]) + ss[|ss| - 1]
  }

  class Packetizer {
    const buffer: array<byte>
    const frags: array<Record>
    const carrierPayload: int
    const minPack: int
    /** The emitter's answer to its n-th call. */
    const accepts: nat -> bool
    var used: nat
    var calls: nat
    var emitted: seq<seq<byte>>
    /** What the emitted carriers and the buffer hold, as records. */
    ghost var sent: seq<seq<Record>>
    ghost var pending: seq<Record>

    /** The buffer and the emitted carriers hold exactly the records booked for them. */
    ghost predicate Booked()
      requires used <= buffer.Length
      reads this, buffer
    {
      && AllValid(pending) && buffer[..used] == EncodeAll(pending)
      && (used == 0 <==> pending == [])
      && |sent| == |emitted|
      && forall i :: 0 <= i < |sent| ==> CarrierOf(emitted[i], sent[i], carrierPayload)
    }

    /** Booked is closed: proofs see it only through Opens and Seals. */
    ghost predicate Valid()
      reads this, buffer
    {
      && ConfigOk(carrierPayload, minPack)
      && buffer.Length == carrierPayload && frags.Length == MAX_FRAGMENTS
      && used <= carrierPayload
      && forall k {:trigger Look(k)} :: Look(k) ==> Booked()
    }

    lemma Opens()
      requires Valid()
      ensures Booked()
    {
      assert Look(0);
    }

    lemma Seals()
      requires ConfigOk(carrierPayload, minPack) && buffer.Length == carrierPayload && frags.Length == MAX_FRAGMENTS
      requires used <= carrierPayload && Booked()
      ensures Valid()
    {}

    ghost predicate AlwaysAccepts() {
      forall c :: accepts(c)
    }

    /** Every record packed so far and not discarded, in order. */
    ghost function Log(): seq<Record>
      reads this
    {
      Flatten(sent) + pending
    }

    /** Carriers opened so far: those emitted and the one being filled. */
    ghost function Opened(): nat
      reads this
    {
      |emitted| + if used > 0 then 1 else 0
    }

    /** An empty packetizer; NewPacketizer answers other configurations. */
    constructor (carrierPayload: int, minPack: int, accepts: nat -> bool)
      requires ConfigOk(carrierPayload, minPack)
      ensures Valid() && this.carrierPayload == carrierPayload && this.minPack == minPack && this.accepts == accepts
      ensures emitted == [] && used == 0 && calls == 0 && Log() == []
      ensures fresh(buffer) && fresh(frags)
    {
      this.carrierPayload, this.minPack, this.accepts := carrierPayload, minPack, accepts;
      buffer := new byte[carrierPayload];
      frags := new Record[MAX_FRAGMENTS];
      used, calls, emitted := 0, 0, [];
      sent, pending := [], [];
      new;
      Seals();
    }

    /** Drops the carrier being built and nothing else. */
    method Reset()
      requires Valid()
      modifies this
      ensures Valid() && used == 0 && pending == []
      ensures emitted == old(emitted) && sent == old(sent) && calls == old(calls)
    {
      Opens();
      used := 0;
      pending := [];
      assert buffer[..0] == [];
      Seals();
    }

    /** Hands the open carrier to the emitter; a refusal leaves it in place. */
    method Flush() returns (ok: bool)
      requires Valid()
      modifies this
      ensures Valid() && Log() == old(Log()) && Opened() == old(Opened())
      ensures ok == (old(used) == 0 || accepts(old(calls)))
      ensures ok ==>
              used == 0 && pending == [] &&
              emitted == old(emitted) + (if old(used) == 0 then [] else [old(buffer[..used])])
      ensures !ok ==> used == old(used) && emitted == old(emitted) && pending == old(pending)
      ensures old(emitted) <= emitted
    {
      Opens();
      if used == 0 { return true; }
      ok := accepts(calls);
      calls := calls + 1;
      if !ok {
        Seals();
        return;
      }
      emitted := emitted + [buffer[..used]];
      sent := sent + [pending];
      assert sent[..|sent| - 1] == old(sent);
      used := 0;
      pending := [];
      assert buffer[..0] == [];
      Seals();
    }

    /** Appends one record that fits to the open carrier. */
    method Append(r: Record)
      requires Valid() && Wire.Valid(r) && used + HEADER_SIZE + |r.data| <= carrierPayload
      modifies this, buffer
      ensures Valid() && pending == old(pending) + [r] && Log() == old(Log()) + [r]
      ensures emitted == old(emitted) && sent == old(sent) && used > 0 && calls == old(calls)
      ensures Opened() == old(Opened()) + if old(used) == 0 then 1 else 0
    {
      Opens();
      var written, err := MarshalTo(buffer, used, r);
      assert err.None?;  // the source returns an encoding error here; none is possible
      assert buffer[..used + written] == old(buffer[..used]) + Encode(r);
      EncodeAllCons(r, []);
      assert [r] + [] == [r];
      EncodeAllAppend(pending, [r]);
      used := used + written;
      pending := pending + [r];
      Seals();
    }

    /** Appends one record, flushing first when it does not fit. */
    method AppendOrFlush(r: Record) returns (ok: bool)
      requires Valid() && Wire.Valid(r) && HEADER_SIZE + |r.data| <= carrierPayload
      modifies this, buffer
      ensures Valid() && old(emitted) <= emitted
      ensures Log() == old(Log()) + if ok then [r] else []
      ensures Opened() <= old(Opened()) + 1
      ensures old(used) > 0 && old(used) + HEADER_SIZE + |r.data| <= carrierPayload ==> ok && Opened() == old(Opened())
      ensures AlwaysAccepts() ==> ok
    {
      if buffer.Length - used < HEADER_SIZE + |r.data| {
        ok := Flush();
        if !ok { return; }
      }
      Append(r);
      ok := true;
    }

    /** Appends the first n records of frags one by one. */
    method AppendAll(n: nat, ghost inTail: bool) returns (ok: bool, ghost done: nat)
      requires Valid() && 1 <= n <= MAX_FRAGMENTS && AllValid(frags[..n])
      requires forall i :: 0 <= i < n ==> HEADER_SIZE + |frags[i].data| <= carrierPayload
      requires inTail ==> used > 0 && used + HEADER_SIZE + |frags[0].data| <= carrierPayload
      modifies this, buffer
      ensures Valid() && done <= n && (ok ==> done == n)
      ensures Log() == old(Log()) + frags[..done]
      ensures Opened() <= old(Opened()) + n - (if inTail then 1 else 0)
      ensures old(emitted) <= emitted
      ensures AlwaysAccepts() ==> ok
    {
      ghost var log, tail := Log(), if inTail then 1 else 0;
      var i := 0;
      while i < n
        invariant 0 <= i <= n && Valid()
        invariant Log() == log + frags[..i]
        invariant old(emitted) <= emitted
        invariant i == 0 ==> used == old(used) && Opened() == old(Opened())
        invariant i > 0 ==> Opened() <= old(Opened()) + i - tail
      {
        assert frags[i] == frags[..n][i];
        ok := AppendOrFlush(frags[i]);
        if !ok { return false, i; }
        assert frags[..i + 1] == frags[..i] + [frags[i]];
        i := i + 1;
      }
      return true, n;
    }

    function Admission(packetLen: nat, meta: Metadata, used: nat): Option<SplitError> {
      CheckSplit(packetLen, meta, Options(carrierPayload, carrierPayload - used, minPack))
    }

    /** Behind used bytes there is room for at least minPack bytes of a first record,
        and fifteen full records take the rest. */
    predicate JoinsTail(packetLen: nat, used: nat) {
      carrierPayload - used - 12 >= minPack && packetLen <= carrierPayload - used - 12 + 15 * (carrierPayload - 12)
    }

    /** Splits against what is left of the open carrier. */
    method Cut(packet: seq<byte>, meta: Metadata) returns (result: Result<SplitResult, SplitError>)
      requires Valid()
      modifies frags
      ensures result.Err? <==> Admission(|packet|, meta, used).Some?
      ensures result.Ok? ==> 1 <= result.value.fragments <= MAX_FRAGMENTS && |packet| <= MAX_INNER_MTU
      ensures result.Ok? ==> IsSplitOf(frags[..result.value.fragments], packet, meta)
      ensures result.Ok? ==>
              forall i :: 0 <= i < result.value.fragments ==> HEADER_SIZE + |frags[i].data| <= carrierPayload
      ensures result.Ok? && result.value.startInTail ==> used + HEADER_SIZE + |frags[0].data| <= carrierPayload
      ensures result.Ok? ==> (result.value.startInTail <==> JoinsTail(|packet|, used))
      ensures result.Ok? && result.value.startInTail ==> |frags[0].data| >= Min(|packet|, minPack)
      ensures result.Ok? ==> result.value.fragments - (if result.value.startInTail && used > 0 then 1 else 0)
                               <= CarrierFragmentCount(carrierPayload + IPV6_HEADER_SIZE, |packet|)
    {
      result := Split(packet, meta, Options(carrierPayload, buffer.Length - used, minPack), frags);
    }

    /** Decides where the packet starts, flushing first when it cannot start in
        the tail, and leaves its records in frags. */
    method Place(packet: seq<byte>, meta: Metadata) returns (err: Option<PackError>, n: nat, ghost inTail: bool)
      requires Valid()
      modifies this, frags
      ensures Valid() && old(emitted) <= emitted && Log() == old(Log()) && Opened() == old(Opened())
      ensures err.Some? && err.value.SplitFailed? <==> Admission(|packet|, meta, old(used)).Some?
      ensures err.Some? && err.value.SplitFailed? ==> used == old(used) && emitted == old(emitted)
      ensures AlwaysAccepts() ==> err != Some(EmitFailed)
      ensures err.None? ==> 1 <= n <= MAX_FRAGMENTS && IsSplitOf(frags[..n], packet, meta) && |packet| <= MAX_INNER_MTU
      ensures err.None? ==> forall i :: 0 <= i < n ==> HEADER_SIZE + |frags[i].data| <= carrierPayload
      ensures err.None? && inTail ==> used > 0 && used + HEADER_SIZE + |frags[0].data| <= carrierPayload
      ensures err.None? && inTail ==> |frags[0].data| >= Min(|packet|, minPack)
      ensures err.None? ==> (inTail <==> old(used) > 0 && JoinsTail(|packet|, old(used)))
      ensures err.None? && old(used) > 0 && !inTail ==> emitted == old(emitted) + [old(buffer[..used])]
      ensures err.None? ==>
              n - (if inTail then 1 else 0) <= CarrierFragmentCount(carrierPayload + IPV6_HEADER_SIZE, |packet|)
    {
      n, inTail := 0, false;
      var result := Cut(packet, meta);
      if result.Err? { return Some(SplitFailed(result.error)), 0, false; }
      if !result.value.startInTail && used != 0 {
        EmptyCarrierAdmits(|packet|, meta, Options(carrierPayload, carrierPayload - used, minPack));
        var flushed := Flush();
        if !flushed { return Some(EmitFailed), 0, false; }
        result := Cut(packet, meta);
        assert result.Ok?;  // what one carrier state admits, an empty carrier admits
      }
      return None, result.value.fragments, result.value.startInTail && used > 0;
    }

    /** Packs one inner packet. */
    method Add(packet: seq<byte>, meta: Metadata) returns (err: Option<PackError>, ghost packed: seq<Record>)
      requires Valid()
      modifies this, buffer, frags
      ensures Valid() && old(emitted) <= emitted
      // every record of the packet follows all that was packed before
      ensures err.None? ==> IsSplitOf(packed, packet, meta)
      ensures Log() == old(Log()) + packed
      // a refused packet changes nothing
      ensures err.Some? && err.value.SplitFailed? <==> Admission(|packet|, meta, old(used)).Some?
      ensures err.Some? && err.value.SplitFailed? ==> used == old(used) && emitted == old(emitted) && packed == []
      ensures AlwaysAccepts() ==> err != Some(EmitFailed)
      // it joins the open carrier only if its first record is worth a header, else that carrier leaves as it is
      ensures err.None? && old(used) > 0 && JoinsTail(|packet|, old(used)) ==>
                packed != [] && |packed[0].data| >= Min(|packet|, minPack)
      ensures err.None? && old(used) > 0 && !JoinsTail(|packet|, old(used)) ==>
                old(emitted) + [old(buffer[..used])] <= emitted
      // and never more carriers than the ring was sized for
      ensures err.None? ==> 1 <= |packet| <= MAX_INNER_MTU
      ensures err.None? ==>
              Opened() <= old(Opened()) + CarrierFragmentCount(carrierPayload + IPV6_HEADER_SIZE, |packet|)
    {
      packed := [];
      var n;
      ghost var inTail;
      err, n, inTail := Place(packet, meta);
      if err.Some? {
        assert Log() == old(Log()) + [];
        return;
      }
      SplitIsValid(frags[..n], packet, meta);
      var ok;
      ghost var done;
      ok, done := AppendAll(n, inTail);
      packed := frags[..done];
      if !ok { err := Some(EmitFailed); }
    }
  }

  datatype InitError = BadCarrierPayload | BadMinPack | NoEmitter

  /** The first of the checks that fails names the error. */
  method NewPacketizer(bufferLength: nat, carrierPayload: int, minPack: int, hasEmitter: bool, accepts: nat -> bool)
    returns (r: Result<Packetizer, InitError>)
    ensures r.Ok? <==> ConfigOk(carrierPayload, minPack) && carrierPayload <= bufferLength && hasEmitter
    ensures r == Err(BadCarrierPayload) <==>
            !(HEADER_SIZE < carrierPayload <= MAX_U16 && carrierPayload <= bufferLength)
    ensures r == Err(NoEmitter) ==> ConfigOk(carrierPayload, minPack)
    ensures r.Ok? ==> fresh(r.value) && r.value.Valid() && r.value.Log() == [] && r.value.Opened() == 0
    ensures r.Ok? ==>
            r.value.carrierPayload == carrierPayload && r.value.minPack == minPack && r.value.accepts == accepts
  {
    if carrierPayload <= HEADER_SIZE || carrierPayload > MAX_U16 || bufferLength < carrierPayload {
      return Err(BadCarrierPayload);
    }
    if minPack < 1 { return Err(BadMinPack); }
    if !hasEmitter { return Err(NoEmitter); }
    var p := new Packetizer(carrierPayload, minPack, accepts);
    r := Ok(p);
  }

  /** taken lists, in order, the admitted packets among the first bound; splits are their records. */
  ghost predicate Admitted(splits: seq<seq<Record>>, taken: seq<nat>, packets: seq<seq<byte>>, metas: seq<Metadata>,
                           bound: nat)
    requires |packets| == |metas| && bound <= |packets|
  {
    && |splits| == |taken| <= bound
    && (forall k :: 0 <= k < |taken| ==> taken[k] < bound && IsSplitOf(splits[k], packets[taken[k]], metas[taken[k]]))
    && (forall j, k :: 0 <= j < k < |taken| ==> taken[j] < taken[k])
  }

  predicate AllWithin(packets: seq<seq<byte>>, mtu: nat) {
    forall k :: 0 <= k < |packets| ==> |packets[k]| <= mtu
  }

  lemma AdmitOne(splits: seq<seq<Record>>, taken: seq<nat>, packets: seq<seq<byte>>, metas: seq<Metadata>, i: nat,
                 packed: seq<Record>)
    requires |packets| == |metas| && i < |packets| && Admitted(splits, taken, packets, metas, i)
    requires IsSplitOf(packed, packets[i], metas[i])
    ensures Admitted(splits + [packed], taken + [i], packets, metas, i + 1)
    ensures Flatten(splits + [packed]) == Flatten(splits) + packed
  {
    assert (splits + [packed])[..|splits|] == splits;
  }

  /** What a batch has achieved after looking at the first i packets. */
  datatype Batch = Batch(start: seq<Record>, carriers: nat, splits: seq<seq<Record>>, taken: seq<nat>)

  function Repeated(k: nat, share: nat): nat {
    if k == 0 then 0 else Repeated(k - 1, share) + share
  }

  lemma {:induction false} RepeatedIsProduct(k: nat, share: nat)
    ensures Repeated(k, share) == k * share
  {
    if k > 0 { RepeatedIsProduct(k - 1, share); }
  }

  ghost predicate Progress(b: Batch, packets: seq<seq<byte>>, metas: seq<Metadata>, i: nat, log: seq<Record>,
                           nowOpen: nat, share: nat, mtu: nat)
    requires |packets| == |metas| && i <= |packets|
  {
    && Admitted(b.splits, b.taken, packets, metas, i)
    && log == b.start + Flatten(b.splits)
    && (AllWithin(packets, mtu) ==> nowOpen <= b.carriers + Repeated(|b.taken|, share))
  }

  lemma ProgressOne(b: Batch, packets: seq<seq<byte>>, metas: seq<Metadata>, i: nat, log: seq<Record>, nowOpen: nat,
                    share: nat, mtu: nat,
                    packed: seq<Record>, log': seq<Record>, nowOpen': nat)
    requires |packets| == |metas| && i < |packets| && Progress(b, packets, metas, i, log, nowOpen, share, mtu)
    requires IsSplitOf(packed, packets[i], metas[i]) && log' == log + packed
    requires AllWithin(packets, mtu) ==> nowOpen' <= nowOpen + share
    ensures Progress(b.(splits := b.splits + [packed], taken := b.taken + [i]), packets, metas, i + 1, log', nowOpen',
            share, mtu)
  {
    AdmitOne(b.splits, b.taken, packets, metas, i, packed);
    assert log' == b.start + (Flatten(b.splits) + packed);
  }

  /** One sender's share of a native batch: add every packet, then flush once
      (internal/wgadapter/shimtun/device.go). Packets the splitter refuses are
      dropped and the batch goes on. */
  method PackBatch(p: Packetizer, packets: seq<seq<byte>>, metas: seq<Metadata>, ghost mtu: nat)
    returns (ok: bool, ghost b: Batch)
    requires p.Valid() && |packets| == |metas|
    modifies p, p.buffer, p.frags
    ensures p.Valid() && b.start == old(p.Log()) && b.carriers == old(p.Opened())
    ensures p.AlwaysAccepts() ==> ok
    ensures Admitted(b.splits, b.taken, packets, metas, |packets|)
    // nothing stays behind, nothing is lost, repeated or reordered
    ensures ok ==> p.used == 0 && Flatten(p.sent) == b.start + Flatten(b.splits)
    // and the ring share per admitted packet is never exceeded
    ensures ok && AllWithin(packets, mtu) ==>
              |p.emitted| <= b.carriers + |b.taken| * CarrierFragmentCount(p.carrierPayload + IPV6_HEADER_SIZE, mtu)
  {
    b := Batch(p.Log(), p.Opened(), [], []);
    ghost var share := CarrierFragmentCount(p.carrierPayload + IPV6_HEADER_SIZE, mtu);
    assert b.start == b.start + [];
    var i := 0;
    while i < |packets|
      invariant 0 <= i <= |packets| && p.Valid()
      invariant b.start == old(p.Log()) && b.carriers == old(p.Opened())
      invariant Progress(b, packets, metas, i, p.Log(), p.Opened(), share, mtu)
    {
      ok, b := AddNext(p, packets, metas, i, b, share, mtu);
      if !ok { return; }
      i := i + 1;
    }
    RepeatedIsProduct(|b.taken|, share);
    ok := p.Flush();
    if ok { assert Flatten(p.sent) + [] == Flatten(p.sent); }
  }

  method AddNext(p: Packetizer, packets: seq<seq<byte>>, metas: seq<Metadata>, i: nat, ghost b: Batch, ghost share: nat,
                 ghost mtu: nat)
    returns (ok: bool, ghost b': Batch)
    requires p.Valid() && |packets| == |metas| && i < |packets|
    requires Progress(b, packets, metas, i, p.Log(), p.Opened(), share, mtu)
    requires share == CarrierFragmentCount(p.carrierPayload + IPV6_HEADER_SIZE, mtu)
    modifies p, p.buffer, p.frags
    ensures p.Valid() && b'.start == b.start && b'.carriers == b.carriers
    ensures p.AlwaysAccepts() ==> ok
    ensures Admitted(b'.splits, b'.taken, packets, metas, i + 1)
    ensures ok ==> Progress(b', packets, metas, i + 1, p.Log(), p.Opened(), share, mtu)
  {
    ghost var log, nowOpen := p.Log(), p.Opened();
    var err;
    ghost var packed;
    err, packed := p.Add(packets[i], metas[i]);
    b', ok := b, err != Some(EmitFailed);
    if err.None? {
      if AllWithin(packets, mtu) { RingShareMonotone(p.carrierPayload + IPV6_HEADER_SIZE, |packets[i]|, mtu); }
      ProgressOne(b, packets, metas, i, log, nowOpen, share, mtu, packed, p.Log(), p.Opened());
      b' := b.(splits := b.splits + [packed], taken := b.taken + [i]);
    }
  }
}
