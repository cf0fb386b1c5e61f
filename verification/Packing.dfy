/** The fragment-count plan (internal/core/packing/plan.go), the size limits
    (internal/core/limits/limits.go) and the splitter (internal/core/fragment/fragment.go). */
module Packing {
  import opened Wire

  const IPV6_HEADER_SIZE := 40

  datatype PlanError = PacketLength | CarrierPayload | Remaining | MinPack | TooManyFragments

  datatype Plan = Plan(startInTail: bool, fragments: nat, firstData: nat)

  /** Ceiling division by repeated subtraction; CeilDivFormula shows it is the
      source's (n + d - 1) / d. */
  function CeilDiv(n: int, d: nat): nat
    requires d > 0
    decreases if n <= 0 then 0 else n
  {
    if n <= 0 then 0 else 1 + CeilDiv(n - d, d)
  }

  function Min(a: int, b: int): int { if a < b then a else b }
  function Max(a: int, b: int): int { if a < b then b else a }

  function MakePlan(packetLen: int, carrierPayload: int, remaining: int, minPack: int): Result<Plan, PlanError> {
    if packetLen < 1 then Err(PacketLength)
    else if carrierPayload <= HEADER_SIZE then Err(CarrierPayload)
    else if remaining < 0 || remaining > carrierPayload then Err(Remaining)
    else if minPack < 1 then Err(MinPack)
    else
      var fullData := carrierPayload - HEADER_SIZE;
      var tailData := remaining - HEADER_SIZE;
      var first := Min(packetLen, tailData);
      if tailData >= minPack && 1 + CeilDiv(packetLen - first, fullData) <= MAX_FRAGMENTS then
        Ok(Plan(true, 1 + CeilDiv(packetLen - first, fullData), first))
      else if CeilDiv(packetLen, fullData) > MAX_FRAGMENTS then Err(TooManyFragments)
      else Ok(Plan(false, CeilDiv(packetLen, fullData), 0))
  }

  function MinCarrierPayload(mtu: nat): nat {
    (mtu + MAX_FRAGMENTS - 1) / MAX_FRAGMENTS + HEADER_SIZE
  }

  predicate InnerMtuOk(mtu: int) {
    MIN_INNER_MTU <= mtu <= MAX_INNER_MTU
  }

  predicate MinCarrierPayloadOk(mtu: int, payload: int) {
    InnerMtuOk(mtu) && payload >= Max(DEFAULT_CARRIER_PAYLOAD, MinCarrierPayload(mtu))
  }

  /** The per-packet worst case that sizes the DATA ring (internal/wgadapter/shimtun/device.go). */
  function CarrierFragmentCount(carrierSize: int, innerMtu: int): nat {
    var recordPayload := carrierSize - IPV6_HEADER_SIZE - HEADER_SIZE;
    if recordPayload <= 0 then MAX_FRAGMENTS
    else Min(Max(CeilDiv(innerMtu, recordPayload), 1), MAX_FRAGMENTS)
  }

  // ----- arithmetic of ceiling division

  lemma ScaleLe(a: int, b: int, d: nat)
    ensures a <= b ==> a * d <= b * d
  {}

  lemma {:induction false} CeilDivBracket(n: int, d: nat)
    requires d > 0 && n > 0
    ensures (CeilDiv(n, d) - 1) * d < n <= CeilDiv(n, d) * d && CeilDiv(n, d) >= 1
    decreases n
  {
    if n > d {
      CeilDivBracket(n - d, d);
      var q := CeilDiv(n - d, d);
      assert (q + 1) * d == q * d + d && (q - 1) * d == q * d - d;
    } else {
      assert CeilDiv(n - d, d) == 0;
    }
  }

  lemma CeilDivFormula(n: int, d: nat)
    requires d > 0
    ensures CeilDiv(n, d) == if n <= 0 then 0 else (n + d - 1) / d
  {
    if n > 0 {
      var k, q := (n + d - 1) / d, CeilDiv(n, d);
      assert n + d - 1 == d * k + (n + d - 1) % d;
      CeilDivBracket(n, d);
      assert (q - 1) * d == q * d - d && (q + 1) * d == q * d + d;
      ScaleLe(k, q - 1, d);
      ScaleLe(q + 1, k, d);
    }
  }

  lemma CeilDivAtMost(n: int, d: nat, k: nat)
    requires d > 0
    ensures CeilDiv(n, d) <= k <==> n <= k * d
  {
    if n > 0 {
      CeilDivBracket(n, d);
      ScaleLe(CeilDiv(n, d), k, d);
      ScaleLe(k, CeilDiv(n, d) - 1, d);
    } else {
      ScaleLe(0, k, d);
    }
  }

  lemma CeilDivMonotone(a: int, b: int, d: nat)
    requires d > 0 && a <= b
    ensures CeilDiv(a, d) <= CeilDiv(b, d)
  {
    CeilDivAtMost(b, d, CeilDiv(b, d));
    CeilDivAtMost(a, d, CeilDiv(b, d));
  }

  // ----- what a plan promises

  /** With sane arguments a packet is refused exactly when sixteen full records
      cannot hold it, whatever is left of the current carrier. */
  lemma RefusedIffTooLong(packetLen: int, carrierPayload: int, remaining: int, minPack: int)
    requires packetLen >= 1 && carrierPayload > HEADER_SIZE && 0 <= remaining <= carrierPayload && minPack >= 1
    ensures MakePlan(packetLen, carrierPayload, remaining, minPack).Err? <==>
            packetLen > MAX_FRAGMENTS * (carrierPayload - HEADER_SIZE)
  {
    var full := carrierPayload - HEADER_SIZE;
    CeilDivAtMost(packetLen, full, MAX_FRAGMENTS);
    var first := Min(packetLen, remaining - HEADER_SIZE);
    CeilDivAtMost(packetLen - first, full, MAX_FRAGMENTS - 1);
  }

  /** What a plan is: it starts in the tail exactly when at least minPack bytes fit
      there and fifteen full records take the rest; the first record then fills
      the tail or holds the packet; the records are as few as can hold it. */
  lemma PlanIsTight(packetLen: int, carrierPayload: int, remaining: int, minPack: int)
    requires packetLen >= 1 && carrierPayload > 12 && 0 <= remaining <= carrierPayload && minPack >= 1
    requires MakePlan(packetLen, carrierPayload, remaining, minPack).Ok?
    ensures var plan := MakePlan(packetLen, carrierPayload, remaining, minPack).value;
            var full, tail := carrierPayload - 12, remaining - 12;
            && (plan.startInTail <==> tail >= minPack && packetLen <= tail + 15 * full)
            && (plan.startInTail ==> plan.firstData == Min(packetLen, tail) >= Min(packetLen, minPack))
            && (plan.startInTail ==> packetLen - plan.firstData <= (plan.fragments - 1) * full)
            && (plan.startInTail && plan.fragments >= 2 ==> packetLen - plan.firstData > (plan.fragments - 2) * full)
            && (!plan.startInTail ==> (plan.fragments - 1) * full < packetLen <= plan.fragments * full)
  {
    var plan := MakePlan(packetLen, carrierPayload, remaining, minPack).value;
    var full, tail := carrierPayload - 12, remaining - 12;
    var rest := packetLen - Min(packetLen, tail);
    CeilDivAtMost(rest, full, 15);
    if plan.startInTail {
      CeilDivAtMost(rest, full, plan.fragments - 1);
      if plan.fragments >= 2 { CeilDivAtMost(rest, full, plan.fragments - 2); }
    } else {
      CeilDivBracket(packetLen, full);
    }
  }

  /** A path that carries at least MinCarrierPayload(mtu) never refuses a packet
      of up to mtu bytes for its fragment count. */
  lemma MinimumNeverRefuses(mtu: nat, packetLen: int, carrierPayload: int, remaining: int, minPack: int)
    requires 1 <= packetLen <= mtu && carrierPayload >= MinCarrierPayload(mtu)
    requires 0 <= remaining <= carrierPayload && minPack >= 1
    ensures MakePlan(packetLen, carrierPayload, remaining, minPack).Ok?
    ensures packetLen == mtu && carrierPayload == MinCarrierPayload(mtu) && HEADER_SIZE < carrierPayload - 1 ==>
              MakePlan(packetLen, carrierPayload - 1, Min(remaining, carrierPayload - 1), minPack).Err?
  {
    RefusedIffTooLong(packetLen, carrierPayload, remaining, minPack);
    if packetLen == mtu && carrierPayload == MinCarrierPayload(mtu) && HEADER_SIZE < carrierPayload - 1 {
      RefusedIffTooLong(packetLen, carrierPayload - 1, Min(remaining, carrierPayload - 1), minPack);
    }
  }

  /** A carrier payload that passes validation refuses no packet of the interface. */
  lemma ValidatedNeverRefuses(mtu: int, packetLen: int, carrierPayload: int, remaining: int, minPack: int)
    requires MinCarrierPayloadOk(mtu, carrierPayload) && 1 <= packetLen <= mtu
    requires 0 <= remaining <= carrierPayload && minPack >= 1
    ensures MakePlan(packetLen, carrierPayload, remaining, minPack).Ok?
  {
    MinimumNeverRefuses(mtu, packetLen, carrierPayload, remaining, minPack);
  }

  /** How many carriers a planned packet opens: none for a first fragment that
      goes into the tail of an already open carrier, one for every other. */
  function Opens(plan: Plan, open: bool): nat
    requires plan.fragments >= 1
  {
    if plan.startInTail && open then plan.fragments - 1 else plan.fragments
  }

  /** A carrier payload passes validation for an MTU exactly if both are in range and
      16 records of it hold the MTU. */
  lemma ValidatedExactly(mtu: int, payload: int)
    ensures MinCarrierPayloadOk(mtu, payload) <==> 1280 <= mtu <= 9612 && payload >= 613 && mtu <= 16 * (payload - 12)
  {}

  /** A packet of the MTU that starts in an empty carrier needs the whole share. */
  lemma RingShareIsNeeded(mtu: int, carrierPayload: int, minPack: int)
    requires mtu >= 1 && carrierPayload > HEADER_SIZE && 1 <= minPack <= carrierPayload - HEADER_SIZE
    requires mtu <= MAX_FRAGMENTS * (carrierPayload - HEADER_SIZE)
    ensures MakePlan(mtu, carrierPayload, carrierPayload, minPack).Ok?
    ensures MakePlan(mtu, carrierPayload, carrierPayload, minPack).value.fragments
            == CarrierFragmentCount(carrierPayload + IPV6_HEADER_SIZE, mtu)
  {
    var full := carrierPayload - HEADER_SIZE;
    RefusedIffTooLong(mtu, carrierPayload, carrierPayload, minPack);
    CeilDivAtMost(mtu, full, MAX_FRAGMENTS);
    CeilDivAtMost(mtu - Min(mtu, full), full, MAX_FRAGMENTS - 1);
    if mtu <= full { assert CeilDiv(mtu, full) == 1 + CeilDiv(mtu - full, full); }
  }

  /** The ring is sized for CarrierFragmentCount carriers per packet; no plan opens more. */
  lemma PlanWithinRingShare(packetLen: int, mtu: int, carrierPayload: int, remaining: int, minPack: int)
    requires 1 <= packetLen <= mtu
    requires MakePlan(packetLen, carrierPayload, remaining, minPack).Ok?
    ensures var plan := MakePlan(packetLen, carrierPayload, remaining, minPack).value;
            1 <= plan.fragments <= MAX_FRAGMENTS
            && (remaining < carrierPayload ==>
                 Opens(plan, true) <= CarrierFragmentCount(carrierPayload + IPV6_HEADER_SIZE, mtu))
            && (remaining == carrierPayload || !plan.startInTail ==>
                  Opens(plan, false) <= CarrierFragmentCount(carrierPayload + IPV6_HEADER_SIZE, mtu))
  {
    var full := carrierPayload - HEADER_SIZE;
    var plan := MakePlan(packetLen, carrierPayload, remaining, minPack).value;
    CeilDivMonotone(packetLen, mtu, full);
    CeilDivBracket(packetLen, full);
    if plan.startInTail {
      CeilDivMonotone(packetLen - plan.firstData, mtu, full);
      if remaining == carrierPayload {
        assert CeilDiv(packetLen, full) == 1 + CeilDiv(packetLen - full, full);
      }
    }
  }

  lemma RingShareMonotone(carrierSize: int, small: int, large: int)
    requires 1 <= small <= large
    ensures 1 <= CarrierFragmentCount(carrierSize, small) <= CarrierFragmentCount(carrierSize, large) <= MAX_FRAGMENTS
  {
    var d := carrierSize - IPV6_HEADER_SIZE - HEADER_SIZE;
    if d > 0 { CeilDivMonotone(small, large, d); }
  }

  // ----- splitting

  datatype Metadata = Metadata(dataSessionID: u16, laneID: u8, laneSequence: u32)

  datatype Options = Options(carrierPayload: int, carrierRemaining: int, minPack: int)

  datatype SplitError =
    | PacketSize
    | DataSessionID
    | CarrierPayloadRange
    | CarrierRemainingRange
    | MinPackRange
    | TooManyRecords
    | OutputTooShort

  datatype SplitResult = SplitResult(fragments: nat, startInTail: bool)

  function EndOf(r: Record): nat { r.header.offset + |r.data| }

  /** Record i of a packet cut into count records: its own header, the bytes that
      follow those of its predecessor, at least one of them. */
  predicate CutAt(frags: seq<Record>, i: nat, packet: seq<byte>, meta: Metadata, count: nat)
    requires i < |frags|
  {
    var r := frags[i];
    && r.header.fragmentIndex == i && r.header.fragmentCount == count
    && r.header.laneID == meta.laneID && r.header.dataSessionID == meta.dataSessionID
    && r.header.laneSequence == meta.laneSequence
    && r.header.offset == (if i == 0 then 0 else EndOf(frags[i - 1]))
    && |r.data| >= 1 && EndOf(r) <= |packet|
    && r.data == packet[r.header.offset..EndOf(r)]
  }

  predicate CutsPrefix(frags: seq<Record>, packet: seq<byte>, meta: Metadata, count: nat) {
    forall i :: 0 <= i < |frags| ==> CutAt(frags, i, packet, meta, count)
  }

  /** frags are the DATA records of packet: in order they tile its bytes exactly. */
  predicate IsSplitOf(frags: seq<Record>, packet: seq<byte>, meta: Metadata) {
    && 1 <= |frags| <= MAX_FRAGMENTS
    && CutsPrefix(frags, packet, meta, |frags|)
    && EndOf(frags[|frags| - 1]) == |packet|
    && meta.dataSessionID != 0
  }

  lemma CutExtends(frags: seq<Record>, r: Record, packet: seq<byte>, meta: Metadata, count: nat)
    requires CutsPrefix(frags, packet, meta, count) && CutAt(frags + [r], |frags|, packet, meta, count)
    ensures CutsPrefix(frags + [r], packet, meta, count)
  {
    var more := frags + [r];
    forall k | 0 <= k < |more| ensures CutAt(more, k, packet, meta, count) {
      if k < |frags| { assert CutAt(frags, k, packet, meta, count); }
    }
  }

  function JoinData(frags: seq<Record>): seq<byte> {
    if frags == [] then [] else JoinData(frags[..|frags| - 1]) + frags[|frags| - 1].data
  }

  lemma {:induction false} PrefixJoins(frags: seq<Record>, packet: seq<byte>, meta: Metadata, count: nat)
    requires CutsPrefix(frags, packet, meta, count) && frags != []
    ensures EndOf(frags[|frags| - 1]) <= |packet|
    ensures JoinData(frags) == packet[..EndOf(frags[|frags| - 1])]
  {
    var n := |frags| - 1;
    assert CutAt(frags, n, packet, meta, count);
    if n > 0 {
      var before := frags[..n];
      forall i | 0 <= i < n ensures CutAt(before, i, packet, meta, count) {
        assert CutAt(frags, i, packet, meta, count);
      }
      PrefixJoins(before, packet, meta, count);
      assert packet[..frags[n].header.offset] + frags[n].data == packet[..EndOf(frags[n])];
    } else {
      assert frags[..0] == [];
    }
  }

  /** Joining the records of a split in index order gives the packet back. */
  lemma SplitJoins(frags: seq<Record>, packet: seq<byte>, meta: Metadata)
    requires IsSplitOf(frags, packet, meta)
    ensures JoinData(frags) == packet
  {
    PrefixJoins(frags, packet, meta, |frags|);
  }

  /** Every record of a split of a packet within the MTU range is encodable. */
  lemma SplitIsValid(frags: seq<Record>, packet: seq<byte>, meta: Metadata)
    requires IsSplitOf(frags, packet, meta) && |packet| <= MAX_INNER_MTU
    ensures AllValid(frags)
  {
    forall i | 0 <= i < |frags| ensures Valid(frags[i]) {
      assert CutAt(frags, i, packet, meta, |frags|);
    }
  }

  function CheckSplit(packetLen: nat, meta: Metadata, options: Options): Option<SplitError> {
    if packetLen < 1 || packetLen > MAX_INNER_MTU then Some(PacketSize)
    else if meta.dataSessionID == 0 then Some(DataSessionID)
    else if options.carrierPayload <= HEADER_SIZE || options.carrierPayload > MAX_U16 then Some(CarrierPayloadRange)
    else if options.carrierRemaining < 0 ||
        options.carrierRemaining > options.carrierPayload then Some(CarrierRemainingRange)
    else if options.minPack < 1 then Some(MinPackRange)
    else if MakePlan(packetLen, options.carrierPayload, options.carrierRemaining, options.minPack).Err?
        then Some(TooManyRecords)
    else None
  }

  /** A packet is split exactly if it is between 1 and 9612 bytes long, has a session,
      and 16 records of a carrier of at most 65535 bytes hold it. */
  lemma SplitExactly(packetLen: nat, meta: Metadata, options: Options)
    ensures CheckSplit(packetLen, meta, options).None?
            <==> && 1 <= packetLen <= 9612 && meta.dataSessionID != 0 && options.minPack >= 1
                 && 12 < options.carrierPayload <= 65535 && 0 <= options.carrierRemaining <= options.carrierPayload
                 && packetLen <= 16 * (options.carrierPayload - 12)
  {
    if packetLen >= 1 && options.carrierPayload > HEADER_SIZE && options.minPack >= 1 &&
       0 <= options.carrierRemaining <= options.carrierPayload {
      RefusedIffTooLong(packetLen, options.carrierPayload, options.carrierRemaining, options.minPack);
    }
  }

  /** Records still to be cut when record i starts at offset. */
  function RecordsLeft(packetLen: nat, plan: Plan, fullData: nat, i: nat, offset: nat): nat
    requires fullData > 0
  {
    if i == 0 && plan.startInTail then 1 + CeilDiv(packetLen - plan.firstData, fullData)
        else CeilDiv(packetLen - offset, fullData)
  }

  function CutLength(packetLen: nat, plan: Plan, fullData: nat, i: nat, offset: nat): int {
    Min(if i == 0 && plan.startInTail then plan.firstData else fullData, packetLen - offset)
  }

  lemma CutOne(packetLen: nat, plan: Plan, fullData: nat, i: nat, offset: nat)
    requires fullData > 0 && offset <= packetLen && i < plan.fragments && (i == 0 ==> offset == 0)
    requires plan.startInTail ==> 1 <= plan.firstData <= Min(packetLen, fullData)
    requires plan.fragments - i == RecordsLeft(packetLen, plan, fullData, i, offset)
    ensures var n := CutLength(packetLen, plan, fullData, i, offset);
            1 <= n <= fullData && offset + n <= packetLen
            && plan.fragments - (i + 1) == RecordsLeft(packetLen, plan, fullData, i + 1, offset + n)
            && (i < plan.fragments - 1 ==> n == if i == 0 && plan.startInTail then plan.firstData else fullData)
  {
    if packetLen - offset < fullData { assert CeilDiv(packetLen - offset - fullData, fullData) == 0; }
  }

  predicate PlanFits(packetLen: nat, plan: Plan, fullData: nat) {
    && fullData > 0 && 1 <= plan.fragments <= MAX_FRAGMENTS
    && (plan.startInTail ==> 1 <= plan.firstData <= Min(packetLen, fullData))
    && plan.fragments == RecordsLeft(packetLen, plan, fullData, 0, 0)
  }

  /** The cutting loop. The source reports TooManyRecords if bytes are left
      over after it; the postcondition says none ever are. */
  method CutAll(packet: seq<byte>, meta: Metadata, plan: Plan, fullData: nat, output: array<Record>)
    requires |packet| <= MAX_INNER_MTU && meta.dataSessionID != 0
    requires PlanFits(|packet|, plan, fullData) && plan.fragments <= output.Length
    modifies output
    ensures IsSplitOf(output[..plan.fragments], packet, meta)
    ensures plan.startInTail ==> |output[0].data| == plan.firstData
    ensures forall k :: 0 <= k < plan.fragments ==> |output[k].data| <= fullData
    ensures forall k :: (if plan.startInTail then 1 else 0) <= k < plan.fragments - 1 ==> |output[k].data| == fullData
  {
    var offset := 0;
    var i := 0;
    while i < plan.fragments
      invariant 0 <= i <= plan.fragments && 0 <= offset <= |packet|
      invariant i == 0 ==> offset == 0
      invariant i > 0 ==> offset == EndOf(output[i - 1])
      invariant plan.fragments - i == RecordsLeft(|packet|, plan, fullData, i, offset)
      invariant CutsPrefix(output[..i], packet, meta, plan.fragments)
      invariant i > 0 && plan.startInTail ==> |output[0].data| == plan.firstData
      invariant forall k :: 0 <= k < i ==> |output[k].data| <= fullData
      invariant forall k :: (if plan.startInTail then 1 else 0) <= k < i && k < plan.fragments - 1 ==>
                  |output[k].data| == fullData
    {
      label before:
      CutOne(|packet|, plan, fullData, i, offset);
      var end := offset + CutLength(|packet|, plan, fullData, i, offset);
      var r := Record(Header(i, plan.fragments, meta.laneID, meta.dataSessionID, meta.laneSequence, offset),
          packet[offset..end]);
      CutExtends(output[..i], r, packet, meta, plan.fragments);
      output[i] := r;
      assert output[..i + 1] == old@before(output[..i]) + [r];
      offset := end;
      i := i + 1;
    }
    if offset < |packet| { CeilDivBracket(|packet| - offset, fullData); }
  }

  lemma MadePlanFits(packetLen: nat, meta: Metadata, options: Options)
    requires CheckSplit(packetLen, meta, options).None?
    ensures var plan := MakePlan(packetLen, options.carrierPayload, options.carrierRemaining, options.minPack).value;
            PlanFits(packetLen, plan, options.carrierPayload - HEADER_SIZE)
            && (plan.startInTail ==> HEADER_SIZE + plan.firstData <= options.carrierRemaining)
  {
    CeilDivBracket(packetLen, options.carrierPayload - HEADER_SIZE);
  }

  /** A packet admitted behind any used part of a carrier is admitted by an empty one. */
  lemma EmptyCarrierAdmits(packetLen: nat, meta: Metadata, options: Options)
    requires CheckSplit(packetLen, meta, options).None?
    ensures CheckSplit(packetLen, meta, options.(carrierRemaining := options.carrierPayload)).None?
  {
    RefusedIffTooLong(packetLen, options.carrierPayload, options.carrierRemaining, options.minPack);
    RefusedIffTooLong(packetLen, options.carrierPayload, options.carrierPayload, options.minPack);
  }

  /** Carriers that a split result opens beyond the one it may start in. */
  function NewCarriers(result: SplitResult, options: Options): int {
    result.fragments - if result.startInTail && options.carrierRemaining < options.carrierPayload then 1 else 0
  }

  /** Writes the record descriptors of packet into output. */
  method Split(packet: seq<byte>, meta: Metadata, options: Options, output: array<Record>)
    returns (result: Result<SplitResult, SplitError>)
    modifies output
    ensures CheckSplit(|packet|, meta, options).Some? ==> result == Err(CheckSplit(|packet|, meta, options).value)
    ensures CheckSplit(|packet|, meta, options).None? ==>
              var plan := MakePlan(|packet|, options.carrierPayload, options.carrierRemaining, options.minPack).value;
              plan.fragments <= MAX_FRAGMENTS
              && result == if output.Length < plan.fragments then Err(OutputTooShort)
                   else Ok(SplitResult(plan.fragments, plan.startInTail))
    ensures result.Err? ==> output[..] == old(output[..])
    ensures result.Ok? ==>
            1 <= result.value.fragments <= output.Length && IsSplitOf(output[..result.value.fragments], packet, meta)
    ensures result.Ok? && result.value.startInTail ==> HEADER_SIZE + |output[0].data| <= options.carrierRemaining
    // a record in a tail is worth its header, and only the last record may be short
    ensures result.Ok? ==> (result.value.startInTail <==>
                              && options.carrierRemaining - 12 >= options.minPack
                              && |packet| <= options.carrierRemaining - 12 + 15 * (options.carrierPayload - 12))
    ensures result.Ok? && result.value.startInTail ==> |output[0].data| >= Min(|packet|, options.minPack)
    ensures result.Ok? ==> forall k ::
              (if result.value.startInTail then 1 else 0) <= k < result.value.fragments - 1 ==>
                |output[k].data| == options.carrierPayload - 12
    ensures result.Ok? ==>
            forall i :: 0 <= i < result.value.fragments ==> HEADER_SIZE + |output[i].data| <= options.carrierPayload
    ensures result.Ok? ==>
            NewCarriers(result.value, options) <= CarrierFragmentCount(options.carrierPayload + IPV6_HEADER_SIZE,
            |packet|)
  {
    var bad := CheckSplit(|packet|, meta, options);
    if bad.Some? { return Err(bad.value); }
    var plan := MakePlan(|packet|, options.carrierPayload, options.carrierRemaining, options.minPack).value;
    MadePlanFits(|packet|, meta, options);
    if output.Length < plan.fragments { return Err(OutputTooShort); }
    PlanWithinRingShare(|packet|, |packet|, options.carrierPayload, options.carrierRemaining, options.minPack);
    PlanIsTight(|packet|, options.carrierPayload, options.carrierRemaining, options.minPack);
    CutAll(packet, meta, plan, options.carrierPayload - HEADER_SIZE, output);
    return Ok(SplitResult(plan.fragments, plan.startInTail));
  }
}
