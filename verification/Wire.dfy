/** Shared value types and the DATA record wire format (internal/core/carrier/record.go). */
module Wire {

  datatype Option<+T> = None | Some(value: T)
  datatype Result<+T, +E> = Ok(value: T) | Err(error: E)

  type byte = x: int | 0 <= x < 0x100
  type u8 = x: int | 0 <= x < 0x100
  type u16 = x: int | 0 <= x < 0x1_0000
  type u32 = x: int | 0 <= x < 0x1_0000_0000

  /** A closed predicate unfolds only in proofs that mention Look. */
  ghost predicate Look(k: int) { true }

  const HEADER_SIZE := 12
  const MAX_U16 := 0xFFFF
  const MAX_FRAGMENTS := 16
  const MIN_INNER_MTU := 1280
  const MAX_INNER_MTU := 9612
  const DEFAULT_CARRIER_PAYLOAD := 613
  const LANES := 256

  datatype Header = Header(
    fragmentIndex: u8, fragmentCount: u8, laneID: u8,
    dataSessionID: u16, laneSequence: u32, offset: u16)

  datatype Record = Record(header: Header, data: seq<byte>)

  datatype WireError =
    | HeaderTooShort
    | RecordTruncated
    | InvalidRecordLength
    | InvalidFragment
    | InvalidDataSessionID
    | InvalidRange
    | ShortBuffer

  /** The checks both the encoder and the decoder apply, in the source's order. */
  function Validate(h: Header, dataLen: nat): Option<WireError> {
    if h.fragmentCount < 1 || h.fragmentCount > MAX_FRAGMENTS ||
        h.fragmentIndex >= h.fragmentCount then Some(InvalidFragment)
    else if h.dataSessionID == 0 then Some(InvalidDataSessionID)
    else if dataLen < 1 || dataLen > MAX_U16 - HEADER_SIZE then Some(InvalidRecordLength)
    else if h.offset + dataLen > MAX_U16 then Some(InvalidRange)
    else None
  }

  predicate Valid(r: Record) {
    Validate(r.header, |r.data|).None?
  }

  function PutU16(x: u16): (s: seq<byte>)
    ensures |s| == 2
  {
    [x / 0x100, x % 0x100]
  }

  function GetU16(s: seq<byte>): u16
    requires |s| == 2
  {
    var hi: int, lo: int := s[0], s[1];
    hi * 0x100 + lo
  }

  function PutU32(x: u32): (s: seq<byte>)
    ensures |s| == 4
  {
    PutU16(x / 0x1_0000) + PutU16(x % 0x1_0000)
  }

  function GetU32(s: seq<byte>): u32
    requires |s| == 4
  {
    var hi: int, lo: int := GetU16(s[..2]), GetU16(s[2..]);
    hi * 0x1_0000 + lo
  }

  /** The twelve header bytes. For a valid record the index and the count minus
      one are both below 16, so the shift-and-or of the source is this sum. */
  function EncodeHeader(r: Record): (s: seq<byte>)
    requires Valid(r)
    ensures |s| == HEADER_SIZE
  {
    var h := r.header;
    PutU16(HEADER_SIZE + |r.data|)
    + [h.fragmentIndex * 16 + (h.fragmentCount - 1), h.laneID]
    + PutU16(h.dataSessionID) + PutU32(h.laneSequence) + PutU16(h.offset)
  }

  function Encode(r: Record): (s: seq<byte>)
    requires Valid(r)
    ensures |s| == HEADER_SIZE + |r.data|
  {
    EncodeHeader(r) + r.data
  }

  function DecodeHeader(src: seq<byte>): Header
    requires |src| >= HEADER_SIZE
  {
    Header(src[2] / 16, src[2] % 16 + 1, src[3], GetU16(src[4..6]), GetU32(src[6..10]), GetU16(src[10..12]))
  }

  /** Decodes the first record of src and reports how many bytes it used. */
  function DecodeRecord(src: seq<byte>): Result<(Record, nat), WireError> {
    if |src| < HEADER_SIZE then Err(HeaderTooShort)
    else
      var recordLen := GetU16(src[0..2]);
      if recordLen < HEADER_SIZE + 1 then Err(InvalidRecordLength)
      else if recordLen > |src| then Err(RecordTruncated)
      else
        var h := DecodeHeader(src);
        var data := src[HEADER_SIZE..recordLen];
        var bad := Validate(h, |data|);
        if bad.Some? then Err(bad.value) else Ok((Record(h, data), recordLen))
  }

  // ----- numbers on the wire

  lemma U32RoundTrip(x: u32)
    ensures GetU32(PutU32(x)) == x
  {
    var s := PutU32(x);
    assert s[..2] == PutU16(x / 0x1_0000) && s[2..] == PutU16(x % 0x1_0000);
  }

  lemma U16Canonical(s: seq<byte>)
    requires |s| == 2
    ensures PutU16(GetU16(s)) == s
  {}

  lemma U32Canonical(s: seq<byte>)
    requires |s| == 4
    ensures PutU32(GetU32(s)) == s
  {
    U16Canonical(s[..2]);
    U16Canonical(s[2..]);
    assert s == s[..2] + s[2..];
  }

  // ----- one record

  /** Decoding what was encoded gives the record back and leaves the rest alone. */
  lemma DecodeEncode(r: Record, rest: seq<byte>)
    requires Valid(r)
    ensures DecodeRecord(Encode(r) + rest) == Ok((r, HEADER_SIZE + |r.data|))
  {
    var src := Encode(r) + rest;
    var h := r.header;
    assert src[0..2] == PutU16(HEADER_SIZE + |r.data|);
    assert src[4..6] == PutU16(h.dataSessionID);
    assert src[6..10] == PutU32(h.laneSequence);
    assert src[10..12] == PutU16(h.offset);
    U32RoundTrip(h.laneSequence);
    assert src[HEADER_SIZE..HEADER_SIZE + |r.data|] == r.data;
    assert DecodeHeader(src) == h;
  }

  /** The decoder accepts nothing but encodings: no two byte strings mean one record. */
  lemma EncodeDecode(src: seq<byte>)
    requires DecodeRecord(src).Ok?
    ensures var (r, n) := DecodeRecord(src).value;
            Valid(r) && n == HEADER_SIZE + |r.data| <= |src| && src[..n] == Encode(r)
  {
    var (r, n) := DecodeRecord(src).value;
    U16Canonical(src[0..2]);
    U16Canonical(src[4..6]);
    U32Canonical(src[6..10]);
    U16Canonical(src[10..12]);
    var head := EncodeHeader(r);
    assert head[..2] == src[0..2] && head[4..6] == src[4..6] && head[6..10] == src[6..10] &&
        head[10..12] == src[10..12];
    forall i | 0 <= i < HEADER_SIZE ensures head[i] == src[i] {
      if 6 <= i < 10 { assert head[i] == head[6..10][i - 6]; }
    }
    assert src[..HEADER_SIZE] == head;
  }

  // ----- the layout of a record

  function Octet(s: seq<byte>, i: nat): int
    requires i < |s|
  {
    s[i]
  }

  /** s is the record byte by byte: big-endian total length, index and count less
      one in the two halves of byte 2, lane, then session, sequence and offset in
      big-endian order, then the data. */
  predicate LaidOut(s: seq<byte>, r: Record) {
    && |s| == 12 + |r.data|
    && Octet(s, 0) * 0x100 + Octet(s, 1) == |s|
    && Octet(s, 2) == r.header.fragmentIndex * 0x10 + r.header.fragmentCount - 1
    && Octet(s, 3) == r.header.laneID
    && Octet(s, 4) * 0x100 + Octet(s, 5) == r.header.dataSessionID
    && Octet(s, 6) * 0x100_0000 + Octet(s, 7) * 0x1_0000 + Octet(s, 8) * 0x100 + Octet(s, 9) == r.header.laneSequence
    && Octet(s, 10) * 0x100 + Octet(s, 11) == r.header.offset
    && s[12..] == r.data
  }

  /** What the format allows. */
  predicate WithinFormat(r: Record) {
    && r.header.fragmentIndex < r.header.fragmentCount <= 16 && r.header.dataSessionID != 0
    && 1 <= |r.data| <= 65535 - 12 && r.header.offset + |r.data| <= 65535
  }

  lemma EncodeIsLaidOut(r: Record)
    requires Valid(r)
    ensures LaidOut(Encode(r), r)
  {
    var s, h := Encode(r), r.header;
    assert s[..2] == PutU16(HEADER_SIZE + |r.data|) && s[4..6] == PutU16(h.dataSessionID);
    assert s[6..10] == PutU32(h.laneSequence) && s[10..12] == PutU16(h.offset);
    PutU32Bytes(h.laneSequence);
    assert s[6] == s[6..10][0] && s[7] == s[6..10][1] && s[8] == s[6..10][2] && s[9] == s[6..10][3];
    assert s[0] == s[..2][0] && s[1] == s[..2][1] && s[4] == s[4..6][0] && s[5] == s[4..6][1];
    assert s[10] == s[10..12][0] && s[11] == s[10..12][1];
  }

  lemma PutU32Bytes(x: u32)
    ensures var s := PutU32(x);
            Octet(s, 0) * 0x100_0000 + Octet(s, 1) * 0x1_0000 + Octet(s, 2) * 0x100 + Octet(s, 3) == x
  {}

  lemma GetU32Bytes(s: seq<byte>)
    requires |s| == 4
    ensures GetU32(s) == Octet(s, 0) * 0x100_0000 + Octet(s, 1) * 0x1_0000 + Octet(s, 2) * 0x100 + Octet(s, 3)
  {
    assert s[2..][0] == s[2] && s[2..][1] == s[3];
  }

  /** A record decodes from the head of src exactly when src begins with its layout
      and the record is within the format. */
  lemma DecodeIffLaidOut(src: seq<byte>, r: Record, n: nat)
    ensures DecodeRecord(src) == Ok((r, n)) <==> WithinFormat(r) && n <= |src| && LaidOut(src[..n], r)
  {
    if DecodeRecord(src) == Ok((r, n)) {
      EncodeDecode(src);
      EncodeIsLaidOut(r);
    }
    if WithinFormat(r) && n <= |src| && LaidOut(src[..n], r) { LaidOutDecodes(src, r, n); }
  }

  lemma LaidOutDecodes(src: seq<byte>, r: Record, n: nat)
    requires WithinFormat(r) && n <= |src| && LaidOut(src[..n], r)
    ensures DecodeRecord(src) == Ok((r, n))
  {
    var s := src[..n];
    assert src[0..2] == s[0..2] && src[4..6] == s[4..6] && src[6..10] == s[6..10] && src[10..12] == s[10..12];
    GetU32Bytes(s[6..10]);
    assert src[HEADER_SIZE..n] == s[12..];
    assert DecodeHeader(src) == r.header;
  }

  // ----- a whole carrier payload

  predicate AllValid(rs: seq<Record>) {
    forall i :: 0 <= i < |rs| ==> Valid(rs[i])
  }

  function EncodeAll(rs: seq<Record>): seq<byte>
    requires AllValid(rs)
  {
    if rs == [] then [] else Encode(rs[0]) + EncodeAll(rs[1..])
  }

  /** The strict whole-payload parse: the records, or the first error. */
  function ParseAll(payload: seq<byte>): Result<seq<Record>, WireError>
    decreases |payload|
  {
    if payload == [] then Err(HeaderTooShort)
    else ParseRest(payload)
  }

  function ParseRest(payload: seq<byte>): Result<seq<Record>, WireError>
    decreases |payload|
  {
    if payload == [] then Ok([])
    else match DecodeRecord(payload)
      case Err(e) => Err(e)
      case Ok((r, n)) =>
        match ParseRest(payload[n..])
        case Err(e) => Err(e)
        case Ok(rs) => Ok([r] + rs)
  }

  lemma Assoc<T>(a: seq<T>, b: seq<T>, c: seq<T>)
    ensures (a + b) + c == a + (b + c)
  {}

  lemma EncodeAllCons(r: Record, rs: seq<Record>)
    requires Valid(r) && AllValid(rs)
    ensures AllValid([r] + rs) && EncodeAll([r] + rs) == Encode(r) + EncodeAll(rs)
  {
    assert ([r] + rs)[1..] == rs;
  }

  lemma Glue(payload: seq<byte>, n: nat, r: Record, rs: seq<Record>)
    requires Valid(r) && AllValid(rs) && n <= |payload|
    requires payload[..n] == Encode(r) && payload[n..] == EncodeAll(rs)
    ensures AllValid([r] + rs) && EncodeAll([r] + rs) == payload
  {
    EncodeAllCons(r, rs);
    assert payload == payload[..n] + payload[n..];
  }

  lemma ParseRestCons(r: Record, tail: seq<byte>)
    requires Valid(r)
    ensures ParseRest(Encode(r) + tail) == match ParseRest(tail) case Err(e) => Err(e) case Ok(rs) => Ok([r] + rs)
  {
    DecodeEncode(r, tail);
    assert (Encode(r) + tail)[HEADER_SIZE + |r.data|..] == tail;
  }

  lemma {:induction false} ParseRestEncode(rs: seq<Record>)
    requires AllValid(rs)
    ensures ParseRest(EncodeAll(rs)) == Ok(rs)
  {
    if rs != [] {
      var tail := EncodeAll(rs[1..]);
      ParseRestCons(rs[0], tail);
      ParseRestEncode(rs[1..]);
      assert rs == [rs[0]] + rs[1..];
    }
  }

  lemma {:induction false} ParseRestSound(payload: seq<byte>)
    requires ParseRest(payload).Ok?
    ensures AllValid(ParseRest(payload).value) && EncodeAll(ParseRest(payload).value) == payload
    decreases |payload|
  {
    if payload != [] {
      var (r, n) := DecodeRecord(payload).value;
      EncodeDecode(payload);
      ParseRestSound(payload[n..]);
      Glue(payload, n, r, ParseRest(payload[n..]).value);
    }
  }

  /** A payload parses to rs exactly when it is the non-empty concatenation of
      the encodings of rs: printer and parser are inverse to each other. */
  lemma ParseIffEncoded(payload: seq<byte>, rs: seq<Record>)
    ensures ParseAll(payload) == Ok(rs) <==> rs != [] && AllValid(rs) && payload == EncodeAll(rs)
  {
    if ParseAll(payload) == Ok(rs) {
      ParseRestSound(payload);
    }
    if rs != [] && AllValid(rs) && payload == EncodeAll(rs) {
      ParseRestEncode(rs);
      assert |Encode(rs[0])| > 0;
    }
  }

  lemma {:induction false} EncodeAllAppend(a: seq<Record>, b: seq<Record>)
    requires AllValid(a) && AllValid(b)
    ensures AllValid(a + b) && EncodeAll(a + b) == EncodeAll(a) + EncodeAll(b)
  {
    if a == [] {
      assert a + b == b;
    } else {
      var tail := a[1..];
      EncodeAllAppend(tail, b);
      EncodeAllCons(a[0], tail + b);
      Assoc(Encode(a[0]), EncodeAll(tail), EncodeAll(b));
      assert a + b == [a[0]] + (tail + b);
    }
  }

  /** A DATA payload begins with a non-zero 16-bit length, so the zero marker of
      a CONTROL frame (internal/core/control/frame.go) never matches it. */
  lemma DataIsNotControl(rs: seq<Record>)
    requires AllValid(rs) && rs != []
    ensures |EncodeAll(rs)| > HEADER_SIZE && GetU16(EncodeAll(rs)[..2]) != 0
  {
    var s := EncodeAll(rs);
    assert s[..2] == PutU16(HEADER_SIZE + |rs[0].data|);
  }

  /** The built-in copy: bytes replaces the part of dst that starts at at. */
  method CopyInto(dst: array<byte>, at: nat, bytes: seq<byte>)
    requires at + |bytes| <= dst.Length
    modifies dst
    ensures dst[..] == old(dst[..at]) + bytes + old(dst[at + |bytes|..])
  {
    var i := 0;
    while i < |bytes|
      invariant 0 <= i <= |bytes|
      invariant dst[..at] == old(dst[..at]) && dst[at..at + i] == bytes[..i] && dst[at + i..] == old(dst[at + i..])
    {
      dst[at + i] := bytes[i];
      i := i + 1;
    }
  }

  lemma Middle<T>(a: seq<T>, b: seq<T>, c: seq<T>)
    ensures (a + b + c)[|a|..|a| + |b|] == b
  {}

  method WriteRecord(dst: array<byte>, at: nat, r: Record)
    requires Valid(r) && at + HEADER_SIZE + |r.data| <= dst.Length
    modifies dst
    ensures dst[..] == old(dst[..at]) + Encode(r) + old(dst[at + HEADER_SIZE + |r.data|..])
  {
    CopyInto(dst, at, EncodeHeader(r));
    CopyInto(dst, at + HEADER_SIZE, r.data);
  }

  /** Writes one record at position at of dst. */
  method MarshalTo(dst: array<byte>, at: nat, r: Record) returns (written: nat, err: Option<WireError>)
    requires at <= dst.Length
    modifies dst
    ensures err.Some? ==> written == 0 && dst[..] == old(dst[..])
    ensures err == if !Valid(r) then Validate(r.header, |r.data|)
                   else if dst.Length - at < HEADER_SIZE + |r.data| then Some(ShortBuffer) else None
    ensures err.None? ==> Valid(r) && written == HEADER_SIZE + |r.data| && at + written <= dst.Length
    ensures err.None? ==> dst[..] == old(dst[..at]) + Encode(r) + old(dst[at + written..])
    ensures err.None? ==> WithinFormat(r) && LaidOut(dst[at..at + written], r)
  {
    err := Validate(r.header, |r.data|);
    written := 0;
    if err.Some? { return; }
    var recordLen := HEADER_SIZE + |r.data|;
    if dst.Length - at < recordLen {
      err := Some(ShortBuffer);
      return;
    }
    WriteRecord(dst, at, r);
    written := recordLen;
    EncodeIsLaidOut(r);
    Middle(old(dst[..at]), Encode(r), old(dst[at + written..]));
  }

  ghost predicate Visiting(payload: seq<byte>, visited: seq<Record>, rest: seq<byte>) {
    AllValid(visited) && EncodeAll(visited) + rest == payload
  }

  lemma VisitOne(payload: seq<byte>, visited: seq<Record>, rest: seq<byte>)
    requires Visiting(payload, visited, rest) && rest != [] && DecodeRecord(rest).Ok?
    ensures var (r, n) := DecodeRecord(rest).value;
            0 < n <= |rest| && Visiting(payload, visited + [r], rest[n..])
  {
    var (r, n) := DecodeRecord(rest).value;
    EncodeDecode(rest);
    EncodeAllCons(r, []);
    assert [r] + [] == [r];
    EncodeAllAppend(visited, [r]);
    Assoc(EncodeAll(visited), Encode(r), rest[n..]);
    assert rest == rest[..n] + rest[n..];
  }

  lemma {:induction false} ParseRestFails(visited: seq<Record>, rest: seq<byte>)
    requires AllValid(visited) && rest != [] && DecodeRecord(rest).Err?
    ensures ParseRest(EncodeAll(visited) + rest) == Err(DecodeRecord(rest).error)
  {
    var all := EncodeAll(visited) + rest;
    if visited == [] {
      assert all == rest;
    } else {
      var tail := EncodeAll(visited[1..]) + rest;
      assert all == Encode(visited[0]) + tail;
      DecodeEncode(visited[0], tail);
      ParseRestFails(visited[1..], rest);
      assert all[HEADER_SIZE + |visited[0].data|..] == tail;
    }
  }

  /** The visiting loop over a shrinking slice: everything before the first
      undecodable record has been visited, and that record's error is reported. */
  method Parse(payload: seq<byte>) returns (visited: seq<Record>, err: Option<WireError>)
    ensures err == match ParseAll(payload) case Ok(_) => None case Err(e) => Some(e)
    ensures err.None? ==> ParseAll(payload) == Ok(visited)
    ensures AllValid(visited) && EncodeAll(visited) <= payload
    ensures err.Some? && payload != [] ==> DecodeRecord(payload[|EncodeAll(visited)|..]) == Err(err.value)
  {
    visited := [];
    err := None;
    if payload == [] { return visited, Some(HeaderTooShort); }
    var rest := payload;
    while rest != []
      invariant Visiting(payload, visited, rest)
      decreases |rest|
    {
      var d := DecodeRecord(rest);
      if d.Err? {
        ParseRestFails(visited, rest);
        assert payload[|EncodeAll(visited)|..] == rest;
        return visited, Some(d.error);
      }
      VisitOne(payload, visited, rest);
      var (r, n) := d.value;
      visited := visited + [r];
      rest := rest[n..];
    }
    assert EncodeAll(visited) == payload;
    ParseRestEncode(visited);
  }
}
