/** Path MTU discovery for one peer direction (internal/core/pmtu/pmtu.go): the
    search as a state machine over its events. */
module PmtuSpec {
  import opened Wire

  const U32 := 0x1_0000_0000
  const CONFIRMATION_FAILURE_LIMIT := 3
  const SEARCH_ATTEMPT_LIMIT := 3
  const MILLISECOND := 1_000_000
  const MINIMUM_PROBE_TIMEOUT := 100 * MILLISECOND
  const MAX_DURATION := 0x7fff_ffff_ffff_ffff

  /** canon maps a size to the one the transport can represent. */
  datatype Config = Config(
    base: u32, ceiling: u32, canon: u32 -> u32, probeTimeout: int, refreshInterval: int, confirmationInterval: int)

  predicate ConfigOk(c: Config) {
    && DEFAULT_CARRIER_PAYLOAD <= c.base <= c.ceiling && c.probeTimeout >= MINIMUM_PROBE_TIMEOUT
    && c.refreshInterval > 0 && c.confirmationInterval > 0
  }

  /** bad is the least size known to fail, 0 while there is none. */
  datatype Search = Search(
    confirmed: u32, low: u32, bad: u32, candidate: u32, rounds: seq<u32>, results: nat,
    attempt: nat, inFlight: bool, pending: bool, deadline: int, nextRefresh: Option<int>,
    candidateTries: nat, confirming: bool, refreshing: bool, confirmationCandidate: u32, confirmFailures: nat,
    nextConfirmation: Option<int>, blackholed: bool, srtt: int, searchHint: u32)

  predicate Searching(s: Search) { s.pending || s.inFlight }

  function NewSearch(c: Config): Search {
    Search(c.base, 0, 0, 0, [0, 0, 0], 0, 0, false, false, 0, None, 0, false, false, 0, 0, None, false, 0, 0)
  }

  // ----- candidates

  function CanonicalCandidate(c: Config, size: u32): u32 {
    if c.base <= c.canon(size) <= c.ceiling then c.canon(size) else 0
  }

  /** low + (bad - low) / 2 in 32 bits. */
  function Mid(low: u32, bad: u32): u32 {
    (low + (bad - low) % U32 / 2) % U32
  }

  function NextCandidate(c: Config, low: u32, bad: u32): u32 {
    if bad != 0 then
      var k := CanonicalCandidate(c, Mid(low, bad));
      if k <= low || k >= bad then 0 else k
    else if low >= c.ceiling then 0
    else
      var k := CanonicalCandidate(c, if low > c.ceiling / 2 then c.ceiling else low * 2 % U32);
      if k <= low then 0 else k
  }

  function Median(a: u32, b: u32, c: u32): (m: u32)
    ensures m == a || m == b || m == c
    ensures (a <= m || b <= m) && (a <= m || c <= m) && (b <= m || c <= m)
    ensures (m <= a || m <= b) && (m <= a || m <= c) && (m <= b || m <= c)
  {
    var (a', b') := if a > b then (b, a) else (a, b);
    var m := if b' > c then c else b';
    if a' > m then a' else m
  }

  // ----- rounds

  function Idle(c: Config, s: Search, now: int): Search {
    s.(nextRefresh := Some(now + c.refreshInterval), nextConfirmation := Some(now + c.confirmationInterval))
  }

  function BeginRound(c: Config, s: Search, now: int): (t: Search)
    requires s.results <= 2 && |s.rounds| == 3
    decreases 3 - s.results, 1
  {
    var first := NextCandidate(c, c.base, 0);
    var hinted := CanonicalCandidate(c, s.searchHint);
    var k := if hinted > c.base then hinted else first;
    var t := s.(low := c.base, bad := 0, candidateTries := 0, candidate := k, searchHint := 0, inFlight := false);
    if k == 0 then FinishRound(c, t, now) else t.(pending := true)
  }

  function FinishRound(c: Config, s: Search, now: int): (t: Search)
    requires s.results <= 2 && |s.rounds| == 3
    decreases 3 - s.results, 0
  {
    var t := s.(pending := false, inFlight := false, rounds := s.rounds[s.results := s.low], results := s.results + 1);
    if t.results == 1 || (t.results == 2 && t.rounds[0] != t.rounds[1]) then BeginRound(c, t, now)
    else
      var k := if t.results == 2 then t.rounds[0] else Median(t.rounds[0], t.rounds[1], t.rounds[2]);
      if k > t.confirmed then
        t.(confirmationCandidate := k, confirming := true, candidate := k, candidateTries := 0, pending := true)
      else Idle(c, t.(searchHint := 0, refreshing := false), now)
  }

  function Start(c: Config, s: Search, now: int, refreshing: bool): Search
    requires |s.rounds| == 3
  {
    var t := s.(searchHint := if refreshing then 0 else s.searchHint, results := 0, confirming := false,
        refreshing := refreshing,
                confirmationCandidate := 0, confirmFailures := 0, nextConfirmation := None);
    if c.ceiling == c.base then Idle(c, t.(confirmed := c.base, pending := false, inFlight := false, searchHint := 0),
        now)
    else BeginRound(c, t, now)
  }

  /** The search goes on above low and below bad, or its round ends. */
  function Continue(c: Config, s: Search, now: int): Search
    requires s.results <= 2 && |s.rounds| == 3
  {
    var t := s.(candidateTries := 0, candidate := NextCandidate(c, s.low, s.bad));
    if t.candidate == 0 then FinishRound(c, t, now) else t.(pending := true)
  }

  // ----- what becomes of a probe

  function Succeed(c: Config, s: Search, now: int): Search
    requires (!s.confirming ==> s.results <= 2) && |s.rounds| == 3
  {
    if !s.confirming then Continue(c, s.(inFlight := false, low := s.candidate), now)
    else
      var t := s.(inFlight := false, confirming := false, pending := false, confirmFailures := 0);
      if s.confirmationCandidate != 0 then
        Idle(c, t.(confirmed := s.confirmationCandidate, confirmationCandidate := 0, refreshing := false), now)
      else t.(nextConfirmation := Some(now + c.confirmationInterval))
  }

  /** Two lost confirmations are forgiven; the third is a black hole. */
  function LoseConfirmation(c: Config, s: Search, now: int): Search
    requires |s.rounds| == 3
  {
    var t := s.(inFlight := false, confirming := false, pending := false);
    if s.confirmationCandidate != 0
        then Idle(c, t.(confirmationCandidate := 0, refreshing := false, confirmFailures := 0), now)
    else if s.confirmFailures + 1 < CONFIRMATION_FAILURE_LIMIT then
      t.(confirmFailures := s.confirmFailures + 1, nextConfirmation := Some(now + c.confirmationInterval))
    else Start(c, t.(confirmed := c.base, blackholed := true, searchHint := 0), now, false)
  }

  function Lose(c: Config, s: Search, now: int, definitive: bool): Search
    requires (!s.confirming ==> s.results <= 2) && |s.rounds| == 3
  {
    if s.confirming then LoseConfirmation(c, s, now)
    else if !definitive && s.candidateTries < SEARCH_ATTEMPT_LIMIT then s.(inFlight := false, pending := true)
    else Continue(c, s.(inFlight := false, bad := s.candidate), now)
  }

  // ----- the probe timeout

  function ProbeTimeout(c: Config, s: Search): int {
    if s.srtt <= 0 then c.probeTimeout
    else if s.srtt > MAX_DURATION / 4 then MAX_DURATION
    else if 4 * s.srtt < MINIMUM_PROBE_TIMEOUT then MINIMUM_PROBE_TIMEOUT
    else 4 * s.srtt
  }

  /** Division that truncates toward zero. */
  function Quotient(a: int, n: nat): int
    requires n > 0
  {
    if a >= 0 then a / n else -(-a / n)
  }

  function Smoothed(srtt: int, sample: int): int {
    if sample <= 0 then srtt else if srtt == 0 then sample else srtt + Quotient(sample - srtt, 8)
  }

  // ----- events

  datatype Event =
    | Begin(now: int)
    | BeginWithHint(now: int, hint: u32)
    | Refresh(now: int)
    | Confirm(now: int)
    | Send(now: int)
    | Ack(attempt: nat, size: u32, now: int)
    | Fail(attempt: nat, now: int)
    | FailCurrent(now: int)
    | SoftFail(now: int)
    | Tick(now: int)
    | Blackhole(now: int)
    | Adjust(attempt: nat, size: u32)
    | Rtt(sample: int)
    | TakeBlackhole

  predicate RefreshIsDue(s: Search, now: int) {
    !Searching(s) && s.nextRefresh.Some? && now >= s.nextRefresh.value
  }

  predicate ConfirmationIsDue(s: Search, now: int) {
    !Searching(s) && s.nextConfirmation.Some? && now >= s.nextConfirmation.value
  }

  predicate Acknowledges(s: Search, e: Event) {
    e.Ack? && s.inFlight && e.attempt == s.attempt && e.size == s.candidate
  }

  /** The outstanding probe counts as lost, for certain when definitive. */
  predicate Loses(s: Search, e: Event) {
    s.inFlight && (e.FailCurrent? || e.SoftFail? || (e.Fail? && e.attempt == s.attempt) ||
        (e.Tick? && e.now >= s.deadline))
  }

  predicate Definitive(e: Event) { e.Fail? || e.FailCurrent? }

  /** Every state allows every event: a running round still has room for its result. */
  predicate Ready(s: Search) {
    |s.rounds| == 3 && (s.inFlight && !s.confirming ==> s.results <= 2)
  }

  function Step(c: Config, s: Search, e: Event): Search
    requires Ready(s)
  {
    match e
    case Begin(now) => Start(c, s.(searchHint := 0), now, false)
    case BeginWithHint(now, hint) => Start(c, s.(searchHint := hint), now, false)
    case Refresh(now) => if RefreshIsDue(s, now) then Start(c, s, now, true) else s
    case Confirm(now) =>
      if ConfirmationIsDue(s, now)
      then s.(confirming := true, confirmationCandidate := 0, candidate := s.confirmed, candidateTries := 0,
          pending := true)
      else s
    case Send(now) =>
      if s.pending
      then s.(pending := false, inFlight := true, attempt := s.attempt + 1, candidateTries := s.candidateTries + 1,
              deadline := now + ProbeTimeout(c, s))
      else s
    case Ack(_, _, now) => if Acknowledges(s, e) then Succeed(c, s, now) else s
    case Fail(_, now) => if Loses(s, e) then Lose(c, s, now, true) else s
    case FailCurrent(now) => if Loses(s, e) then Lose(c, s, now, true) else s
    case SoftFail(now) => if Loses(s, e) then Lose(c, s, now, false) else s
    case Tick(now) => if Loses(s, e) then Lose(c, s, now, false) else s
    case Blackhole(now) => Start(c, s.(confirmed := c.base, searchHint := 0), now, false)
    case Adjust(attempt, size) =>
      if s.inFlight && attempt == s.attempt && c.base <= size <= c.ceiling then s.(candidate := size) else s
    case Rtt(sample) => s.(srtt := Smoothed(s.srtt, sample))
    case TakeBlackhole => s.(blackholed := false)
  }
}
