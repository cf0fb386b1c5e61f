/** What every run of the path MTU search keeps, and where it ends. */
module PmtuTheorems {
  import opened Wire
  import opened PmtuSpec

  // ----- safety over whole runs

  predicate Within(c: Config, size: u32) { c.base <= size <= c.ceiling }

  /** A search with the sizes acknowledged in its rounds since it was started. */
  datatype Run = Run(s: Search, acked: set<u32>)

  predicate Known(c: Config, h: Run, size: u32) { size == c.base || (size in h.acked && Within(c, size)) }

  predicate Results(c: Config, h: Run) {
    && |h.s.rounds| == 3 && h.s.results <= 3
    && (h.s.results >= 1 ==> Known(c, h, h.s.rounds[0]))
    && (h.s.results >= 2 ==> Known(c, h, h.s.rounds[1]))
    && (h.s.results >= 3 ==> Known(c, h, h.s.rounds[2]))
  }

  predicate Inv(c: Config, h: Run) {
    var s := h.s;
    && ConfigOk(c) && Results(c, h) && Within(c, s.confirmed) && !(s.pending && s.inFlight)
    && (s.confirming ==> Searching(s))
    && (Searching(s) ==> Within(c, s.candidate))
    && (Searching(s) && !s.confirming ==> s.results <= 2 && Known(c, h, s.low))
    && (s.confirmationCandidate != 0 ==>
         s.confirming && s.confirmed < s.confirmationCandidate && Known(c, h, s.confirmationCandidate))
    && s.confirmFailures < CONFIRMATION_FAILURE_LIMIT
  }

  /** The event starts a new search, or a black hole does. */
  predicate Restarts(s: Search, e: Event) {
    || e.Begin? || e.BeginWithHint? || e.Blackhole? || (e.Refresh? && RefreshIsDue(s, e.now))
    || ThirdLoss(s, e)
  }

  /** A confirmation of the size in use is lost for the third time since the
      last success or restart. */
  predicate ThirdLoss(s: Search, e: Event) {
    Loses(s, e) && s.confirming && s.confirmationCandidate == 0 && s.confirmFailures == CONFIRMATION_FAILURE_LIMIT - 1
  }

  function Advance(c: Config, h: Run, e: Event): Run
    requires Inv(c, h)
  {
    Run(Step(c, h.s, e),
        if Restarts(h.s, e) then {} else if Acknowledges(h.s, e) && !h.s.confirming then h.acked + {e.size}
            else h.acked)
  }

  function RunAll(c: Config, h: Run, es: seq<Event>): (r: Run)
    requires Inv(c, h)
    ensures Inv(c, r)
    decreases |es|
  {
    if es == [] then h else
    assert Inv(c, Advance(c, h, es[0])) by { StepKeepsInv(c, h, es[0]); }
    RunAll(c, Advance(c, h, es[0]), es[1..])
  }

  lemma NewIsInv(c: Config)
    requires ConfigOk(c)
    ensures Inv(c, Run(NewSearch(c), {}))
  {}

  lemma CandidateWithin(c: Config, low: u32, bad: u32)
    requires ConfigOk(c)
    ensures NextCandidate(c, low, bad) != 0 ==>
            Within(c, NextCandidate(c, low, bad)) && low < NextCandidate(c, low, bad)
    ensures NextCandidate(c, low, bad) != 0 && bad != 0 ==> NextCandidate(c, low, bad) < bad
  {}

  /** What a round needs to begin, and what it needs to end. */
  predicate CanBegin(c: Config, h: Run) {
    && ConfigOk(c) && Results(c, h) && h.s.results <= 2 && Within(c, h.s.confirmed)
    && !h.s.confirming && h.s.confirmationCandidate == 0 && h.s.confirmFailures < CONFIRMATION_FAILURE_LIMIT
  }

  lemma {:induction false} BeginRoundKeeps(c: Config, h: Run, now: int)
    requires CanBegin(c, h) && !h.s.pending
    ensures Inv(c, Run(BeginRound(c, h.s, now), h.acked))
    ensures BeginRound(c, h.s, now).confirmed == h.s.confirmed
    decreases 3 - h.s.results, 1
  {
    CandidateWithin(c, c.base, 0);
    var first, hinted := NextCandidate(c, c.base, 0), CanonicalCandidate(c, h.s.searchHint);
    var k := if hinted > c.base then hinted else first;
    if k == 0 {
      var t := h.s.(low := c.base, bad := 0, candidateTries := 0, candidate := k, searchHint := 0, inFlight := false);
      FinishRoundKeeps(c, Run(t, h.acked), now);
    }
  }

  lemma {:induction false} FinishRoundKeeps(c: Config, h: Run, now: int)
    requires CanBegin(c, h) && Known(c, h, h.s.low)
    ensures Inv(c, Run(FinishRound(c, h.s, now), h.acked))
    ensures FinishRound(c, h.s, now).confirmed == h.s.confirmed
    decreases 3 - h.s.results, 0
  {
    var s := h.s;
    var t := s.(pending := false, inFlight := false, rounds := s.rounds[s.results := s.low], results := s.results + 1);
    if t.results == 1 || (t.results == 2 && t.rounds[0] != t.rounds[1]) { BeginRoundKeeps(c, Run(t, h.acked), now); }
  }

  lemma StartKeeps(c: Config, s: Search, now: int, refreshing: bool)
    requires ConfigOk(c) && |s.rounds| == 3 && Within(c, s.confirmed)
    ensures Inv(c, Run(Start(c, s, now, refreshing), {}))
    ensures Start(c, s, now, refreshing).confirmed == s.confirmed
  {
    if c.ceiling != c.base {
      var t := s.(searchHint := if refreshing then 0 else s.searchHint, results := 0, confirming := false,
          refreshing := refreshing,
                  confirmationCandidate := 0, confirmFailures := 0, nextConfirmation := None);
      BeginRoundKeepsAny(c, Run(t, {}), now);
    }
  }

  /** As BeginRoundKeeps, for a search cut short while a probe was due. */
  lemma BeginRoundKeepsAny(c: Config, h: Run, now: int)
    requires CanBegin(c, h) && h.s.results == 0
    ensures Inv(c, Run(BeginRound(c, h.s, now), h.acked))
    ensures BeginRound(c, h.s, now).confirmed == h.s.confirmed
  {
    var quiet := h.s.(pending := false);
    BeginRoundKeeps(c, Run(quiet, h.acked), now);
    assert BeginRound(c, h.s, now) == BeginRound(c, quiet, now);
  }

  lemma ContinueKeeps(c: Config, h: Run, now: int)
    requires CanBegin(c, h) && Known(c, h, h.s.low) && !h.s.inFlight
    ensures Inv(c, Run(Continue(c, h.s, now), h.acked))
    ensures Continue(c, h.s, now).confirmed == h.s.confirmed
  {
    CandidateWithin(c, h.s.low, h.s.bad);
    var t := h.s.(candidateTries := 0, candidate := NextCandidate(c, h.s.low, h.s.bad));
    if t.candidate == 0 { FinishRoundKeeps(c, Run(t, h.acked), now); }
  }

  lemma SucceedKeeps(c: Config, h: Run, e: Event)
    requires Inv(c, h) && Acknowledges(h.s, e)
    ensures Inv(c, Advance(c, h, e))
    ensures Step(c, h.s, e).confirmed == if h.s.confirmationCandidate != 0 then h.s.confirmationCandidate
            else h.s.confirmed
  {
    var s := h.s;
    if !s.confirming {
      ContinueKeeps(c, Run(s.(inFlight := false, low := s.candidate), h.acked + {e.size}), e.now);
    }
  }

  lemma LoseConfirmationKeeps(c: Config, h: Run, e: Event)
    requires Inv(c, h) && Loses(h.s, e) && h.s.confirming
    ensures Inv(c, Run(LoseConfirmation(c, h.s, e.now), if ThirdLoss(h.s, e) then {} else h.acked))
    ensures LoseConfirmation(c, h.s, e.now).confirmed == if ThirdLoss(h.s, e) then c.base else h.s.confirmed
  {
    var t := h.s.(inFlight := false, confirming := false, pending := false, confirmed := c.base, blackholed := true,
        searchHint := 0);
    StartKeeps(c, t, e.now, false);
  }

  lemma LoseKeeps(c: Config, h: Run, e: Event)
    requires Inv(c, h) && Loses(h.s, e)
    ensures Inv(c, Advance(c, h, e))
    ensures Step(c, h.s, e).confirmed == if ThirdLoss(h.s, e) then c.base else h.s.confirmed
  {
    if h.s.confirming {
      LoseConfirmationKeeps(c, h, e);
    } else {
      ContinueKeeps(c, Run(h.s.(inFlight := false, bad := h.s.candidate), h.acked), e.now);
    }
  }

  predicate Starts(e: Event) { e.Begin? || e.BeginWithHint? || e.Refresh? || e.Blackhole? }

  lemma StartsKeep(c: Config, h: Run, e: Event)
    requires Inv(c, h) && Starts(e)
    ensures Inv(c, Advance(c, h, e))
    ensures Step(c, h.s, e).confirmed == if e.Blackhole? then c.base else h.s.confirmed
  {
    match e
    case Begin(now) => StartKeeps(c, h.s.(searchHint := 0), now, false);
    case BeginWithHint(now, hint) => StartKeeps(c, h.s.(searchHint := hint), now, false);
    case Refresh(now) => StartKeeps(c, h.s, now, true);
    case Blackhole(now) => StartKeeps(c, h.s.(confirmed := c.base, searchHint := 0), now, false);
  }

  lemma OthersKeep(c: Config, h: Run, e: Event)
    requires Inv(c, h) && !Starts(e) && !Acknowledges(h.s, e) && !Loses(h.s, e)
    ensures Inv(c, Advance(c, h, e)) && Step(c, h.s, e).confirmed == h.s.confirmed
  {}

  /** Every event, in every order and with every adjustment, keeps the confirmed
      size between BASE and the ceiling and never overruns the three rounds. */
  lemma StepKeepsInv(c: Config, h: Run, e: Event)
    requires Inv(c, h)
    ensures Inv(c, Advance(c, h, e))
    ensures Step(c, h.s, e).confirmed ==
            if e.Blackhole? || ThirdLoss(h.s, e) then c.base
            else if Acknowledges(h.s, e) && h.s.confirmationCandidate != 0 then h.s.confirmationCandidate
            else h.s.confirmed
  {
    if Acknowledges(h.s, e) {
      SucceedKeeps(c, h, e);
    } else if Loses(h.s, e) {
      LoseKeeps(c, h, e);
    } else if Starts(e) {
      StartsKeep(c, h, e);
    } else {
      OthersKeep(c, h, e);
    }
  }

  // ----- runs in which every probe goes out at the size asked for

  /** Probes are strictly between low and bad, and a confirmation probe has the
      size it is to confirm. */
  predicate Unadjusted(s: Search) {
    && (s.confirmationCandidate != 0 ==> s.candidate == s.confirmationCandidate)
    && (Searching(s) && !s.confirming ==>
          && s.low < s.candidate && (s.bad != 0 ==> s.candidate < s.bad)
          && (if s.inFlight then 1 <= s.candidateTries <= 3 else s.candidateTries <= 2))
  }

  /** The event does not change the size of the probe in flight. */
  predicate AsAsked(s: Search, e: Event) {
    e.Adjust? ==> e.size == s.candidate
  }

  lemma {:induction false} BeginRoundUnadjusted(c: Config, s: Search, now: int)
    requires ConfigOk(c) && s.results <= 2 && |s.rounds| == 3 && s.confirmationCandidate == 0 && !s.confirming
    ensures var t := BeginRound(c, s, now);
            Unadjusted(t) && !t.inFlight && (Searching(t) && !t.confirming ==> t.results >= s.results)
    decreases 3 - s.results, 1
  {
    CandidateWithin(c, c.base, 0);
    var first, hinted := NextCandidate(c, c.base, 0), CanonicalCandidate(c, s.searchHint);
    var k := if hinted > c.base then hinted else first;
    if k == 0 {
      FinishRoundUnadjusted(c,
          s.(low := c.base, bad := 0, candidateTries := 0, candidate := k, searchHint := 0, inFlight := false), now);
    }
  }

  lemma {:induction false} FinishRoundUnadjusted(c: Config, s: Search, now: int)
    requires ConfigOk(c) && s.results <= 2 && |s.rounds| == 3 && s.confirmationCandidate == 0 && !s.confirming
    ensures var t := FinishRound(c, s, now);
            Unadjusted(t) && !t.inFlight && (Searching(t) && !t.confirming ==> t.results > s.results)
    decreases 3 - s.results, 0
  {
    var t := s.(pending := false, inFlight := false, rounds := s.rounds[s.results := s.low], results := s.results + 1);
    if t.results == 1 || (t.results == 2 && t.rounds[0] != t.rounds[1]) { BeginRoundUnadjusted(c, t, now); }
  }

  lemma StartUnadjusted(c: Config, s: Search, now: int, refreshing: bool)
    requires ConfigOk(c) && |s.rounds| == 3
    ensures Unadjusted(Start(c, s, now, refreshing)) && !Start(c, s, now, refreshing).inFlight
  {
    var t := s.(searchHint := if refreshing then 0 else s.searchHint, results := 0, confirming := false,
        refreshing := refreshing,
                confirmationCandidate := 0, confirmFailures := 0, nextConfirmation := None);
    BeginRoundUnadjusted(c, t, now);
  }

  /** A round that goes on has a smaller interval left; one that ends leaves
      fewer rounds. */
  lemma ContinueUnadjusted(c: Config, s: Search, now: int)
    requires ConfigOk(c) && s.results <= 2 && |s.rounds| == 3 && s.confirmationCandidate == 0 && !s.confirming &&
             !s.inFlight
    ensures var t := Continue(c, s, now);
            && Unadjusted(t) && !t.inFlight
            && (Searching(t) && !t.confirming ==>
                  t.results > s.results || (t.results == s.results && t.low == s.low && t.bad == s.bad))
  {
    CandidateWithin(c, s.low, s.bad);
    var t := s.(candidateTries := 0, candidate := NextCandidate(c, s.low, s.bad));
    if t.candidate == 0 { FinishRoundUnadjusted(c, t, now); }
  }

  lemma SucceedUnadjusted(c: Config, h: Run, e: Event)
    requires Inv(c, h) && Unadjusted(h.s) && Acknowledges(h.s, e)
    ensures Unadjusted(Step(c, h.s, e))
  {
    if !h.s.confirming { ContinueUnadjusted(c, h.s.(inFlight := false, low := h.s.candidate), e.now); }
  }

  lemma LoseUnadjusted(c: Config, h: Run, e: Event)
    requires Inv(c, h) && Unadjusted(h.s) && Loses(h.s, e)
    ensures Unadjusted(Step(c, h.s, e))
  {
    if h.s.confirming {
      StartUnadjusted(c, h.s.(inFlight := false, confirming := false, pending := false, confirmed := c.base,
          blackholed := true, searchHint := 0), e.now, false);
    } else {
      ContinueUnadjusted(c, h.s.(inFlight := false, bad := h.s.candidate), e.now);
    }
  }

  lemma StepKeepsUnadjusted(c: Config, h: Run, e: Event)
    requires Inv(c, h) && Unadjusted(h.s) && AsAsked(h.s, e)
    ensures Unadjusted(Step(c, h.s, e))
  {
    if Acknowledges(h.s, e) {
      SucceedUnadjusted(c, h, e);
    } else if Loses(h.s, e) {
      LoseUnadjusted(c, h, e);
    } else {
      match e
      case Begin(now) => StartUnadjusted(c, h.s.(searchHint := 0), now, false);
      case BeginWithHint(now, hint) => StartUnadjusted(c, h.s.(searchHint := hint), now, false);
      case Refresh(now) => StartUnadjusted(c, h.s, now, true);
      case Blackhole(now) => StartUnadjusted(c, h.s.(confirmed := c.base, searchHint := 0), now, false);
      case _ =>
    }
  }

  lemma NewIsUnadjusted(c: Config)
    ensures Unadjusted(NewSearch(c))
  {}

  /** Every Adjust of the run has the size the probe in flight already has. */
  predicate AllAsAsked(c: Config, h: Run, es: seq<Event>)
    requires Inv(c, h)
    decreases |es|
  {
    es == [] || (AsAsked(h.s, es[0]) &&
                 assert Inv(c, Advance(c, h, es[0])) by { StepKeepsInv(c, h, es[0]); }
                 AllAsAsked(c, Advance(c, h, es[0]), es[1..]))
  }

  /** A run that adjusts no probe keeps every probe strictly between low and bad,
      and every confirmation probe at the size it is to confirm. */
  lemma {:induction false} RunKeepsUnadjusted(c: Config, h: Run, es: seq<Event>)
    requires Inv(c, h) && Unadjusted(h.s) && AllAsAsked(c, h, es)
    ensures Unadjusted(RunAll(c, h, es).s)
    decreases |es|
  {
    if es != [] {
      StepKeepsInv(c, h, es[0]);
      StepKeepsUnadjusted(c, h, es[0]);
      RunKeepsUnadjusted(c, Advance(c, h, es[0]), es[1..]);
    }
  }

  /** The confirmed size rises only when a confirmation probe is acknowledged,
      to a size acknowledged before in a search round. It falls only to BASE, on
      a reported black hole or the third lost confirmation. */
  lemma ConfirmedMoves(c: Config, h: Run, e: Event)
    requires Inv(c, h)
    ensures var k := Step(c, h.s, e).confirmed;
            && (k > h.s.confirmed ==>
                  Acknowledges(h.s, e) && h.s.confirming && k == h.s.confirmationCandidate && k in h.acked)
            && (k < h.s.confirmed ==> k == c.base && (e.Blackhole? || ThirdLoss(h.s, e)))
  {
    StepKeepsInv(c, h, e);
  }

  // ----- what the confirming probe carried

  /** The adjustment changes the size of the probe in flight. */
  predicate TakesEffect(c: Config, s: Search, e: Event) {
    e.Adjust? && s.inFlight && e.attempt == s.attempt && Within(c, e.size)
  }

  /** The size of the last adjustment that took effect since a probe was sent. */
  function Noted(c: Config, s: Search, e: Event, last: Option<u32>): Option<u32> {
    if e.Send? && s.pending then None else if TakesEffect(c, s, e) then Some(e.size) else last
  }

  function LastAdjust(c: Config, h: Run, es: seq<Event>, last: Option<u32>): Option<u32>
    requires Inv(c, h)
    decreases |es|
  {
    if es == [] then last else
    assert Inv(c, Advance(c, h, es[0])) by { StepKeepsInv(c, h, es[0]); }
    LastAdjust(c, Advance(c, h, es[0]), es[1..], Noted(c, h.s, es[0], last))
  }

  /** A confirmation probe that waits has the size it is to confirm; one in
      flight has that size or the one it was last adjusted to. */
  predicate Follows(s: Search, last: Option<u32>) {
    s.confirmationCandidate != 0 ==>
      s.candidate == if s.inFlight && last.Some? then last.value else s.confirmationCandidate
  }

  lemma StepFollows(c: Config, h: Run, e: Event, last: Option<u32>)
    requires Inv(c, h) && Follows(h.s, last)
    ensures Follows(Step(c, h.s, e), Noted(c, h.s, e, last))
  {
    if Acknowledges(h.s, e) {
      if !h.s.confirming { ContinueUnadjusted(c, h.s.(inFlight := false, low := h.s.candidate), e.now); }
    } else if Loses(h.s, e) {
      LossFollows(c, h, e);
    } else {
      match e
      case Begin(now) => StartUnadjusted(c, h.s.(searchHint := 0), now, false);
      case BeginWithHint(now, hint) => StartUnadjusted(c, h.s.(searchHint := hint), now, false);
      case Refresh(now) => StartUnadjusted(c, h.s, now, true);
      case Blackhole(now) => StartUnadjusted(c, h.s.(confirmed := c.base, searchHint := 0), now, false);
      case _ =>
    }
  }

  lemma LossFollows(c: Config, h: Run, e: Event)
    requires Inv(c, h) && Loses(h.s, e)
    ensures Unadjusted(Step(c, h.s, e)) || Step(c, h.s, e).confirmationCandidate == 0
    ensures !Step(c, h.s, e).inFlight
  {
    if h.s.confirming {
      var t := h.s.(inFlight := false, confirming := false, pending := false, confirmed := c.base, blackholed := true,
                    searchHint := 0);
      StartUnadjusted(c, t, e.now, false);
    } else {
      ContinueUnadjusted(c, h.s.(inFlight := false, bad := h.s.candidate), e.now);
    }
  }

  lemma {:induction false} RunFollows(c: Config, h: Run, es: seq<Event>, last: Option<u32>)
    requires Inv(c, h) && Follows(h.s, last)
    ensures Follows(RunAll(c, h, es).s, LastAdjust(c, h, es, last))
    decreases |es|
  {
    if es != [] {
      StepKeepsInv(c, h, es[0]);
      StepFollows(c, h, es[0], last);
      RunFollows(c, Advance(c, h, es[0]), es[1..], Noted(c, h.s, es[0], last));
    }
  }

  /** After any run of a new search, an event that raises the confirmed size to k
      acknowledges a probe of size k if and only if the last adjustment that took
      effect since that probe was sent, if there was one, was to k. */
  lemma ConfirmingProbeCarries(c: Config, es: seq<Event>, e: Event)
    requires ConfigOk(c)
    ensures Inv(c, Run(NewSearch(c), {}))
    ensures var h := RunAll(c, Run(NewSearch(c), {}), es);
            var k, last := Step(c, h.s, e).confirmed, LastAdjust(c, Run(NewSearch(c), {}), es, None);
            k > h.s.confirmed ==> e.Ack? && (e.size == k <==> last.None? || last.value == k)
  {
    NewIsInv(c);
    RunFollows(c, Run(NewSearch(c), {}), es, None);
    ConfirmedMoves(c, RunAll(c, Run(NewSearch(c), {}), es), e);
  }

  /** When no probe of the run was adjusted, the confirming probe has the size
      it confirms. */
  lemma UnadjustedProbeCarries(c: Config, es: seq<Event>, e: Event)
    requires ConfigOk(c) && Inv(c, Run(NewSearch(c), {})) && AllAsAsked(c, Run(NewSearch(c), {}), es)
    ensures var h := RunAll(c, Run(NewSearch(c), {}), es); var k := Step(c, h.s, e).confirmed;
            k > h.s.confirmed ==> e.Ack? && e.size == k
  {
    NewIsUnadjusted(c);
    RunKeepsUnadjusted(c, Run(NewSearch(c), {}), es);
    ConfirmedMoves(c, RunAll(c, Run(NewSearch(c), {}), es), e);
  }

  const NARROW := Config(613, 614, x => x, MINIMUM_PROBE_TIMEOUT, 1, 1)

  /** One round of a search that has a single size to try. */
  lemma NarrowRound(s: Search)
    requires s.results <= 1 && |s.rounds| == 3 && s.confirmed == 613 && s.low == 614 &&
             (s.results == 1 ==> s.rounds[0] == 614)
    ensures var t := FinishRound(NARROW, s, 0);
            && t.pending && !t.inFlight && t.candidate == 614 && t.attempt == s.attempt && t.confirmed == 613 &&
                 |t.rounds| == 3
            && (s.results == 0 ==>
                 t.results == 1 && t.rounds[0] == 614 && t.confirming == s.confirming &&
                 t.confirmationCandidate == s.confirmationCandidate)
            && (s.results == 1 ==> t.confirming && t.confirmationCandidate == 614)
  {
    assert NextCandidate(NARROW, 613, 0) == 614;
    var t := s.(pending := false, inFlight := false, rounds := s.rounds[s.results := s.low], results := s.results + 1);
    if s.results == 0 {
      assert BeginRound(NARROW, t, 0).pending;
    }
  }

  const NARROW_EVENTS := [Begin(0), Send(0), Ack(1, 614, 0), Send(0), Ack(2, 614, 0), Send(0), Adjust(3, 613)]

  /** The search h0 over es, which is new and NARROW_EVENTS. */
  predicate Narrow(h0: Run, es: seq<Event>) {
    h0 == Run(NewSearch(NARROW), {}) && es == NARROW_EVENTS && Inv(NARROW, h0)
  }

  lemma NarrowFirst(h0: Run, es: seq<Event>)
    requires Narrow(h0, es)
    ensures var s := RunAll(NARROW, h0, es[..3]).s;
            && s.pending && !s.confirming && s.candidate == 614 && s.attempt == 1 && s.results == 1 &&
                 s.confirmed == 613
            && s.rounds[0] == 614
  {
    RunOne(NARROW, h0, es, 0);
    RunOne(NARROW, h0, es, 1);
    RunOne(NARROW, h0, es, 2);
    assert es[..0] == [] && NextCandidate(NARROW, 613, 0) == 614 && NextCandidate(NARROW, 614, 0) == 0;
    assert RunAll(NARROW, h0, es[..1]).s.pending;
    NarrowRound(RunAll(NARROW, h0, es[..2]).s.(inFlight := false, low := 614, candidateTries := 0, candidate := 0));
  }

  /** The second round sends its only probe and ends the search. */
  lemma SendAcknowledged(h: Run)
    requires Inv(NARROW, h) && h.s.pending && !h.s.confirming && h.s.candidate == 614 && h.s.attempt == 1
    requires h.s.results == 1 && h.s.rounds[0] == 614 && h.s.confirmed == 613
    ensures Inv(NARROW, Advance(NARROW, h, Send(0)))
    ensures var s := Advance(NARROW, Advance(NARROW, h, Send(0)), Ack(2, 614, 0)).s;
            s.pending && s.confirming && s.confirmationCandidate == 614 && s.attempt == 2 && s.confirmed == 613
  {
    StepKeepsInv(NARROW, h, Send(0));
    var s := Advance(NARROW, h, Send(0)).s;
    assert NextCandidate(NARROW, 614, s.bad) == 0;
    NarrowRound(s.(inFlight := false, low := 614, candidateTries := 0, candidate := 0));
  }

  lemma NarrowSecond(h0: Run, es: seq<Event>)
    requires Narrow(h0, es)
    ensures var s := RunAll(NARROW, h0, es[..5]).s;
            s.pending && s.confirming && s.confirmationCandidate == 614 && s.attempt == 2 && s.confirmed == 613
  {
    NarrowFirst(h0, es);
    RunOne(NARROW, h0, es, 3);
    RunOne(NARROW, h0, es, 4);
    SendAcknowledged(RunAll(NARROW, h0, es[..3]));
  }

  /** The confirmation probe of that search is lost: the larger size, acknowledged
      twice, is not taken into use. */
  lemma LostConfirmationKeepsSize() returns (h: Run, e: Event)
    ensures Inv(NARROW, Run(NewSearch(NARROW), {}))
    ensures h == RunAll(NARROW, Run(NewSearch(NARROW), {}), NARROW_EVENTS[..6])
    ensures Loses(h.s, e) && 614 in h.acked && !Searching(Step(NARROW, h.s, e)) && Step(NARROW, h.s, e).confirmed == 613
  {
    var h0, es := Run(NewSearch(NARROW), {}), NARROW_EVENTS;
    NarrowSecond(h0, es);
    RunOne(NARROW, h0, es, 5);
    h := RunAll(NARROW, h0, es[..6]);
    e := FailCurrent(0);
  }

  lemma SendAdjusted(h: Run)
    requires Inv(NARROW, h) && h.s.pending && h.s.confirming && h.s.attempt == 2 && h.s.confirmed == 613
    ensures Inv(NARROW, Advance(NARROW, h, Send(0)))
    ensures Advance(NARROW, Advance(NARROW, h, Send(0)), Adjust(3, 613)).s
         == h.s.(pending := false, inFlight := true, attempt := 3, candidateTries := h.s.candidateTries + 1,
                 deadline := ProbeTimeout(NARROW, h.s), candidate := 613)
  {
    StepKeepsInv(NARROW, h, Send(0));
  }

  lemma NarrowThird(h0: Run, es: seq<Event>)
    requires Narrow(h0, es)
    ensures var s := RunAll(NARROW, h0, es).s;
            && s.inFlight && s.confirming && s.confirmationCandidate == 614 && s.attempt == 3
            && s.candidate == s.confirmed == 613
  {
    NarrowSecond(h0, es);
    RunOne(NARROW, h0, es, 5);
    RunOne(NARROW, h0, es, 6);
    assert es[..7] == es;
    SendAdjusted(RunAll(NARROW, h0, es[..5]));
  }

  /** An adjusted confirmation probe does raise the confirmed size to one that it
      did not carry. */
  lemma AdjustedConfirmationConfirmsMore() returns (h: Run, e: Event)
    ensures Inv(NARROW, Run(NewSearch(NARROW), {})) && h == RunAll(NARROW, Run(NewSearch(NARROW), {}), NARROW_EVENTS)
    ensures Acknowledges(h.s, e) && h.s.confirmed < Step(NARROW, h.s, e).confirmed
    ensures e.size < Step(NARROW, h.s, e).confirmed
  {
    var h0, es := Run(NewSearch(NARROW), {}), NARROW_EVENTS;
    NarrowThird(h0, es);
    h, e := RunAll(NARROW, h0, es), Ack(3, 613, 0);
  }

  lemma {:induction false} RunOne(c: Config, h: Run, es: seq<Event>, n: nat)
    requires Inv(c, h) && n < |es|
    ensures RunAll(c, h, es[..n + 1]) == Advance(c, RunAll(c, h, es[..n]), es[n])
    decreases n
  {
    if n > 0 {
      StepKeepsInv(c, h, es[0]);
      RunOne(c, Advance(c, h, es[0]), es[1..], n - 1);
      assert es[..n + 1][1..] == es[1..][..n] && es[..n][1..] == es[1..][..n - 1];
    } else {
      assert es[..1][1..] == [];
    }
  }

  // ----- termination

  function Upper(c: Config, s: Search): nat { if s.bad != 0 then s.bad else c.ceiling + 1 }

  function TriesLeft(s: Search): int { 2 * (SEARCH_ATTEMPT_LIMIT - s.candidateTries) + if s.inFlight then 1 else 0 }

  /** (rounds left, interval left, tries left), compared lexicographically. */
  predicate Nearer(c: Config, t: Search, s: Search) {
    || t.results > s.results
    || (t.results == s.results && Upper(c, t) - t.low < Upper(c, s) - s.low)
    || (t.results == s.results && Upper(c, t) - t.low == Upper(c, s) - s.low && TriesLeft(t) < TriesLeft(s))
  }

  /** Whatever becomes of the probes, every one sent, answered or lost brings the
      search nearer to its end: at most three rounds, each over an interval that
      shrinks, each size tried at most three times. */
  lemma SearchGetsNearer(c: Config, h: Run, e: Event)
    requires Inv(c, h) && Unadjusted(h.s) && Searching(h.s) && !h.s.confirming
    requires (e.Send? && h.s.pending) || Acknowledges(h.s, e) || Loses(h.s, e)
    ensures var t := Step(c, h.s, e);
            && (Searching(t) && !t.confirming ==> Nearer(c, t, h.s) && t.results <= 2)
            && h.s.results <= 2 && h.s.low < Upper(c, h.s) && TriesLeft(h.s) >= 0
  {
    StepKeepsInv(c, h, e);
    if Acknowledges(h.s, e) {
      AckGetsNearer(c, h, e);
    } else if Loses(h.s, e) {
      LossGetsNearer(c, h, e);
    }
  }

  lemma AckGetsNearer(c: Config, h: Run, e: Event)
    requires Inv(c, h) && Unadjusted(h.s) && !h.s.confirming && Acknowledges(h.s, e)
    ensures var t := Step(c, h.s, e); Searching(t) && !t.confirming ==> Nearer(c, t, h.s)
  {
    ContinueUnadjusted(c, h.s.(inFlight := false, low := h.s.candidate), e.now);
  }

  lemma LossGetsNearer(c: Config, h: Run, e: Event)
    requires Inv(c, h) && Unadjusted(h.s) && !h.s.confirming && Loses(h.s, e)
    ensures var t := Step(c, h.s, e); Searching(t) && !t.confirming ==> Nearer(c, t, h.s)
  {
    ContinueUnadjusted(c, h.s.(inFlight := false, bad := h.s.candidate), e.now);
  }

  // ----- convergence

  /** The transport can carry a probe of exactly this size. */
  predicate Exact(c: Config, x: u32) { c.canon(x) == x }

  ghost predicate NoneBetween(c: Config, low: nat, top: nat) {
    forall x: u32 {:trigger Exact(c, x)} :: low < x <= top ==> !Exact(c, x)
  }

  /** canon rounds down to the largest exact size, and exact sizes lie close
      enough for doubling and bisection not to miss one. */
  ghost predicate RoundsDown(c: Config) {
    && (forall x: u32 {:trigger CanonicalCandidate(c, x)} :: c.canon(x) <= x && Exact(c, c.canon(x)))
    && (forall x: u32, r: u32 {:trigger Exact(c, r), CanonicalCandidate(c, x)} ::
         Exact(c, r) && r <= x ==> r <= c.canon(x))
    && (forall low: u32, twice: u32 {:trigger Doubles(low, twice)} ::
         c.base <= low && Doubles(low, twice) ==> low < c.canon(twice))
    && (forall low: u32, r: u32, bad: u32 {:trigger Exact(c, r), Mid(low, bad)} ::
          c.base <= low < r < bad && Exact(c, r) && Exact(c, bad) ==> low < c.canon(Mid(low, bad)))
  }

  predicate Doubles(low: u32, twice: u32) { twice == 2 * low }

  /** The largest exact size above BASE and up to n, or BASE. */
  function Best(c: Config, n: u32): (b: u32)
    ensures b == c.base || (c.base < b <= n && Exact(c, b))
  {
    if n <= c.base then c.base else if Exact(c, n) then n else Best(c, n - 1)
  }

  lemma {:induction false} BestIsBest(c: Config, n: u32, b: u32)
    requires b == c.base || (c.base < b <= n && Exact(c, b))
    requires NoneBetween(c, b, n)
    ensures b == Best(c, n)
  {
    if n > c.base && !Exact(c, n) { BestIsBest(c, n - 1, b); }
  }

  lemma {:induction false} NoneAboveBest(c: Config, n: u32)
    ensures NoneBetween(c, Best(c, n), n)
  {
    if n > c.base && !Exact(c, n) { NoneAboveBest(c, n - 1); }
  }

  /** What the path lets through of the sizes the search may use. */
  function Target(c: Config, path: u32): u32 { if path < c.ceiling then path else c.ceiling }

  /** low is let through and exact, bad is not let through. */
  predicate Bracket(c: Config, path: u32, low: u32, bad: u32) {
    && (low == c.base || (c.base < low && Exact(c, low))) && low <= path && low <= c.ceiling
    && (bad == 0 || (path < bad <= c.ceiling && Exact(c, bad)))
  }

  /** A round that runs out of candidates has found the best size. */
  lemma RoundEndsAtBest(c: Config, path: u32, low: u32, bad: u32)
    requires ConfigOk(c) && RoundsDown(c) && Bracket(c, path, low, bad) && NextCandidate(c, low, bad) == 0
    ensures low == Best(c, Target(c, path))
  {
    var top := Target(c, path);
    forall x: u32 | low < x <= top ensures !Exact(c, x) {
      if Exact(c, x) { SizeIsNotMissed(c, low, bad, x); }
    }
    BestIsBest(c, top, low);
  }

  lemma SizeIsNotMissed(c: Config, low: u32, bad: u32, x: u32)
    requires ConfigOk(c) && RoundsDown(c) && c.base <= low < x <= c.ceiling && Exact(c, x)
    requires bad == 0 || (x < bad <= c.ceiling && Exact(c, bad))
    ensures NextCandidate(c, low, bad) != 0
  {
    if bad != 0 {
      assert CanonicalCandidate(c, Mid(low, bad)) <= Mid(low, bad) < bad;
    } else {
      assert low <= c.ceiling / 2 ==> Doubles(low, low * 2 % U32);
    }
  }

  /** A candidate keeps the bracket whatever the path says of it. */
  lemma CandidateIsExact(c: Config, low: u32, bad: u32)
    requires ConfigOk(c) && RoundsDown(c)
    ensures var k := NextCandidate(c, low, bad);
            k != 0 ==> Exact(c, k) && Within(c, k) && low < k && (bad != 0 ==> k < bad)
  {
    CandidateWithin(c, low, bad);
  }

  // ----- one search against a fixed path

  /** How the loss of a probe shows: a reported error, one that cannot be
      attributed, or silence until the deadline. */
  datatype Loss = Reported | Vague | Silent

  /** The environment of a search: a path that lets sizes up to path through, a
      clock by attempt, the way each lost attempt shows, and which attempts are
      lost although the path lets their size through. */
  datatype World = World(path: u32, clock: nat -> int, loss: nat -> Loss, stray: nat -> bool)

  /** Stray losses are not reported as errors, and never three in a row. */
  ghost predicate Tolerable(w: World) {
    && (forall n: nat {:trigger w.stray(n)} :: w.stray(n) ==> !w.loss(n).Reported?)
    && (forall n: nat {:trigger AllStray(w, n)} :: !AllStray(w, n))
  }

  predicate AllStray(w: World, n: nat) { w.stray(n) && w.stray(n + 1) && w.stray(n + 2) }

  lemma OneOfThreeArrives(w: World, n: nat)
    requires Tolerable(w)
    ensures !w.stray(n) || !w.stray(n + 1) || !w.stray(n + 2)
  {
    assert !AllStray(w, n);
  }

  function BestOn(c: Config, w: World): u32 { Best(c, Target(c, w.path)) }

  /** The tries of a size that the path lets through were all lost on the way. */
  predicate TriesStrayed(w: World, s: Search) {
    s.candidate <= w.path ==>
      && s.candidateTries <= s.attempt
      && (s.candidateTries >= 1 ==> w.stray(s.attempt)) && (s.candidateTries >= 2 ==> w.stray(s.attempt - 1))
  }

  predicate Probing(c: Config, w: World, s: Search) {
    && s.pending && !s.inFlight && !s.confirming && s.confirmationCandidate == 0 && s.results <= 1 && |s.rounds| == 3
    && (s.results == 1 ==> s.rounds[0] == BestOn(c, w))
    && Bracket(c, w.path, s.low, s.bad) && Exact(c, s.candidate) && Within(c, s.candidate)
    && s.low < s.candidate && (s.bad != 0 ==> s.candidate < s.bad) && s.candidateTries <= 2 && TriesStrayed(w, s)
  }

  predicate AskingAgain(c: Config, w: World, s: Search) {
    && s.pending && !s.inFlight && s.confirming && |s.rounds| == 3
    && s.confirmationCandidate == s.candidate == BestOn(c, w) > s.confirmed
  }

  predicate Found(c: Config, w: World, s: Search) {
    !Searching(s) && s.confirmed == BestOn(c, w) && |s.rounds| == 3
  }

  predicate OnPath(c: Config, w: World, s: Search) {
    && c.base <= w.path && s.confirmed <= BestOn(c, w)
    && (Probing(c, w, s) || AskingAgain(c, w, s) || Found(c, w, s))
  }

  predicate RoundMayStart(c: Config, w: World, s: Search) {
    && ConfigOk(c) && c.base <= w.path && s.confirmed <= BestOn(c, w) && s.results <= 1 && |s.rounds| == 3
    && !s.confirming && s.confirmationCandidate == 0
    && (s.results == 1 ==> s.rounds[0] == BestOn(c, w))
  }

  lemma {:induction false} BeginRoundOnPath(c: Config, w: World, s: Search, now: int)
    requires RoundsDown(c) && RoundMayStart(c, w, s)
    ensures OnPath(c, w, BeginRound(c, s, now)) && BeginRound(c, s, now).confirmed == s.confirmed
    decreases 3 - s.results, 1
  {
    var first, hinted := NextCandidate(c, c.base, 0), CanonicalCandidate(c, s.searchHint);
    var k := if hinted > c.base then hinted else first;
    CandidateIsExact(c, c.base, 0);
    if k == 0 {
      RoundEndsAtBest(c, w.path, c.base, 0);
      FinishRoundOnPath(c, w,
          s.(low := c.base, bad := 0, candidateTries := 0, candidate := k, searchHint := 0, inFlight := false), now);
    }
  }

  lemma {:induction false} FinishRoundOnPath(c: Config, w: World, s: Search, now: int)
    requires RoundsDown(c) && RoundMayStart(c, w, s) && s.low == BestOn(c, w)
    ensures OnPath(c, w, FinishRound(c, s, now)) && FinishRound(c, s, now).confirmed == s.confirmed
    decreases 3 - s.results, 0
  {
    if s.results == 0 {
      BeginRoundOnPath(c, w,
          s.(pending := false, inFlight := false, rounds := s.rounds[s.results := s.low], results := s.results + 1),
          now);
    }
  }

  lemma ContinueOnPath(c: Config, w: World, s: Search, now: int)
    requires RoundsDown(c) && RoundMayStart(c, w, s) && Bracket(c, w.path, s.low, s.bad) && !s.inFlight
    ensures OnPath(c, w, Continue(c, s, now)) && Continue(c, s, now).confirmed == s.confirmed
  {
    CandidateIsExact(c, s.low, s.bad);
    var t := s.(candidateTries := 0, candidate := NextCandidate(c, s.low, s.bad));
    if t.candidate == 0 {
      RoundEndsAtBest(c, w.path, s.low, s.bad);
      FinishRoundOnPath(c, w, t, now);
    }
  }

  /** One probe is sent and answered, or lost. */
  function Exchange(c: Config, w: World, s: Search): Search
    requires OnPath(c, w, s) && s.pending
  {
    var t := Step(c, s, Send(w.clock(s.attempt)));
    var now := w.clock(t.attempt);
    if t.candidate <= w.path && !w.stray(t.attempt) then Step(c, t, Ack(t.attempt, t.candidate, now))
    else match w.loss(t.attempt)
      case Reported => Step(c, t, Fail(t.attempt, now))
      case Vague => Step(c, t, SoftFail(now))
      case Silent => Step(c, t, Tick(t.deadline))
  }

  function Sent(c: Config, s: Search, now: int): Search
    requires s.pending
  {
    s.(pending := false, inFlight := true, attempt := s.attempt + 1, candidateTries := s.candidateTries + 1,
        deadline := now + ProbeTimeout(c, s))
  }

  /** Exchange in terms of what becomes of the probe. */
  lemma ExchangeIs(c: Config, w: World, s: Search)
    requires OnPath(c, w, s) && Probing(c, w, s)
    ensures var u := Sent(c, s, w.clock(s.attempt)); var now := w.clock(u.attempt);
            Exchange(c, w, s) == if s.candidate <= w.path && !w.stray(u.attempt) then Succeed(c, u, now)
                                 else Lose(c, u, if w.loss(u.attempt).Silent? then u.deadline
                                     else now, w.loss(u.attempt).Reported?)
  {
    assert Step(c, s, Send(w.clock(s.attempt))) == Sent(c, s, w.clock(s.attempt));
  }

  /** What an exchange may lead to from a state that probes. */
  predicate Advances(c: Config, w: World, s: Search, t: Search) {
    OnPath(c, w, t) && t.confirmed == s.confirmed && (Probing(c, w, t) ==> Closer(c, t, s))
  }

  lemma AckOnPath(c: Config, w: World, s: Search, u: Search, now: int)
    requires ConfigOk(c) && RoundsDown(c) && OnPath(c, w, s) && Probing(c, w, s) && s.candidate <= w.path
    requires u == Sent(c, s, w.clock(s.attempt))
    ensures Advances(c, w, s, Succeed(c, u, now))
  {
    var v := u.(inFlight := false, low := u.candidate);
    ContinueOnPath(c, w, v, now);
    ContinueUnadjusted(c, v, now);
  }

  /** A size that the path does not let through is tried again or given up. */
  lemma LossOnPath(c: Config, w: World, s: Search, u: Search, now: int, definitive: bool)
    requires ConfigOk(c) && RoundsDown(c) && OnPath(c, w, s) && Probing(c, w, s) && w.path < s.candidate
    requires u == Sent(c, s, w.clock(s.attempt))
    ensures Advances(c, w, s, Lose(c, u, now, definitive))
  {
    var v := u.(inFlight := false, bad := u.candidate);
    ContinueOnPath(c, w, v, now);
    ContinueUnadjusted(c, v, now);
  }

  /** A size that the path lets through is tried again after a stray loss: there is
      a third try, and it is not lost. */
  lemma StrayOnPath(c: Config, w: World, s: Search, u: Search, now: int)
    requires ConfigOk(c) && OnPath(c, w, s) && Probing(c, w, s) && Tolerable(w) && s.candidate <= w.path
    requires u == Sent(c, s, w.clock(s.attempt)) && w.stray(u.attempt)
    ensures Advances(c, w, s, Lose(c, u, now, false))
  {
    if s.candidateTries == 2 { OneOfThreeArrives(w, s.attempt - 1); }
  }

  lemma ExchangeProbing(c: Config, w: World, s: Search)
    requires ConfigOk(c) && RoundsDown(c) && OnPath(c, w, s) && Probing(c, w, s) && Tolerable(w)
    ensures Advances(c, w, s, Exchange(c, w, s))
  {
    ExchangeIs(c, w, s);
    var u := Sent(c, s, w.clock(s.attempt));
    var now, loss := w.clock(u.attempt), w.loss(u.attempt);
    if s.candidate > w.path {
      LossOnPath(c, w, s, u, if loss.Silent? then u.deadline else now, loss.Reported?);
    } else if w.stray(u.attempt) {
      StrayOnPath(c, w, s, u, if loss.Silent? then u.deadline else now);
    } else {
      AckOnPath(c, w, s, u, now);
    }
  }

  /** The confirmation probe has one try: if it is lost the size in use stays. */
  lemma ExchangeAsking(c: Config, w: World, s: Search)
    requires OnPath(c, w, s) && AskingAgain(c, w, s)
    ensures var t := Exchange(c, w, s);
            && !Searching(t) && t.attempt == s.attempt + 1
            && t.confirmed == if w.stray(t.attempt) then s.confirmed else BestOn(c, w)
  {}

  /** As Nearer, between pending states. */
  predicate Closer(c: Config, t: Search, s: Search) {
    || t.results > s.results
    || (t.results == s.results && Upper(c, t) - t.low < Upper(c, s) - s.low)
    || (t.results == s.results && Upper(c, t) - t.low == Upper(c, s) - s.low && t.candidateTries > s.candidateTries)
  }

  function Stage(s: Search): nat { if !s.pending then 0 else if s.confirming then 1 else 2 }

  /** Probes are exchanged until the search rests. */
  ghost function Drive(c: Config, w: World, s: Search): (t: Search)
    requires ConfigOk(c) && RoundsDown(c) && OnPath(c, w, s) && Tolerable(w)
    ensures !Searching(t)
    ensures t.confirmed == if s.confirmed < BestOn(c, w) && w.stray(t.attempt) then s.confirmed else BestOn(c, w)
    decreases Stage(s), 3 - s.results, Upper(c, s) - s.low, 3 - s.candidateTries
  {
    if !s.pending then s
    else if s.confirming then
      assert !Searching(Exchange(c, w, s)) by { ExchangeAsking(c, w, s); }
      assert w.stray(s.attempt + 1) || Exchange(c, w, s).confirmed == BestOn(c, w) by { ExchangeAsking(c, w, s); }
      assert Exchange(c, w, s).attempt == s.attempt + 1 by { ExchangeAsking(c, w, s); }
      assert w.stray(s.attempt + 1) ==> Exchange(c, w, s).confirmed == s.confirmed by { ExchangeAsking(c, w, s); }
      Exchange(c, w, s)
    else
      var t := Exchange(c, w, s);
      assert Advances(c, w, s, t) by { ExchangeProbing(c, w, s); }
      Drive(c, w, t)
  }

  /** Started from BASE or any confirmed size the path still carries, with any
      hint, on a path that lets through the sizes up to path but may lose up to two
      probes in a row, the search ends. It confirms the largest exact size up to
      the path and the ceiling, if and only if that is in use already or the last
      probe, which is to confirm it, is not lost. */
  lemma SearchConverges(c: Config, w: World, s: Search, now: int, hint: u32)
    requires ConfigOk(c) && RoundsDown(c) && |s.rounds| == 3 && c.base <= w.path && s.confirmed <= BestOn(c, w)
    requires c.base <= s.confirmed && Ready(s) && Tolerable(w)
    ensures var t := Step(c, s, BeginWithHint(now, hint));
            && OnPath(c, w, t) && !Searching(Drive(c, w, t))
            && Drive(c, w, t).confirmed == if s.confirmed < BestOn(c, w) &&
                 w.stray(Drive(c, w, t).attempt) then s.confirmed
                                           else BestOn(c, w)
  {
    if c.ceiling == c.base {
      assert BestOn(c, w) == c.base;
    } else {
      var s' := s.(searchHint := hint);
      BeginRoundOnPath(c, w, s'.(results := 0, confirming := false, refreshing := false,
                                 confirmationCandidate := 0, confirmFailures := 0, nextConfirmation := None), now);
    }
  }

  // ----- what a lost probe does to the search

  /** The same size is tried again. */
  function TriedAgain(s: Search): Search { s.(inFlight := false, pending := true) }

  /** The search goes on below the size, or its round ends with the greatest size
      acknowledged so far. */
  function GivenUp(c: Config, s: Search, now: int): Search
    requires |s.rounds| == 3 && s.results <= 2
  {
    var next := NextCandidate(c, s.low, s.candidate);
    if next != 0
    then s.(inFlight := false, pending := true, bad := s.candidate, candidate := next, candidateTries := 0)
    else FinishRound(c, s.(inFlight := false, bad := s.candidate, candidate := 0, candidateTries := 0), now)
  }

  /** A loss that proves nothing gives a size up only at the third try. */
  function VaguelyLost(c: Config, s: Search, now: int): Search
    requires |s.rounds| == 3 && s.results <= 2
  {
    if s.candidateTries <= 2 then TriedAgain(s) else GivenUp(c, s, now)
  }

  /** A loss that is not a reported failure, of a first or second try, sends the same
      size again and changes nothing else of the search. */
  lemma VagueLossTriesAgain(c: Config, h: Run, e: Event)
    requires Inv(c, h) && h.s.inFlight && !h.s.confirming && h.s.candidateTries <= 2
    requires e.SoftFail? || (e.Tick? && h.s.deadline <= e.now)
    ensures Step(c, h.s, e) == TriedAgain(h.s)
  {}

  /** A reported failure and the third loss give the size up. */
  lemma LossGivesUp(c: Config, h: Run, e: Event)
    requires Inv(c, h) && h.s.inFlight && !h.s.confirming
    requires || e.FailCurrent? || (e.Fail? && e.attempt == h.s.attempt)
             || (h.s.candidateTries >= 3 && (e.SoftFail? || (e.Tick? && h.s.deadline <= e.now)))
    ensures |h.s.rounds| == 3 && h.s.results <= 2 && Step(c, h.s, e) == GivenUp(c, h.s, e.now)
  {}

  /** A probe that counts as lost before its deadline, or an error about another
      attempt, changes nothing. */
  lemma EarlyOrForeignIsIgnored(c: Config, h: Run, e: Event)
    requires Inv(c, h)
    requires (e.Tick? && h.s.inFlight && e.now < h.s.deadline) || (e.Fail? && e.attempt != h.s.attempt) ||
             (e.Ack? && (e.attempt != h.s.attempt || e.size != h.s.candidate))
    ensures Step(c, h.s, e) == h.s
  {}

  /** A search that comes to rest is refreshed and confirmed after exactly the
      configured times; a confirmation of the size in use moves only its own. */
  lemma RestIsTimed(c: Config, h: Run, e: Event)
    requires Inv(c, h) && Searching(h.s) && (Acknowledges(h.s, e) || Loses(h.s, e)) && !Searching(Step(c, h.s, e))
    ensures var t := Step(c, h.s, e);
            && t.nextConfirmation == Some(e.now + c.confirmationInterval)
            && t.nextRefresh == if h.s.confirming && h.s.confirmationCandidate == 0 && !ThirdLoss(h.s, e)
                                then h.s.nextRefresh else Some(e.now + c.refreshInterval)
  {
    var s := h.s;
    if Acknowledges(s, e) {
      if !s.confirming { ContinueTimed(c, s.(inFlight := false, low := s.candidate), e.now); }
    } else {
      LossIsTimed(c, h, e);
    }
  }

  lemma LossIsTimed(c: Config, h: Run, e: Event)
    requires Inv(c, h) && Loses(h.s, e) && !Searching(Step(c, h.s, e))
    ensures var t := Step(c, h.s, e);
            && t.nextConfirmation == Some(e.now + c.confirmationInterval)
            && t.nextRefresh == if h.s.confirming && h.s.confirmationCandidate == 0 && !ThirdLoss(h.s, e)
                                then h.s.nextRefresh else Some(e.now + c.refreshInterval)
  {
    var s := h.s;
    if s.confirming {
      StartTimed(c, s.(inFlight := false, confirming := false, pending := false, confirmed := c.base,
          blackholed := true,
                       searchHint := 0), e.now, false);
    } else {
      ContinueTimed(c, s.(inFlight := false, bad := s.candidate), e.now);
    }
  }

  /** t rests and its timers are set from now. */
  predicate Timed(c: Config, t: Search, now: int) {
    t.nextRefresh == Some(now + c.refreshInterval) && t.nextConfirmation == Some(now + c.confirmationInterval)
  }

  lemma {:induction false} BeginRoundTimed(c: Config, s: Search, now: int)
    requires s.results <= 2 && |s.rounds| == 3
    ensures !Searching(BeginRound(c, s, now)) ==> Timed(c, BeginRound(c, s, now), now)
    decreases 3 - s.results, 1
  {
    var first, hinted := NextCandidate(c, c.base, 0), CanonicalCandidate(c, s.searchHint);
    var k := if hinted > c.base then hinted else first;
    if k == 0 {
      FinishRoundTimed(c, s.(low := c.base, bad := 0, candidateTries := 0, candidate := k, searchHint := 0,
                             inFlight := false), now);
    }
  }

  lemma {:induction false} FinishRoundTimed(c: Config, s: Search, now: int)
    requires s.results <= 2 && |s.rounds| == 3
    ensures !Searching(FinishRound(c, s, now)) ==> Timed(c, FinishRound(c, s, now), now)
    decreases 3 - s.results, 0
  {
    var t := s.(pending := false, inFlight := false, rounds := s.rounds[s.results := s.low], results := s.results + 1);
    if t.results == 1 || (t.results == 2 && t.rounds[0] != t.rounds[1]) { BeginRoundTimed(c, t, now); }
  }

  lemma ContinueTimed(c: Config, s: Search, now: int)
    requires s.results <= 2 && |s.rounds| == 3
    ensures !Searching(Continue(c, s, now)) ==> Timed(c, Continue(c, s, now), now)
  {
    FinishRoundTimed(c, s.(candidateTries := 0, candidate := 0), now);
  }

  lemma StartTimed(c: Config, s: Search, now: int, refreshing: bool)
    requires |s.rounds| == 3
    ensures !Searching(Start(c, s, now, refreshing)) ==> Timed(c, Start(c, s, now, refreshing), now)
  {
    var t := s.(searchHint := if refreshing then 0 else s.searchHint, results := 0, confirming := false,
                refreshing := refreshing, confirmationCandidate := 0, confirmFailures := 0, nextConfirmation := None);
    BeginRoundTimed(c, t, now);
  }

  // ----- the two canonicalizers

  /** Without a canonicalizer every size is exact. */
  lemma IdentityRoundsDown(c: Config)
    requires ConfigOk(c) && forall x: u32 :: c.canon(x) == x
    ensures RoundsDown(c)
    ensures forall path: u32 {:trigger Target(c, path)} ::
            c.base <= path ==> Best(c, Target(c, path)) == Target(c, path)
  {
    forall x: u32 ensures c.canon(x) <= x && Exact(c, c.canon(x)) { assert Exact(c, x); }
    forall low: u32, twice: u32 | c.base <= low && Doubles(low, twice) ensures low < c.canon(twice) {}
    forall low: u32, r: u32, bad: u32 | c.base <= low < r < bad && Exact(c, r)
      ensures low < c.canon(Mid(low, bad))
    {
      assert Mid(low, bad) == low + (bad - low) / 2;
    }
    forall path: u32 | c.base <= path
      ensures Best(c, Target(c, path)) == Target(c, path)
    {
      assert Exact(c, Target(c, path));
    }
  }

  const SYNTHETIC_IPV6_HEADER := 40
  const PADDING_BOUNDARY := 16
  const WIREGUARD_OVERHEAD := 32

  /** Rounds down to the largest payload of the same padding bucket, in 32 bits. */
  function CanonicalCarrierPayload(payload: u32): u32 {
    if payload < SYNTHETIC_IPV6_HEADER then payload
    else ((payload + SYNTHETIC_IPV6_HEADER) % U32 / PADDING_BOUNDARY * PADDING_BOUNDARY - SYNTHETIC_IPV6_HEADER) % U32
  }

  /** The 32-bit wrap never shows: the result is the largest size up to payload
      that leaves the padded plaintext full. */
  lemma CanonicalRoundsDown(payload: u32)
    requires payload >= SYNTHETIC_IPV6_HEADER
    ensures var k := CanonicalCarrierPayload(payload);
            k <= payload < k + PADDING_BOUNDARY && Full(k)
  {}

  lemma CanonicalIsGreatest(x: u32, r: u32)
    requires CanonicalCarrierPayload(r) == r <= x
    ensures r <= CanonicalCarrierPayload(x)
  {
    if r >= SYNTHETIC_IPV6_HEADER {
      CanonicalIsFull(r);
      FullIsNotMissed(x, r);
    } else if x >= SYNTHETIC_IPV6_HEADER {
      CanonicalRoundsDown(x);
    }
  }

  lemma FullIsNotMissed(x: u32, r: u32)
    requires SYNTHETIC_IPV6_HEADER <= r <= x && Full(r)
    ensures r <= CanonicalCarrierPayload(x)
  {
    CanonicalRoundsDown(x);
    if CanonicalCarrierPayload(x) < r { Spaced(CanonicalCarrierPayload(x), r); }
  }

  lemma CanonicalIsFull(r: u32)
    requires r >= SYNTHETIC_IPV6_HEADER && CanonicalCarrierPayload(r) == r
    ensures Full(r)
  {
    CanonicalRoundsDown(r);
  }

  lemma MidIs(low: u32, bad: u32)
    requires low < bad
    ensures Mid(low, bad) == low + (bad - low) / 2 < bad
  {}

  /** Bisection between an exact bad size and any lower one cannot step over the
      exact sizes in between. */
  lemma CanonicalBisects(low: u32, r: u32, bad: u32, mid: u32)
    requires DEFAULT_CARRIER_PAYLOAD <= low < r < bad && Full(r) && Full(bad) && mid == low + (bad - low) / 2
    ensures low < CanonicalCarrierPayload(mid)
  {
    CanonicalRoundsDown(mid);
    BucketsBisect(low, r, bad, CanonicalCarrierPayload(mid));
  }

  predicate Full(payload: nat) { (payload + SYNTHETIC_IPV6_HEADER) % PADDING_BOUNDARY == 0 }

  lemma BucketsBisect(low: nat, r: nat, bad: nat, k: nat)
    requires low < r < bad && Full(r) && Full(bad) && Full(k) && low + (bad - low) / 2 < k + PADDING_BOUNDARY
    ensures low < k
  {
    Spaced(r, bad);
    if k <= low { Spaced(k, r); }
  }

  lemma Spaced(a: nat, b: nat)
    requires a < b && Full(a) && Full(b)
    ensures a + PADDING_BOUNDARY <= b
  {}

  lemma CanonicalDoubles(low: u32, twice: u32)
    requires DEFAULT_CARRIER_PAYLOAD <= low && twice == 2 * low
    ensures low < CanonicalCarrierPayload(twice)
  {
    CanonicalRoundsDown(twice);
  }

  lemma CanonicalTwice(x: u32)
    ensures CanonicalCarrierPayload(x) <= x
    ensures CanonicalCarrierPayload(CanonicalCarrierPayload(x)) == CanonicalCarrierPayload(x)
  {
    if x >= SYNTHETIC_IPV6_HEADER {
      CanonicalRoundsDown(x);
      CanonicalRoundsDown(CanonicalCarrierPayload(x));
    }
  }

  lemma CanonicalBisectsExact(low: u32, r: u32, bad: u32)
    requires DEFAULT_CARRIER_PAYLOAD <= low < r < bad
    requires CanonicalCarrierPayload(r) == r && CanonicalCarrierPayload(bad) == bad
    ensures low < CanonicalCarrierPayload(Mid(low, bad))
  {
    CanonicalIsFull(r);
    CanonicalIsFull(bad);
    MidIs(low, bad);
    CanonicalBisects(low, r, bad, Mid(low, bad));
  }

  ghost predicate UsesBuckets(c: Config) {
    forall x: u32 {:trigger c.canon(x)} :: c.canon(x) == CanonicalCarrierPayload(x)
  }

  lemma BucketsRoundDown(c: Config)
    requires ConfigOk(c) && UsesBuckets(c)
    ensures RoundsDown(c)
  {
    forall x: u32 ensures c.canon(x) <= x && Exact(c, c.canon(x)) { CanonicalTwice(x); }
    forall x: u32, r: u32 | Exact(c, r) && r <= x ensures r <= c.canon(x) { CanonicalIsGreatest(x, r); }
    forall low: u32, twice: u32 | c.base <= low && Doubles(low, twice)
      ensures low < c.canon(twice)
    {
      CanonicalDoubles(low, twice);
    }
    forall low: u32, r: u32, bad: u32 | c.base <= low < r < bad && Exact(c, r) && Exact(c, bad)
      ensures low < c.canon(Mid(low, bad))
    {
      CanonicalBisectsExact(low, r, bad);
    }
  }

  /** The padding buckets of WireGuard are close enough for the search, which
      then ends at the fullest bucket the path and the ceiling allow. */
  lemma WireGuardRoundsDown(c: Config, path: u32)
    requires ConfigOk(c) && UsesBuckets(c) && c.base <= path
    ensures RoundsDown(c)
    ensures Best(c, Target(c, path)) == if CanonicalCarrierPayload(Target(c, path)) > c.base
            then CanonicalCarrierPayload(Target(c, path)) else c.base
  {
    BucketsRoundDown(c);
    var top := Target(c, path);
    var b := if CanonicalCarrierPayload(top) > c.base then CanonicalCarrierPayload(top) else c.base;
    CanonicalTwice(top);
    forall x: u32 | b < x <= top ensures !Exact(c, x) {
      if Exact(c, x) { CanonicalIsGreatest(top, x); }
    }
    BestIsBest(c, top, b);
  }

  /** The UDP payload WireGuard sends for one carrier payload, in 32 bits. */
  function WireGuardDatagramSize(payload: u32): int {
    WIREGUARD_OVERHEAD + (payload + SYNTHETIC_IPV6_HEADER
        + PADDING_BOUNDARY - 1) % U32 / PADDING_BOUNDARY * PADDING_BOUNDARY
  }

  /** An exact size is the largest payload that needs no larger a datagram; this
      fails just where the 32-bit sum wraps. */
  lemma CanonicalFillsItsDatagram(k: u32, x: u32)
    requires Full(k) && k + SYNTHETIC_IPV6_HEADER + PADDING_BOUNDARY - 1 < U32
    ensures (WireGuardDatagramSize(x) <= WireGuardDatagramSize(k) <==> x <= k) <==>
            x + SYNTHETIC_IPV6_HEADER + PADDING_BOUNDARY - 1 < U32
  {}

  /** The greatest 32-bit payload needs, by that sum, a datagram smaller than a
      payload of 616 bytes does. */
  lemma DatagramSizeWraps()
    ensures Full(616) && WireGuardDatagramSize(0xffff_ffff) == 80 < WireGuardDatagramSize(616) == 688
  {}

  /** A carrier payload is at most 65535 bytes and never meets the wrap. */
  lemma CarriersFillTheirDatagrams(k: u32, x: u32)
    requires Full(k) && k <= MAX_U16 && x <= MAX_U16
    ensures WireGuardDatagramSize(x) <= WireGuardDatagramSize(k) <==> x <= k
  {
    CanonicalFillsItsDatagram(k, x);
  }
}
