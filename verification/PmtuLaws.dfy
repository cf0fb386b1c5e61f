/** What single events of the path MTU search do (internal/core/pmtu/pmtu.go), in
    times and sizes. */
module PmtuLaws {
  import opened Wire
  import opened PmtuSpec
  import opened PmtuTheorems

  // ----- times

  function Least(a: int, b: int): int { if a < b then a else b }

  function Greatest(a: int, b: int): int { if a < b then b else a }

  /** A probe waits four smoothed round trips for its answer, not less than 100 ms
      and not more than the largest duration; the configured time while there is
      no sample. */
  lemma SendIsTimed(c: Config, h: Run, now: int)
    requires Inv(c, h) && h.s.pending
    ensures var t := Step(c, h.s, Send(now));
            && t.inFlight && !t.pending && t.attempt == h.s.attempt + 1 && t.candidateTries == h.s.candidateTries + 1
            && t.candidate == h.s.candidate
            && t.deadline - now == if h.s.srtt <= 0 then c.probeTimeout
                                   else Least(Greatest(4 * h.s.srtt, 100_000_000), 0x7fff_ffff_ffff_ffff)
  {}

  /** A sample moves the smoothed round trip an eighth of the way, rounded down; the
      first one is taken as it is, and one that is not positive is ignored. */
  lemma SmoothingIsAnEighth(srtt: int, sample: int)
    requires srtt >= 0
    ensures var t := Smoothed(srtt, sample);
            && (sample <= 0 ==> t == srtt) && (sample > 0 && srtt == 0 ==> t == sample)
            && (sample >= srtt > 0 ==> 8 * (t - srtt) <= sample - srtt < 8 * (t - srtt) + 8)
            && (0 < sample < srtt ==> 8 * (srtt - t) <= srtt - sample < 8 * (srtt - t) + 8)
  {}

  // ----- due work

  /** A refresh starts a search exactly if none runs and its time has come; it keeps
      the size in use and forgets a hint. */
  lemma RefreshExactly(c: Config, h: Run, now: int)
    requires Inv(c, h) && c.base < c.ceiling && c.canon(0) <= c.base
    ensures var t, due, first := Step(c, h.s, Refresh(now)), h.s.nextRefresh, NextCandidate(c, c.base, 0);
            if !h.s.pending && !h.s.inFlight && due.Some? && due.value <= now
            then first != 0 ==>
                   && t.pending && t.refreshing && !t.confirming && t.candidate == first && t.low == c.base &&
                        t.bad == 0
                   && t.results == 0 && t.confirmed == h.s.confirmed
            else t == h.s
  {}

  /** A confirmation is armed exactly if nothing runs and its time has come; it asks
      for the size in use. */
  lemma ConfirmExactly(c: Config, h: Run, now: int)
    requires Inv(c, h)
    ensures var t, due := Step(c, h.s, Confirm(now)), h.s.nextConfirmation;
            if !h.s.pending && !h.s.inFlight && due.Some? && due.value <= now
            then t == h.s.(confirming := true, confirmationCandidate := 0, candidate := h.s.confirmed,
                candidateTries := 0,
                           pending := true)
            else t == h.s
  {}

  // ----- black holes

  /** Confirmations of the size in use: an answer forgives what was lost before, the
      first and second loss are counted, the third is a black hole. */
  lemma ConfirmationCounts(c: Config, h: Run, e: Event)
    requires Inv(c, h) && h.s.inFlight && h.s.confirming && h.s.confirmationCandidate == 0
    ensures var t := Step(c, h.s, e);
            && (e.Ack? && e.attempt == h.s.attempt && e.size == h.s.candidate ==>
                  t.confirmFailures == 0 && t.confirmed == h.s.confirmed && !Searching(t))
            && (e.FailCurrent? || e.SoftFail? || (e.Tick? && h.s.deadline <= e.now) ==>
                  if h.s.confirmFailures <= 1
                  then t.confirmFailures == h.s.confirmFailures + 1 && t.confirmed == h.s.confirmed && !Searching(t) &&
                       t.blackholed == h.s.blackholed
                  else t.confirmed == c.base && t.blackholed)
  {
    if e.FailCurrent? || e.SoftFail? || (e.Tick? && h.s.deadline <= e.now) { BlackholeStarts(c, h, e.now); }
  }

  lemma {:induction false} RoundsKeepBlackholed(c: Config, s: Search, now: int)
    requires s.results <= 2 && |s.rounds| == 3
    ensures BeginRound(c, s, now).blackholed == s.blackholed && BeginRound(c, s, now).confirmed == s.confirmed
    decreases 3 - s.results
  {
    if s.results <= 1 {
      var first, hinted := NextCandidate(c, c.base, 0), CanonicalCandidate(c, s.searchHint);
      var k := if hinted > c.base then hinted else first;
      var t := s.(low := c.base, bad := 0, candidateTries := 0, candidate := k, searchHint := 0, inFlight := false);
      RoundsKeepBlackholed(c, t.(pending := false, inFlight := false, rounds := t.rounds[t.results := t.low],
                                 results := t.results + 1), now);
    }
  }

  lemma BlackholeStarts(c: Config, h: Run, now: int)
    requires Inv(c, h)
    ensures var t := h.s.(inFlight := false, confirming := false, pending := false, confirmed := c.base,
                          blackholed := true, searchHint := 0);
            Start(c, t, now, false).blackholed && Start(c, t, now, false).confirmed == c.base
  {
    var t := h.s.(inFlight := false, confirming := false, pending := false, confirmed := c.base, blackholed := true,
                  searchHint := 0, results := 0, refreshing := false, confirmationCandidate := 0, confirmFailures := 0,
                  nextConfirmation := None);
    RoundsKeepBlackholed(c, t, now);
  }

  // ----- candidates

  /** A search starts at the hint, if the transport can represent it above BASE, else
      where the doubling starts. */
  lemma SearchStartsAtHint(c: Config, h: Run, now: int, hint: u32)
    requires Inv(c, h) && c.base < c.ceiling && c.base < c.canon(hint) <= c.ceiling
    ensures var t := Step(c, h.s, BeginWithHint(now, hint));
            t.pending && t.candidate == c.canon(hint) && t.low == c.base && t.bad == 0 && t.confirmed == h.s.confirmed
  {}

  lemma SearchStartsBelow(c: Config, h: Run, e: Event)
    requires Inv(c, h) && c.base < c.ceiling && (e.Begin? || (e.BeginWithHint? && c.canon(e.hint) <= c.base))
    requires c.canon(0) <= c.base
    ensures var t, first := Step(c, h.s, e), NextCandidate(c, c.base, 0);
            first != 0 ==>
              && t.pending && t.candidate == first && t.low == c.base && t.bad == 0 && t.results == 0
              && t.confirmed == h.s.confirmed && t.nextConfirmation == None
  {}

  /** Between a size that passed and one that failed the next one halves what is left. */
  lemma CandidateHalves(c: Config, low: u32, bad: u32)
    requires (forall x: u32 :: c.canon(x) == x) && c.base <= low && low + 2 <= bad <= c.ceiling
    ensures var k := NextCandidate(c, low, bad); low < k < bad && 2 * (k - low) <= bad - low <= 2 * (k - low) + 1
  {
    MidIs(low, bad);
  }

  /** Before any failed it doubles, up to the ceiling. */
  lemma CandidateDoubles(c: Config, low: u32)
    requires (forall x: u32 :: c.canon(x) == x) && 0 < c.base <= low < c.ceiling
    ensures NextCandidate(c, low, 0) == Least(2 * low, c.ceiling)
  {
    if low <= c.ceiling / 2 { assert low * 2 % U32 == low * 2; }
  }
}
