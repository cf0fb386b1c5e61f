/** The owner of one direction's path MTU search (internal/core/pmtu/pmtu.go). */
module Pmtu {
  import opened Wire
  import opened PmtuSpec
  import opened PmtuTheorems

  datatype Probe = Probe(attempt: nat, size: u32)

  class State {
    const config: Config
    /** All fields of the search, updated in place. */
    var s: Search
    /** The sizes acknowledged in this search's rounds. */
    ghost var acked: set<u32>

    ghost function History(): Run
      reads this
    {
      Run(s, acked)
    }

    ghost predicate Valid()
      reads this
    {
      Inv(config, History())
    }

    constructor (config: Config)
      requires ConfigOk(config)
      ensures this.config == config && Valid() && s == NewSearch(config) && acked == {}
    {
      this.config, s, acked := config, NewSearch(config), {};
    }

    // ----- rounds

    method Schedule(now: int)
      modifies `s
      ensures s == Idle(config, old(s), now)
    {
      s := s.(nextRefresh := Some(now + config.refreshInterval));
      s := s.(nextConfirmation := Some(now + config.confirmationInterval));
    }

    method BeginRound(now: int)
      requires s.results <= 2 && |s.rounds| == 3
      modifies `s
      ensures s == PmtuSpec.BeginRound(config, old(s), now)
      decreases 3 - s.results, 1
    {
      s := s.(low := config.base, bad := 0, candidateTries := 0);
      s := s.(candidate := NextCandidate(config, s.low, s.bad));
      var hinted := CanonicalCandidate(config, s.searchHint);
      if hinted > s.low { s := s.(candidate := hinted); }
      s := s.(searchHint := 0, inFlight := false);
      if s.candidate == 0 {
        FinishRound(now);
      } else {
        s := s.(pending := true);
      }
    }

    method FinishRound(now: int)
      requires s.results <= 2 && |s.rounds| == 3
      modifies `s
      ensures s == PmtuSpec.FinishRound(config, old(s), now)
      decreases 3 - s.results, 0
    {
      s := s.(pending := false, inFlight := false, rounds := s.rounds[s.results := s.low], results := s.results + 1);
      if s.results == 1 {
        BeginRound(now);
        return;
      }
      if s.results == 2 && s.rounds[0] != s.rounds[1] {
        BeginRound(now);
        return;
      }
      var best := if s.results == 2 then s.rounds[0] else Median(s.rounds[0], s.rounds[1], s.rounds[2]);
      if best > s.confirmed {
        s := s.(confirmationCandidate := best, confirming := true, candidate := best, candidateTries := 0,
            pending := true);
        return;
      }
      s := s.(searchHint := 0, refreshing := false);
      Schedule(now);
    }

    method StartSearch(now: int, refreshing: bool)
      requires |s.rounds| == 3
      modifies `s, `acked
      ensures s == PmtuSpec.Start(config, old(s), now, refreshing) && acked == {}
    {
      acked := {};
      if refreshing { s := s.(searchHint := 0); }
      s := s.(results := 0, confirming := false, refreshing := refreshing);
      s := s.(confirmationCandidate := 0, confirmFailures := 0, nextConfirmation := None);
      if config.ceiling == config.base {
        s := s.(confirmed := config.base, pending := false, inFlight := false, searchHint := 0);
        Schedule(now);
        return;
      }
      BeginRound(now);
    }

    method Continue(now: int)
      requires s.results <= 2 && |s.rounds| == 3
      modifies `s
      ensures s == PmtuSpec.Continue(config, old(s), now)
    {
      s := s.(candidateTries := 0);
      s := s.(candidate := NextCandidate(config, s.low, s.bad));
      if s.candidate == 0 {
        FinishRound(now);
      } else {
        s := s.(pending := true);
      }
    }

    // ----- what the owner may ask

    method Start(now: int)
      requires Valid()
      modifies this
      ensures Valid() && History() == Advance(config, old(History()), Begin(now))
    {
      StepKeepsInv(config, History(), Begin(now));
      s := s.(searchHint := 0);
      StartSearch(now, false);
    }

    method StartWithHint(now: int, hint: u32)
      requires Valid()
      modifies this
      ensures Valid() && History() == Advance(config, old(History()), BeginWithHint(now, hint))
    {
      StepKeepsInv(config, History(), BeginWithHint(now, hint));
      s := s.(searchHint := hint);
      StartSearch(now, false);
    }

    method RefreshDue(now: int) returns (started: bool)
      requires Valid()
      modifies this
      ensures Valid() && History() == Advance(config, old(History()), Refresh(now)) &&
              started == old(RefreshIsDue(s, now))
    {
      StepKeepsInv(config, History(), Refresh(now));
      started := !s.pending && !s.inFlight && s.nextRefresh.Some? && now >= s.nextRefresh.value;
      if started { StartSearch(now, true); }
    }

    method ConfirmationDue(now: int) returns (armed: bool)
      requires Valid()
      modifies this
      ensures Valid() && History() == Advance(config, old(History()), Confirm(now)) &&
              armed == old(ConfirmationIsDue(s, now))
    {
      StepKeepsInv(config, History(), Confirm(now));
      armed := !s.pending && !s.inFlight && s.nextConfirmation.Some? && now >= s.nextConfirmation.value;
      if armed {
        s := s.(confirming := true, confirmationCandidate := 0, candidate := s.confirmed, candidateTries := 0,
            pending := true);
      }
    }

    method Timeout() returns (timeout: int)
      ensures timeout == ProbeTimeout(config, s)
    {
      if s.srtt <= 0 { return config.probeTimeout; }
      if s.srtt > MAX_DURATION / 4 { return MAX_DURATION; }
      timeout := 4 * s.srtt;
      if timeout < MINIMUM_PROBE_TIMEOUT { timeout := MINIMUM_PROBE_TIMEOUT; }
    }

    /** The probe to send now, if one is due; it lies between BASE and the ceiling. */
    method Next(now: int) returns (probe: Option<Probe>)
      requires Valid()
      modifies this
      ensures Valid() && History() == Advance(config, old(History()), Send(now))
      ensures probe.Some? <==> old(s.pending)
      ensures probe.Some? ==>
              s.inFlight && probe.value == Probe(s.attempt, s.candidate) && Within(config, probe.value.size)
    {
      StepKeepsInv(config, History(), Send(now));
      if !s.pending { return None; }
      var timeout := Timeout();
      s := s.(pending := false, inFlight := true, attempt := s.attempt + 1, candidateTries := s.candidateTries + 1,
          deadline := now + timeout);
      probe := Some(Probe(s.attempt, s.candidate));
    }

    method AdjustCurrent(token: nat, size: u32) returns (adjusted: bool)
      requires Valid()
      modifies this
      ensures Valid() && History() == Advance(config, old(History()), Adjust(token, size))
      ensures adjusted <==> s.inFlight && token == s.attempt && Within(config, size)
    {
      StepKeepsInv(config, History(), Adjust(token, size));
      adjusted := s.inFlight && token == s.attempt && config.base <= size <= config.ceiling;
      if adjusted { s := s.(candidate := size); }
    }

    method ObserveRTT(sample: int)
      requires Valid()
      modifies this
      ensures Valid() && History() == Advance(config, old(History()), Rtt(sample))
    {
      StepKeepsInv(config, History(), Rtt(sample));
      if sample <= 0 { return; }
      s := s.(srtt := if s.srtt == 0 then sample else s.srtt + Quotient(sample - s.srtt, 8));
    }

    method TakeBlackholed() returns (was: bool)
      requires Valid()
      modifies this
      ensures Valid() && History() == Advance(config, old(History()), TakeBlackhole) && was == old(s.blackholed)
    {
      was := s.blackholed;
      s := s.(blackholed := false);
    }

    method ReportBlackhole(now: int)
      requires Valid()
      modifies this
      ensures Valid() && History() == Advance(config, old(History()), Blackhole(now)) && s.confirmed == config.base
    {
      StepKeepsInv(config, History(), Blackhole(now));
      s := s.(confirmed := config.base, searchHint := 0);
      StartSearch(now, false);
    }

    // ----- what becomes of the probe in flight

    method Acknowledge(token: nat, size: u32, now: int) returns (matched: bool)
      requires Valid()
      modifies this
      ensures Valid() && History() == Advance(config, old(History()), Ack(token, size, now))
      ensures matched == old(Acknowledges(s, Ack(token, size, now)))
    {
      StepKeepsInv(config, History(), Ack(token, size, now));
      matched := s.inFlight && token == s.attempt && size == s.candidate;
      if !matched { return; }
      s := s.(inFlight := false);
      if s.confirming {
        ConfirmSuccess(now);
      } else {
        acked := acked + {size};
        s := s.(low := s.candidate);
        Continue(now);
      }
    }

    method ConfirmSuccess(now: int)
      requires !s.inFlight && s.confirming && |s.rounds| == 3
      modifies `s
      ensures s == Succeed(config, old(s), now)
    {
      s := s.(confirming := false, pending := false, confirmFailures := 0);
      if s.confirmationCandidate != 0 {
        s := s.(confirmed := s.confirmationCandidate, confirmationCandidate := 0, refreshing := false);
        Schedule(now);
      } else {
        s := s.(nextConfirmation := Some(now + config.confirmationInterval));
      }
    }

    method ConfirmFailure(now: int)
      requires !s.inFlight && s.confirming && |s.rounds| == 3
      modifies `s, `acked
      ensures s == LoseConfirmation(config, old(s), now)
      ensures acked == if old(s.confirmationCandidate == 0 && s.confirmFailures + 1 >= CONFIRMATION_FAILURE_LIMIT)
              then {} else old(acked)
    {
      s := s.(confirming := false, pending := false);
      if s.confirmationCandidate != 0 {
        s := s.(confirmationCandidate := 0, refreshing := false, confirmFailures := 0);
        Schedule(now);
        return;
      }
      s := s.(confirmFailures := s.confirmFailures + 1);
      if s.confirmFailures < CONFIRMATION_FAILURE_LIMIT {
        s := s.(nextConfirmation := Some(now + config.confirmationInterval));
        return;
      }
      s := s.(confirmed := config.base, blackholed := true, searchHint := 0);
      StartSearch(now, false);
    }

    /** A probe is lost; a search size is given up for certain, or after three tries. */
    method LoseCurrent(now: int, definitive: bool, ghost e: Event)
      requires Valid() && Loses(s, e) && e.now == now && Definitive(e) == definitive
      modifies this
      ensures Valid() && History() == Advance(config, old(History()), e)
      ensures old(!s.confirming) && !definitive && old(s.candidateTries) <= 2 ==> s == TriedAgain(old(s))
      ensures old(!s.confirming) && (definitive || old(s.candidateTries) >= 3) ==>
                s == GivenUp(config, old(s), now)
    {
      StepKeepsInv(config, History(), e);
      s := s.(inFlight := false);
      if s.confirming {
        ConfirmFailure(now);
      } else if !definitive && s.candidateTries < SEARCH_ATTEMPT_LIMIT {
        s := s.(pending := true);
      } else {
        s := s.(bad := s.candidate);
        Continue(now);
      }
    }

    method Fail(token: nat, now: int) returns (matched: bool)
      requires Valid()
      modifies this
      ensures Valid() && History() == Advance(config, old(History()), Event.Fail(token, now)) &&
              matched == old(s.inFlight && token == s.attempt)
      ensures if !matched then s == old(s) else old(s.confirming) || s == GivenUp(config, old(s), now)
    {
      matched := s.inFlight && token == s.attempt;
      if matched { LoseCurrent(now, true, Event.Fail(token, now)); }
    }

    method FailCurrent(now: int) returns (any: bool)
      requires Valid()
      modifies this
      ensures Valid() && History() == Advance(config, old(History()), Event.FailCurrent(now)) && any == old(s.inFlight)
      ensures if !any then s == old(s) else old(s.confirming) || s == GivenUp(config, old(s), now)
    {
      any := s.inFlight;
      if any { LoseCurrent(now, true, Event.FailCurrent(now)); }
    }

    method SoftFailCurrent(now: int) returns (any: bool)
      requires Valid()
      modifies this
      ensures Valid() && History() == Advance(config, old(History()), SoftFail(now)) && any == old(s.inFlight)
      ensures if !any then s == old(s) else old(s.confirming) || s == VaguelyLost(config, old(s), now)
    {
      any := s.inFlight;
      if any { LoseCurrent(now, false, SoftFail(now)); }
    }

    method Tick(now: int) returns (overdue: bool)
      requires Valid()
      modifies this
      ensures Valid() && History() == Advance(config, old(History()), Event.Tick(now)) &&
              overdue == old(s.inFlight && now >= s.deadline)
      ensures if !overdue then s == old(s) else old(s.confirming) || s == VaguelyLost(config, old(s), now)
    {
      overdue := s.inFlight && now >= s.deadline;
      if overdue { LoseCurrent(now, false, Event.Tick(now)); }
    }
  }

  /** Refuses an unusable configuration. */
  method NewState(config: Config) returns (state: Option<State>)
    ensures state.Some? <==> ConfigOk(config)
    ensures state.Some? ==>
            fresh(state.value) && state.value.Valid() && state.value.s.confirmed == config.base &&
            !Searching(state.value.s)
  {
    if !ConfigOk(config) { return None; }
    var s := new State(config);
    state := Some(s);
  }

  /** The probe timeout never falls below 100 ms, and round-trip samples keep the
      smoothed time positive and between its old value and the sample. */
  lemma TimeoutIsSane(c: Config, s: Search, sample: int)
    requires ConfigOk(c) && c.probeTimeout <= MAX_DURATION && 0 <= s.srtt <= MAX_DURATION && sample <= MAX_DURATION
    ensures MINIMUM_PROBE_TIMEOUT <= ProbeTimeout(c, s) <= MAX_DURATION
    ensures sample > 0 ==> 0 < Smoothed(s.srtt, sample) <= MAX_DURATION
    ensures sample > 0 && s.srtt > 0 ==>
            s.srtt <= Smoothed(s.srtt, sample) <= sample || sample <= Smoothed(s.srtt, sample) <= s.srtt
  {}
}
