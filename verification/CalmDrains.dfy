/** A discipline on events that keeps a delivery row guarded: save requests and delivery attempts
    that never overlap. A run in which only drain workers act is of this kind. What such a run keeps
    is stated on the row as stored and on what each worker has read of it. */
module CalmDrains {
  import opened Common
  import opened Delivery
  import opened Exclusion

  ghost predicate Idle(s: State) { forall a :: a in s.actors ==> s.actors[a].Loaded? }

  /** A save request and a delivery attempt never overlap: a save starts while nothing is
      in flight, and nothing is claimed while a save's own attempt is. */
  ghost predicate Calm(s: State, e: Event) {
    match e
    case Save(_, _, _) => Idle(s)
    case Claim(_, _) => forall a :: a in s.actors && !s.actors[a].Loaded? ==> s.actors[a].drain
    case _ => true
  }

  ghost predicate CalmRun(maximum: nat, s: State, clock: int, trace: seq<Event>)
    decreases |trace|
  {
    trace == [] ||
    (&& Timely(s, clock, trace[0])
     && Calm(s, trace[0])
     && CalmRun(maximum, Step(maximum, s, trace[0]), trace[0].at, trace[1..]))
  }

  /** What a calm run keeps. A worker's read is either current, or the row's schedule has
      moved strictly past the one it read. */
  ghost predicate Exclusive(s: State, clock: int) {
    && (forall a, b :: a in s.actors && b in s.actors && !s.actors[a].Loaded? && !s.actors[b].Loaded? ==> a == b)
    && (forall a :: a in s.actors && !s.actors[a].Loaded? ==> InFlightOk(s.row, s.actors[a], clock))
    && (forall a :: a in s.actors && s.actors[a].Loaded? ==> ReadOk(s.row, s.version, s.actors[a], clock))
    && (forall a, b :: a in s.actors && b in s.actors && !s.actors[a].Loaded? && s.actors[b].Loaded? ==>
                         s.actors[b].copy.nextAttemptAt.value <= s.actors[a].since)
  }

  predicate InFlightOk(row: Row, f: Actor, clock: int)
    requires !f.Loaded?
  {
    && f.since <= clock
    && (f.Trying? ==> f.since < f.startedAt <= clock)
    && Retryable(row)
    && row.nextAttemptAt == Some(if f.drain then f.since + ATTEMPT_LEASE else f.since)
  }

  predicate ReadOk(row: Row, version: nat, r: Actor, clock: int)
    requires r.Loaded?
  {
    && r.copy.nextAttemptAt.Some?
    && r.copy.nextAttemptAt.value <= clock
    && r.version <= version
    && (r.version == version ==> row == r.copy)
    && (r.version < version && row.nextAttemptAt.Some? ==> r.copy.nextAttemptAt.value < row.nextAttemptAt.value)
  }

  /** Readers survive a write that moves the schedule past everything already read. */
  lemma ReadersOutlastWrite(s: State, s': State, clock: int, at: int)
    requires Exclusive(s, clock) && clock < at
    requires s'.version == s.version + 1
    requires forall a :: a in s'.actors && s'.actors[a].Loaded? ==> a in s.actors && s'.actors[a] == s.actors[a]
    requires s'.row.nextAttemptAt.Some? ==>
               forall a :: a in s'.actors && s'.actors[a].Loaded? ==>
                             s'.actors[a].copy.nextAttemptAt.Some?
                             && s'.actors[a].copy.nextAttemptAt.value < s'.row.nextAttemptAt.value
    ensures forall a :: a in s'.actors && s'.actors[a].Loaded? ==> ReadOk(s'.row, s'.version, s'.actors[a], at)
  {
    forall a | a in s'.actors && s'.actors[a].Loaded? ensures ReadOk(s'.row, s'.version, s'.actors[a], at) {
      assert ReadOk(s.row, s.version, s.actors[a], clock);
    }
  }

  lemma SaveKeepsExclusive(maximum: nat, s: State, clock: int, e: Event)
    requires e.Save? && Exclusive(s, clock) && Timely(s, clock, e) && Calm(s, e)
    ensures Exclusive(Step(maximum, s, e), e.at)
  {
    if e.actor !in s.actors {
      forall a | a in s.actors
        ensures s.actors[a].copy.nextAttemptAt.Some? && s.actors[a].copy.nextAttemptAt.value < e.at
      {
        assert ReadOk(s.row, s.version, s.actors[a], clock);
      }
      ReadersOutlastWrite(s, Step(maximum, s, e), clock, e.at);
    }
  }

  lemma ClaimKeepsExclusive(maximum: nat, s: State, clock: int, e: Event)
    requires e.Claim? && Exclusive(s, clock) && Timely(s, clock, e) && Calm(s, e)
    ensures Exclusive(Step(maximum, s, e), e.at)
  {
    if e.actor in s.actors && s.actors[e.actor].Loaded? {
      assert ReadOk(s.row, s.version, s.actors[e.actor], clock);
      if ClaimMatches(s.row, s.actors[e.actor].copy) {
        MatchedClaimKeepsExclusive(maximum, s, clock, e);
      }
    }
  }

  lemma MatchedClaimKeepsExclusive(maximum: nat, s: State, clock: int, e: Event)
    requires e.Claim? && Exclusive(s, clock) && Timely(s, clock, e) && Calm(s, e)
    requires e.actor in s.actors && s.actors[e.actor].Loaded? && ClaimMatches(s.row, s.actors[e.actor].copy)
    ensures Exclusive(Step(maximum, s, e), e.at)
  {
    MatchingReadIsCurrent(s, clock, e);
    forall a | a in s.actors
      ensures s.actors[a].Loaded? && s.actors[a].copy.nextAttemptAt.Some? && s.actors[a].copy.nextAttemptAt.value < e.at
    {
      assert ReadOk(s.row, s.version, s.actors[a], clock);
    }
    ReadersOutlastWrite(s, Step(maximum, s, e), clock, e.at);
  }

  /** A claim that matches was made from a read of the row as it stands. */
  lemma MatchingReadIsCurrent(s: State, clock: int, e: Event)
    requires e.Claim? && Exclusive(s, clock) && Timely(s, clock, e) && Calm(s, e)
    requires e.actor in s.actors && s.actors[e.actor].Loaded?
    requires ClaimMatches(s.row, s.actors[e.actor].copy)
    ensures Idle(s)
    ensures s.actors[e.actor].version == s.version && s.row == s.actors[e.actor].copy
  {
    assert ReadOk(s.row, s.version, s.actors[e.actor], clock);
    forall a | a in s.actors ensures s.actors[a].Loaded? {
      assert !s.actors[a].Loaded? ==> InFlightOk(s.row, s.actors[a], clock) && Holds(s, a);
    }
  }

  lemma RecordKeepsExclusive(maximum: nat, s: State, clock: int, e: Event)
    requires e.Record? && Exclusive(s, clock) && Timely(s, clock, e)
    ensures Exclusive(Step(maximum, s, e), e.at)
  {
    if e.actor in s.actors && s.actors[e.actor].Trying? {
      var f, s' := s.actors[e.actor], Step(maximum, s, e);
      DelayIsPositive(f.copy.attempts + 1);
      assert InFlightOk(s.row, f, clock);
      forall a | a in s'.actors ensures s'.actors[a].Loaded? && s'.actors[a].copy.nextAttemptAt.Some?
                                        && s'.actors[a].copy.nextAttemptAt.value < f.startedAt
      {
        assert s.actors[a].Loaded?;
        assert ReadOk(s.row, s.version, s.actors[a], clock);
      }
      ReadersOutlastWrite(s, s', clock, e.at);
    }
  }

  lemma RequeueKeepsExclusive(maximum: nat, s: State, clock: int, e: Event)
    requires e.Requeue? && Exclusive(s, clock) && Timely(s, clock, e)
    ensures Exclusive(Step(maximum, s, e), e.at)
  {
    var s' := Step(maximum, s, e);
    if s.row.state.PermanentFailed? {
      forall a | a in s.actors ensures s.actors[a].Loaded? && s.actors[a].copy.nextAttemptAt.Some?
                                       && s.actors[a].copy.nextAttemptAt.value < e.at
      {
        assert !s.actors[a].Loaded? ==> InFlightOk(s.row, s.actors[a], clock);
        assert ReadOk(s.row, s.version, s.actors[a], clock);
      }
      ReadersOutlastWrite(s, s', clock, e.at);
    } else {
      OtherStepsKeepExclusive(s, s', clock, e.at);
    }
  }

  /** Steps that write nothing: actors may leave, load, or start their attempt. */
  lemma OtherStepsKeepExclusive(s: State, s': State, clock: int, at: int)
    requires Exclusive(s, clock) && clock < at
    requires s'.row == s.row && s'.version == s.version
    requires forall a :: a in s'.actors && a in s.actors ==>
                           s'.actors[a] == s.actors[a] ||
                           (s.actors[a].Ready? &&
                               s'.actors[a] == Trying(s.actors[a].copy, s.actors[a].drain, s.actors[a].since, at))
    requires forall a :: a in s'.actors && a !in s.actors ==> Due(s.row, at) && s'.actors[a] == Loaded(s.row, s.version)
    requires forall b :: Holds(s, b) ==> at < s.actors[b].since + ATTEMPT_LEASE
    ensures Exclusive(s', at)
  {
    forall a | a in s'.actors && !s'.actors[a].Loaded? ensures InFlightOk(s'.row, s'.actors[a], at) {
      assert InFlightOk(s.row, s.actors[a], clock);
    }
    forall a | a in s'.actors && s'.actors[a].Loaded? ensures ReadOk(s'.row, s'.version, s'.actors[a], at) {
      if a in s.actors {
        assert ReadOk(s.row, s.version, s.actors[a], clock);
      }
    }
    forall a, b | a in s'.actors && b in s'.actors && !s'.actors[a].Loaded? && s'.actors[b].Loaded?
      ensures s'.actors[b].copy.nextAttemptAt.value <= s'.actors[a].since
    {
      assert InFlightOk(s.row, s.actors[a], clock);
      assert s.actors[a].drain ==> Holds(s, a);
    }
  }

  lemma CalmStepKeepsExclusive(maximum: nat, s: State, clock: int, e: Event)
    requires Exclusive(s, clock) && Timely(s, clock, e) && Calm(s, e)
    ensures Exclusive(Step(maximum, s, e), e.at)
  {
    match e
    case Save(_, _, _) => SaveKeepsExclusive(maximum, s, clock, e);
    case Claim(_, _) => ClaimKeepsExclusive(maximum, s, clock, e);
    case Record(_, _, _) => RecordKeepsExclusive(maximum, s, clock, e);
    case Requeue(_) => RequeueKeepsExclusive(maximum, s, clock, e);
    case _ => OtherStepsKeepExclusive(s, Step(maximum, s, e), clock, e.at);
  }

  lemma {:induction false} CalmRunsStayExclusive(maximum: nat, s: State, clock: int, trace: seq<Event>)
    requires Exclusive(s, clock) && CalmRun(maximum, s, clock, trace)
    ensures Exclusive(Run(maximum, s, trace), if trace == [] then clock else trace[|trace| - 1].at)
    decreases |trace|
  {
    if trace != [] {
      CalmStepKeepsExclusive(maximum, s, clock, trace[0]);
      CalmRunsStayExclusive(maximum, Step(maximum, s, trace[0]), trace[0].at, trace[1..]);
    }
  }

  /** Calm runs keep the row guarded, so no two drains hold it; and there a claim succeeds exactly
      when the row has not been written since its worker read it: every later schedule lies past
      every read, and a stale compare-and-set matches nothing. */
  lemma CalmRunsClaimExclusively(maximum: nat, row: Row, clock: int, trace: seq<Event>, claim: Event)
    requires claim.Claim? && CalmRun(maximum, State(row, 0, map[]), clock, trace + [claim])
    ensures var s := Run(maximum, State(row, 0, map[]), trace);
            && Guarded(s) && AtMostOneHolder(s)
            && AtMostOneHolder(Step(maximum, s, claim))
            && (claim.actor in s.actors && s.actors[claim.actor].Loaded? ==>
                  (ClaimMatches(s.row, s.actors[claim.actor].copy) <==> s.actors[claim.actor].version == s.version))
  {
    var start := State(row, 0, map[]);
    CalmRunSplits(maximum, start, clock, trace, claim);
    CalmRunsStayExclusive(maximum, start, clock, trace);
    var s, now := Run(maximum, start, trace), if trace == [] then clock else trace[|trace| - 1].at;
    CalmStepKeepsExclusive(maximum, s, now, claim);
    ReadsWereRetryable(maximum, start, trace);
    if claim.actor in s.actors && s.actors[claim.actor].Loaded? {
      assert ReadOk(s.row, s.version, s.actors[claim.actor], now);
      if ClaimMatches(s.row, s.actors[claim.actor].copy) {
        MatchingReadIsCurrent(s, now, claim);
      }
    }
  }

  lemma {:induction false} CalmRunSplits(maximum: nat, s: State, clock: int, trace: seq<Event>, last: Event)
    requires CalmRun(maximum, s, clock, trace + [last])
    ensures CalmRun(maximum, s, clock, trace)
    ensures var now := if trace == [] then clock else trace[|trace| - 1].at;
            Timely(Run(maximum, s, trace), now, last) && Calm(Run(maximum, s, trace), last)
    decreases |trace|
  {
    if trace == [] {
      assert [] + [last] == [last];
    } else {
      assert (trace + [last])[1..] == trace[1..] + [last];
      CalmRunSplits(maximum, Step(maximum, s, trace[0]), trace[0].at, trace[1..], last);
    }
  }

  lemma {:induction false} ReadsWereRetryable(maximum: nat, s: State, trace: seq<Event>)
    requires forall a :: a in s.actors && s.actors[a].Loaded? ==> Retryable(s.actors[a].copy)
    ensures var s' := Run(maximum, s, trace);
            forall a :: a in s'.actors && s'.actors[a].Loaded? ==> Retryable(s'.actors[a].copy)
    decreases |trace|
  {
    if trace != [] {
      var s1 := Step(maximum, s, trace[0]);
      forall a | a in s1.actors && s1.actors[a].Loaded? ensures Retryable(s1.actors[a].copy) {
        assert a in s.actors && s.actors[a].Loaded? ==> Retryable(s.actors[a].copy);
      }
      ReadsWereRetryable(maximum, s1, trace[1..]);
      assert Run(maximum, s, trace) == Run(maximum, s1, trace[1..]);
    }
  }

  /** Without saves the discipline is kept by the drains themselves. */
  lemma {:induction false} DrainsAloneAreCalm(maximum: nat, s: State, clock: int, trace: seq<Event>)
    requires forall a :: a in s.actors && !s.actors[a].Loaded? ==> s.actors[a].drain
    requires forall i :: 0 <= i < |trace| ==> !trace[i].Save?
    requires TimelyRun(maximum, s, clock, trace)
    ensures CalmRun(maximum, s, clock, trace)
    decreases |trace|
  {
    if trace != [] {
      assert !trace[0].Save?;
      DrainsAloneAreCalm(maximum, Step(maximum, s, trace[0]), trace[0].at, trace[1..]);
    }
  }
}
