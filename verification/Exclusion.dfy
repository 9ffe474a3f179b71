/** Who may be attempting one delivery: when drain workers exclude each other, and exactly when
    they do not. */
module Exclusion {
  import opened Common
  import opened Delivery

  predicate InFlight(s: State, a: nat) { a in s.actors && !s.actors[a].Loaded? }

  predicate Holds(s: State, a: nat) { InFlight(s, a) && s.actors[a].drain }

  ghost predicate AtMostOneHolder(s: State) { forall a, b :: Holds(s, a) && Holds(s, b) ==> a == b }

  /** The clock strictly advances, and no drain worker holds past its lease. */
  ghost predicate Timely(s: State, clock: int, e: Event) {
    && clock < e.at
    && forall a :: Holds(s, a) ==> e.at < s.actors[a].since + ATTEMPT_LEASE
  }

  ghost predicate TimelyRun(maximum: nat, s: State, clock: int, trace: seq<Event>)
    decreases |trace|
  {
    trace == [] ||
    (Timely(s, clock, trace[0]) && TimelyRun(maximum, Step(maximum, s, trace[0]), trace[0].at, trace[1..]))
  }

  lemma OneMore(maximum: nat, s: State, clock: int, e: Event, rest: seq<Event>)
    ensures Run(maximum, s, [e] + rest) == Run(maximum, Step(maximum, s, e), rest)
    ensures TimelyRun(maximum, s, clock, [e] + rest) <==>
            Timely(s, clock, e) && TimelyRun(maximum, Step(maximum, s, e), e.at, rest)
  {
    assert ([e] + rest)[1..] == rest;
  }

  // ----- the condition on the stored row -----

  /** While a drain worker holds the delivery, a retryable row is not scheduled before its lease
      ends. A claim establishes this; a save, or the outcome of another attempt, may undo it. */
  ghost predicate Guarded(s: State) {
    forall a :: Holds(s, a) && Retryable(s.row) ==>
      s.row.nextAttemptAt.Some? && s.row.nextAttemptAt.value >= s.actors[a].since + ATTEMPT_LEASE
  }

  /** Every read found the row due. */
  ghost predicate ReadsWereDue(s: State, clock: int) {
    forall a :: a in s.actors && s.actors[a].Loaded? ==>
      s.actors[a].copy.nextAttemptAt.Some? && s.actors[a].copy.nextAttemptAt.value <= clock
  }

  ghost predicate GuardedRun(maximum: nat, s: State, trace: seq<Event>)
    decreases |trace|
  {
    trace == [] || ((trace[0].Claim? ==> Guarded(s)) && GuardedRun(maximum, Step(maximum, s, trace[0]), trace[1..]))
  }

  /** A compare-and-set that matches finds nobody holding the row: a guarded schedule lies in the
      future of every read. */
  lemma NoHolderWhenClaimMatches(s: State, clock: int, e: Event)
    requires e.Claim? && Guarded(s) && ReadsWereDue(s, clock) && Timely(s, clock, e)
    requires e.actor in s.actors && s.actors[e.actor].Loaded? && ClaimMatches(s.row, s.actors[e.actor].copy)
    ensures forall a :: !Holds(s, a)
  {
    assert s.actors[e.actor].copy.nextAttemptAt.value <= clock < e.at;
  }

  lemma GuardedStepKeepsOneHolder(maximum: nat, s: State, clock: int, e: Event)
    requires AtMostOneHolder(s) && ReadsWereDue(s, clock) && Timely(s, clock, e)
    requires e.Claim? ==> Guarded(s)
    ensures AtMostOneHolder(Step(maximum, s, e)) && ReadsWereDue(Step(maximum, s, e), e.at)
  {
    var s' := Step(maximum, s, e);
    if e.Claim? && e.actor in s.actors && s.actors[e.actor].Loaded? && ClaimMatches(s.row, s.actors[e.actor].copy) {
      NoHolderWhenClaimMatches(s, clock, e);
      assert forall a :: Holds(s', a) ==> a == e.actor || Holds(s, a);
    } else {
      assert forall a :: Holds(s', a) ==> Holds(s, a);
    }
  }

  /** Main result on claims: in every run on time, with any number of drain workers and saves, two
      drain workers never hold the delivery at once as long as each claim is made while the row is
      guarded. */
  lemma {:induction false} GuardedRunsHaveOneHolder(maximum: nat, s: State, clock: int, trace: seq<Event>)
    requires AtMostOneHolder(s) && ReadsWereDue(s, clock)
    requires TimelyRun(maximum, s, clock, trace) && GuardedRun(maximum, s, trace)
    ensures AtMostOneHolder(Run(maximum, s, trace))
    ensures ReadsWereDue(Run(maximum, s, trace), if trace == [] then clock else trace[|trace| - 1].at)
    decreases |trace|
  {
    if trace != [] {
      GuardedStepKeepsOneHolder(maximum, s, clock, trace[0]);
      GuardedRunsHaveOneHolder(maximum, Step(maximum, s, trace[0]), trace[0].at, trace[1..]);
    }
  }

  // ----- exactly when a held delivery can be taken over -----

  /** Drain workers reading, claiming and starting their attempts; nothing else writes the row. */
  predicate OnlyDrains(trace: seq<Event>) {
    forall i :: 0 <= i < |trace| ==> trace[i].Load? || trace[i].Claim? || trace[i].Begin?
  }

  ghost predicate SomeReadMatches(s: State) {
    exists b :: b in s.actors && s.actors[b].Loaded? && ClaimMatches(s.row, s.actors[b].copy)
  }

  /** The row is retryable, and either a worker has already read its present schedule and one tick
      is left before `deadline`, or the row comes due two ticks before it. */
  ghost predicate Exposed(s: State, clock: int, deadline: int) {
    && Retryable(s.row) && s.row.nextAttemptAt.Some?
    && (|| (SomeReadMatches(s) && clock + 1 < deadline)
        || Max(clock + 1, s.row.nextAttemptAt.value) + 1 < deadline)
  }

  ghost predicate SoleHolder(s: State, holder: nat) {
    Holds(s, holder) && forall a :: Holds(s, a) ==> a == holder
  }

  ghost predicate Takeover(maximum: nat, s: State, clock: int, trace: seq<Event>) {
    OnlyDrains(trace) && TimelyRun(maximum, s, clock, trace) && !AtMostOneHolder(Run(maximum, s, trace))
  }

  lemma UnexposedStepStays(maximum: nat, s: State, clock: int, holder: nat, e: Event)
    requires SoleHolder(s, holder) && ReadsWereDue(s, clock) && Timely(s, clock, e) && OnlyDrains([e])
    requires !Exposed(s, clock, s.actors[holder].since + ATTEMPT_LEASE)
    ensures var s' := Step(maximum, s, e);
      && SoleHolder(s', holder) && s'.actors[holder].since == s.actors[holder].since
      && ReadsWereDue(s', e.at) && !Exposed(s', e.at, s'.actors[holder].since + ATTEMPT_LEASE)
  {
    var s', deadline := Step(maximum, s, e), s.actors[holder].since + ATTEMPT_LEASE;
    assert [e][0] == e && e.at < deadline;
    assert s'.row == s.row;
    if SomeReadMatches(s') {
      var b :| b in s'.actors && s'.actors[b].Loaded? && ClaimMatches(s'.row, s'.actors[b].copy);
      assert SomeReadMatches(s) || (e.Load? && b == e.actor && Due(s.row, e.at));
    }
    assert forall a :: Holds(s', a) <==> Holds(s, a);
  }

  lemma {:induction false} UnexposedIsNotTakenOver(maximum: nat, s: State, clock: int, holder: nat, trace: seq<Event>)
    requires SoleHolder(s, holder) && ReadsWereDue(s, clock) && OnlyDrains(trace)
    requires !Exposed(s, clock, s.actors[holder].since + ATTEMPT_LEASE)
    requires TimelyRun(maximum, s, clock, trace)
    ensures SoleHolder(Run(maximum, s, trace), holder)
    decreases |trace|
  {
    if trace != [] {
      assert OnlyDrains([trace[0]]);
      UnexposedStepStays(maximum, s, clock, holder, trace[0]);
      UnexposedIsNotTakenOver(maximum, Step(maximum, s, trace[0]), trace[0].at, holder, trace[1..]);
    }
  }

  lemma {:induction false} SomeUnusedActor(taken: set<nat>) returns (a: nat)
    ensures a !in taken
    ensures forall x :: x in taken ==> x < a
  {
    a := 0;
    if taken != {} {
      var x :| x in taken;
      var b := SomeUnusedActor(taken - {x});
      a := Max(b, x + 1);
      assert forall y :: y in taken ==> y == x || y in taken - {x};
    }
  }

  lemma ClaimTakesOver(maximum: nat, s: State, clock: int, holder: nat, thief: nat, at: int)
    requires SoleHolder(s, holder) && thief in s.actors && s.actors[thief].Loaded?
    requires ClaimMatches(s.row, s.actors[thief].copy)
    requires clock < at < s.actors[holder].since + ATTEMPT_LEASE
    ensures Takeover(maximum, s, clock, [Claim(thief, at)])
  {
    var s' := Step(maximum, s, Claim(thief, at));
    assert [Claim(thief, at)] == [Claim(thief, at)] + [];
    OneMore(maximum, s, clock, Claim(thief, at), []);
    assert Holds(s', holder) && Holds(s', thief) && holder != thief;
  }

  lemma ReadAndClaimTakeOver(maximum: nat, s: State, clock: int, holder: nat, thief: nat, at: int)
    requires SoleHolder(s, holder) && thief !in s.actors
    requires Due(s.row, at) && clock < at && at + 1 < s.actors[holder].since + ATTEMPT_LEASE
    ensures Takeover(maximum, s, clock, [Load(thief, at), Claim(thief, at + 1)])
  {
    var s' := Step(maximum, s, Load(thief, at));
    assert s'.actors == s.actors[thief := Loaded(s.row, s.version)];
    assert forall a :: Holds(s', a) <==> Holds(s, a);
    ClaimTakesOver(maximum, s', at, holder, thief, at + 1);
    var trace := [Load(thief, at), Claim(thief, at + 1)];
    assert trace == [Load(thief, at)] + [Claim(thief, at + 1)];
    OneMore(maximum, s, clock, Load(thief, at), [Claim(thief, at + 1)]);
  }

  /** Exactly when a held delivery can be taken over on time by drain workers alone: its row is
      exposed. A guarded row is not; a save during the attempt exposes it at once. */
  lemma TakeoverIff(maximum: nat, s: State, clock: int, holder: nat)
    requires SoleHolder(s, holder) && ReadsWereDue(s, clock)
    ensures (exists trace :: Takeover(maximum, s, clock, trace)) <==>
            Exposed(s, clock, s.actors[holder].since + ATTEMPT_LEASE)
  {
    var deadline := s.actors[holder].since + ATTEMPT_LEASE;
    if Exposed(s, clock, deadline) {
      if SomeReadMatches(s) && clock + 1 < deadline {
        var b :| b in s.actors && s.actors[b].Loaded? && ClaimMatches(s.row, s.actors[b].copy);
        ClaimTakesOver(maximum, s, clock, holder, b, clock + 1);
      } else {
        var thief := SomeUnusedActor(s.actors.Keys);
        ReadAndClaimTakeOver(maximum, s, clock, holder, thief, Max(clock + 1, s.row.nextAttemptAt.value));
      }
    } else {
      forall trace ensures !Takeover(maximum, s, clock, trace) {
        if OnlyDrains(trace) && TimelyRun(maximum, s, clock, trace) {
          UnexposedIsNotTakenOver(maximum, s, clock, holder, trace);
        }
      }
    }
  }

  lemma GuardedIsNotExposed(s: State, clock: int, holder: nat)
    requires SoleHolder(s, holder) && ReadsWereDue(s, clock) && Guarded(s)
    ensures !Exposed(s, clock, s.actors[holder].since + ATTEMPT_LEASE)
  {
    var deadline := s.actors[holder].since + ATTEMPT_LEASE;
    if SomeReadMatches(s) {
      var b :| b in s.actors && s.actors[b].Loaded? && ClaimMatches(s.row, s.actors[b].copy);
      assert s.actors[b].copy.nextAttemptAt.value <= clock;
    }
  }

  // ----- two ways to break it -----

  /** `Guarded` cannot be dropped: a save during a drain's attempt puts the row back on the
      queue, and a second drain worker claims it inside the first one's lease. */
  lemma SaveDuringAttemptBreaksExclusion(maximum: nat, url: string)
    ensures var start := State(Enqueued(url, 0), 0, map[]);
            var trace := [Load(1, 10), Claim(1, 20), Save(2, url, 30), Load(3, 40), Claim(3, 50)];
            TimelyRun(maximum, start, 0, trace) && !AtMostOneHolder(Run(maximum, start, trace))
  {
    var s0 := State(Enqueued(url, 0), 0, map[]);
    var s1 := Step(maximum, s0, Load(1, 10));
    var s2 := Step(maximum, s1, Claim(1, 20));
    var s3 := Step(maximum, s2, Save(2, url, 30));
    var s4 := Step(maximum, s3, Load(3, 40));
    var s5 := Step(maximum, s4, Claim(3, 50));
    assert Holds(s5, 1) && Holds(s5, 3);
    var t4 := [Claim(3, 50)];
    var t3 := [Load(3, 40)] + t4;
    var t2 := [Save(2, url, 30)] + t3;
    var t1 := [Claim(1, 20)] + t2;
    var t0 := [Load(1, 10)] + t1;
    OneMore(maximum, s4, 40, Claim(3, 50), []);
    OneMore(maximum, s3, 30, Load(3, 40), t4);
    OneMore(maximum, s2, 20, Save(2, url, 30), t3);
    OneMore(maximum, s1, 10, Claim(1, 20), t2);
    OneMore(maximum, s0, 0, Load(1, 10), t1);
    assert t4 == [Claim(3, 50)] + [];
    assert t0 == [Load(1, 10), Claim(1, 20), Save(2, url, 30), Load(3, 40), Claim(3, 50)];
  }

  const LATE := Raised(TimeoutError, "")

  /** The row a save's attempt of second 20 leaves behind when it times out. */
  function LateRow(url: string): Row {
    Row(url, TransientFailed, 1, Some(20), Some(320), None, "", TimedOut, "")
  }

  lemma LateOutcome(maximum: nat, url: string, stored: Row)
    requires maximum >= 2 && stored.url == url
    ensures Written(stored, AfterAttempt(maximum, Enqueued(url, 10), 20, LATE)) == LateRow(url)
  {
    assert Pow2(0) == 1;
  }

  /** Until the outcome arrives: saved at 10, attempted at 20, claimed by drain 1 at 40. */
  lemma ClaimDuringSavedAttempt(maximum: nat, url: string, rest: seq<Event>)
    ensures var start, row := State(Enqueued(url, 0), 0, map[]), Enqueued(url, 10);
      var held := State(row.(nextAttemptAt := Some(940)), 2,
                        map[2 := Trying(row, false, 10, 20), 1 := Ready(row, true, 40)]);
      var trace := [Save(2, url, 10)] + ([Begin(2, 20)] + ([Load(1, 30)] + ([Claim(1, 40)] + rest)));
      && Run(maximum, start, trace) == Run(maximum, held, rest)
      && (TimelyRun(maximum, start, 0, trace) <==> TimelyRun(maximum, held, 40, rest))
  {
    var s0, row := State(Enqueued(url, 0), 0, map[]), Enqueued(url, 10);
    var s1 := Step(maximum, s0, Save(2, url, 10));
    var s2 := Step(maximum, s1, Begin(2, 20));
    var s3 := Step(maximum, s2, Load(1, 30));
    assert s2 == State(row, 1, map[2 := Trying(row, false, 10, 20)]);
    assert s3 == State(row, 1, map[2 := Trying(row, false, 10, 20), 1 := Loaded(row, 1)]);
    assert Step(maximum, s3, Claim(1, 40)) ==
           State(row.(nextAttemptAt := Some(940)), 2, map[2 := Trying(row, false, 10, 20), 1 := Ready(row, true, 40)]);
    OneMore(maximum, s3, 30, Claim(1, 40), rest);
    OneMore(maximum, s2, 20, Load(1, 30), [Claim(1, 40)] + rest);
    OneMore(maximum, s1, 10, Begin(2, 20), [Load(1, 30)] + ([Claim(1, 40)] + rest));
    OneMore(maximum, s0, 0, Save(2, url, 10), [Begin(2, 20)] + ([Load(1, 30)] + ([Claim(1, 40)] + rest)));
  }

  /** The late outcome at 50, and drain 3 taking its retry up at 340. */
  lemma LateOutcomeIsTakenUp(maximum: nat, url: string)
    requires maximum >= 2
    ensures var row := Enqueued(url, 10);
      var held := State(row.(nextAttemptAt := Some(940)), 2,
                        map[2 := Trying(row, false, 10, 20), 1 := Ready(row, true, 40)]);
      var rest := [Record(2, LATE, 50)] + ([Load(3, 330)] + ([Claim(3, 340)] + []));
      TimelyRun(maximum, held, 40, rest) && !AtMostOneHolder(Run(maximum, held, rest))
  {
    var row := Enqueued(url, 10);
    var s4 := State(row.(nextAttemptAt := Some(940)), 2,
                    map[2 := Trying(row, false, 10, 20), 1 := Ready(row, true, 40)]);
    LateOutcome(maximum, url, s4.row);
    var s5 := State(LateRow(url), 3, map[1 := Ready(row, true, 40)]);
    assert Step(maximum, s4, Record(2, LATE, 50)) == s5 by {
      assert s4.actors - {2} == map[1 := Ready(row, true, 40)];
    }
    var s6 := State(LateRow(url), 3, map[1 := Ready(row, true, 40), 3 := Loaded(LateRow(url), 3)]);
    assert Step(maximum, s5, Load(3, 330)) == s6;
    var s7 := Step(maximum, s6, Claim(3, 340));
    assert Holds(s7, 1) && Holds(s7, 3);
    OneMore(maximum, s6, 330, Claim(3, 340), []);
    OneMore(maximum, s5, 50, Load(3, 330), [Claim(3, 340)] + []);
    OneMore(maximum, s4, 40, Record(2, LATE, 50), [Load(3, 330)] + ([Claim(3, 340)] + []));
  }

  /** A save's own attempt is enough: a drain claims while it waits, its late outcome schedules a
      retry inside the drain's lease, and another drain takes that up. */
  lemma UnclaimedAttemptBreaksExclusion(maximum: nat, url: string)
    requires maximum >= 2
    ensures var start := State(Enqueued(url, 0), 0, map[]);
            var trace := [Save(2, url, 10), Begin(2, 20), Load(1, 30), Claim(1, 40),
                          Record(2, LATE, 50), Load(3, 330), Claim(3, 340)];
            TimelyRun(maximum, start, 0, trace) && !AtMostOneHolder(Run(maximum, start, trace))
  {
    var rest := [Record(2, LATE, 50)] + ([Load(3, 330)] + ([Claim(3, 340)] + []));
    LateOutcomeIsTakenUp(maximum, url);
    ClaimDuringSavedAttempt(maximum, url, rest);
    assert [Save(2, url, 10)] + ([Begin(2, 20)] + ([Load(1, 30)] + ([Claim(1, 40)] + rest))) ==
           [Save(2, url, 10), Begin(2, 20), Load(1, 30), Claim(1, 40), Record(2, LATE, 50), Load(3, 330),
            Claim(3, 340)];
  }
}
