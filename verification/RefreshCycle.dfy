/** The refresh worker's cycle as values: what it counts, when it stops, and when it sends
    heartbeats. */
module RefreshCycle {
  import opened Common
  import opened JobLease

  datatype Outcome = FeedSucceeded | FeedFailed | FeedSkipped | FeedSuperseded

  /** One feed's result, with the monotonic and wall clocks read after it and whether a stop
      had been asked for by then. */
  datatype Evaluation = Evaluation(outcome: Outcome, elapsed: int, now: int, stop: bool)

  function Conclusion(interrupted: bool, raised: bool): (Status, string) {
    if interrupted then (Interrupted, "stopped")
    else if raised then (Failed, "unexpected_error")
    else (Succeeded, "")
  }

  /** When the last heartbeat went out, by the monotonic clock, and the time it carried. */
  datatype Beating = Beating(last: int, sent: Option<int>)

  function Beats(evaluations: seq<Evaluation>, beatEvery: nat): Beating {
    if evaluations == [] then Beating(0, None)
    else
      var before, e := Beats(evaluations[..|evaluations| - 1], beatEvery), evaluations[|evaluations| - 1];
      if e.elapsed - before.last >= beatEvery then Beating(e.elapsed, Some(e.now)) else before
  }

  function Beaten(r: JobRun, beat: Option<int>): JobRun {
    if beat.None? then r else r.(heartbeatAt := beat.value)
  }

  /** The heartbeats themselves. */
  function HeartbeatsOf(pk: nat, evaluations: seq<Evaluation>, beatEvery: nat): seq<Event> {
    if evaluations == [] then []
    else
      var rest, e := evaluations[..|evaluations| - 1], evaluations[|evaluations| - 1];
      HeartbeatsOf(pk, rest, beatEvery) +
      if e.elapsed - Beats(rest, beatEvery).last >= beatEvery then [Heartbeat(pk, e.now)] else []
  }

  function Count(c: Counts, o: Outcome): Counts {
    var attempted := if o.FeedSkipped? then c.attempted else c.attempted + 1;
    var d := c.(checked := c.checked + 1, attempted := attempted);
    match o
    case FeedSucceeded => d.(succeeded := d.succeeded + 1)
    case FeedFailed => d.(failed := d.failed + 1)
    case FeedSkipped => d.(skipped := d.skipped + 1)
    case FeedSuperseded => d.(superseded := d.superseded + 1)
  }

  function Counted(evaluations: seq<Evaluation>): Counts {
    if evaluations == [] then NOTHING_COUNTED
    else Count(Counted(evaluations[..|evaluations| - 1]), evaluations[|evaluations| - 1].outcome)
  }

  /** How many evaluations a cycle looks at: up to and including the first after which a stop
      is seen. */
  function Watched(evaluations: seq<Evaluation>): (n: nat)
    ensures n <= |evaluations|
  {
    if evaluations == [] then 0 else if evaluations[0].stop then 1 else 1 + Watched(evaluations[1..])
  }

  predicate StopSeen(evaluations: seq<Evaluation>) {
    Watched(evaluations) > 0 && evaluations[Watched(evaluations) - 1].stop
  }

  lemma {:induction false} WatchedStops(evaluations: seq<Evaluation>, n: nat)
    requires n <= |evaluations|
    requires forall j :: 0 <= j < n - 1 ==> !evaluations[j].stop
    requires n == |evaluations| || (n > 0 && evaluations[n - 1].stop)
    ensures Watched(evaluations) == n
  {
    if evaluations != [] && !evaluations[0].stop {
      assert n > 0;
      WatchedStops(evaluations[1..], n - 1);
    }
  }

  /** The stored counts always add up: every checked feed ended one way, and exactly the
      skipped ones were not attempted. */
  lemma {:induction false} CountsAddUp(evaluations: seq<Evaluation>)
    ensures var c := Counted(evaluations);
      && c.checked == |evaluations| == c.succeeded + c.failed + c.skipped + c.superseded
      && c.attempted == c.checked - c.skipped
  {
    if evaluations != [] {
      CountsAddUp(evaluations[..|evaluations| - 1]);
    }
  }

  // ----- heartbeats against the lease -----

  /** The cycle's clocks: one evaluation takes at most `slowest`, and the wall clock moves with the
      monotonic one. */
  ghost predicate Timed(evaluations: seq<Evaluation>, started: int, slowest: nat) {
    && (forall i :: 0 <= i < |evaluations| ==> evaluations[i].now == started + evaluations[i].elapsed)
    && (evaluations != [] ==> evaluations[0].elapsed <= slowest)
    && (forall i, j :: 0 <= i && j == i + 1 && j < |evaluations| ==>
        evaluations[j].elapsed <= evaluations[i].elapsed + slowest)
  }

  function LastElapsed(evaluations: seq<Evaluation>): int {
    if evaluations == [] then 0 else evaluations[|evaluations| - 1].elapsed
  }

  /** After every evaluation the last heartbeat is younger than the interval. */
  lemma HeartbeatsKeepUp(evaluations: seq<Evaluation>, beatEvery: nat)
    requires beatEvery > 0
    ensures LastElapsed(evaluations) - Beats(evaluations, beatEvery).last < beatEvery
  {
  }

  /** Heartbeats of the run alone, each less than the lease after the one before. */
  predicate CloseTogether(lease: nat, beat: int, hs: seq<Event>, pk: nat)
    decreases |hs|
  {
    hs == [] ||
    (hs[0].Heartbeat? && hs[0].run == pk && hs[0].now - beat < lease && CloseTogether(lease, hs[0].now, hs[1..], pk))
  }

  function LastBeat(beat: int, hs: seq<Event>): int
    requires forall i :: 0 <= i < |hs| ==> hs[i].Heartbeat?
  {
    if hs == [] then beat else hs[|hs| - 1].now
  }

  lemma {:induction false} OneBeatMore(lease: nat, beat: int, hs: seq<Event>, pk: nat, now: int)
    requires CloseTogether(lease, beat, hs, pk) && forall i :: 0 <= i < |hs| ==> hs[i].Heartbeat?
    requires now - LastBeat(beat, hs) < lease
    ensures CloseTogether(lease, beat, hs + [Heartbeat(pk, now)], pk)
    decreases |hs|
  {
    var more := hs + [Heartbeat(pk, now)];
    if hs == [] {
      assert more[1..] == [];
    } else {
      assert more[1..] == hs[1..] + [Heartbeat(pk, now)];
      OneBeatMore(lease, hs[0].now, hs[1..], pk, now);
    }
  }

  /** The worker's heartbeats are closer together than the lease whenever the interval and the
      slowest feed fit into it, and carry the times the monotonic schedule says. */
  lemma {:induction false} HeartbeatsAreCloseTogether(lease: nat, pk: nat, evaluations: seq<Evaluation>,
                                                      beatEvery: nat, started: int, slowest: nat)
    requires beatEvery > 0 && beatEvery + slowest <= lease && Timed(evaluations, started, slowest)
    ensures var hs := HeartbeatsOf(pk, evaluations, beatEvery);
      && CloseTogether(lease, started, hs, pk)
      && (forall i :: 0 <= i < |hs| ==> hs[i].Heartbeat?)
      && LastBeat(started, hs) == started + Beats(evaluations, beatEvery).last
  {
    if evaluations != [] {
      var rest, e := evaluations[..|evaluations| - 1], evaluations[|evaluations| - 1];
      HeartbeatsAreCloseTogether(lease, pk, rest, beatEvery, started, slowest);
      HeartbeatsKeepUp(rest, beatEvery);
      assert e.elapsed <= LastElapsed(rest) + slowest;
      var hs := HeartbeatsOf(pk, rest, beatEvery);
      assert hs + [] == hs;
      if e.elapsed - Beats(rest, beatEvery).last >= beatEvery {
        OneBeatMore(lease, started, HeartbeatsOf(pk, rest, beatEvery), pk, e.now);
      }
    }
  }

  /** The run's own events in a trace of everybody's. */
  function OwnEvents(trace: seq<Event>, pk: nat): seq<Event> {
    if trace == [] then []
    else (if OwnEvent(trace[0], pk) then [trace[0]] else []) + OwnEvents(trace[1..], pk)
  }

  lemma {:induction false} SpacingIsAboutOwnEvents(lease: nat, beat: int, trace: seq<Event>, pk: nat, hs: seq<Event>,
                                                   last: Event, end: int)
    requires OwnEvents(trace, pk) == hs + [last] && last.Finish? && last.run == pk
    requires CloseTogether(lease, beat, hs, pk) && forall i :: 0 <= i < |hs| ==> hs[i].Heartbeat?
    requires last.now - LastBeat(beat, hs) < lease
    ensures Spaced(lease, beat, trace, pk, end)
    decreases |trace|
  {
    var rest := OwnEvents(trace[1..], pk);
    if !OwnEvent(trace[0], pk) {
      assert OwnEvents(trace, pk) == rest;
      SpacingIsAboutOwnEvents(lease, beat, trace[1..], pk, hs, last, end);
    } else {
      assert (hs + [last])[0] == trace[0] && (hs + [last])[1..] == rest;
      if hs != [] {
        assert rest == hs[1..] + [last];
        SpacingIsAboutOwnEvents(lease, hs[0].now, trace[1..], pk, hs[1..], last, end);
      }
    }
  }

  /** Main result on the worker: a cycle whose heartbeat interval and slowest feed together fit into
      the lease is never reclaimed, however its heartbeats and its finish interleave with the scans,
      inserts, heartbeats and finishes of any number of other workers. */
  lemma CycleIsNeverReclaimed(lease: nat, s: State, trace: seq<Event>, pk: nat, evaluations: seq<Evaluation>,
                              beatEvery: nat, slowest: nat, started: int, finish: Event, end: int)
    requires Inv(lease, s) && pk in s.runs && s.runs[pk].status.Running? && s.runs[pk].heartbeatAt == started
    requires !Locked(s, pk) && OnlyFinishes(trace) && Ordered(started, trace, end)
    requires finish.Finish? && finish.run == pk
    requires OwnEvents(trace, pk) == HeartbeatsOf(pk, evaluations, beatEvery) + [finish]
    requires Timed(evaluations, started, slowest) && finish.now <= started + LastElapsed(evaluations) + slowest
    requires beatEvery > 0 && beatEvery + slowest <= lease
    ensures NeverReclaimed(lease, s, trace, pk)
  {
    var hs := HeartbeatsOf(pk, evaluations, beatEvery);
    HeartbeatsAreCloseTogether(lease, pk, evaluations, beatEvery, started, slowest);
    HeartbeatsKeepUp(evaluations, beatEvery);
    SpacingIsAboutOwnEvents(lease, started, trace, pk, hs, finish, end);
    SpacedHeartbeatsKeepTheRun(lease, s, trace, pk, started, end);
  }
}
