/** What the job table says of each run, field by field. */
module JobRecords {
  import opened Common
  import opened JobLease
  import opened RefreshCycle

  // ----- rows over whole runs -----

  ghost predicate FinishedBy(row: JobRun, pk: nat, trace: seq<Event>) {
    exists now :: Finish(pk, row.status, row.errorCode, row.counts, now) in trace && row.finishedAt == Some(now) &&
                  row.heartbeatAt == now
  }

  ghost predicate ScannedBy(name: string, now: int, trace: seq<Event>) {
    exists worker :: Scan(worker, name, now) in trace
  }

  /** A row names the scan that began it. While it runs it shows its last heartbeat, no error and no
      counts; afterwards it shows either that its lease expired or what its worker reported. */
  ghost predicate Accounted(row: JobRun, pk: nat, trace: seq<Event>) {
    && ScannedBy(row.name, row.startedAt, trace)
    && if row.status.Running? then
         && row.finishedAt.None? && row.errorCode == "" && row.counts == Counts(0, 0, 0, 0, 0, 0)
         && (row.heartbeatAt == row.startedAt || Heartbeat(pk, row.heartbeatAt) in trace)
       else
         || FinishedBy(row, pk, trace)
         || (&& row.status.Interrupted? && row.errorCode == "lease_expired" && row.counts == Counts(0, 0, 0, 0, 0, 0)
             && row.finishedAt.Some? && exists name :: ScannedBy(name, row.finishedAt.value, trace) && name == row.name)
  }

  ghost predicate AllAccounted(s: State, trace: seq<Event>) {
    && (forall pk :: pk in s.runs ==> Accounted(s.runs[pk], pk, trace))
    && (forall w :: w in s.acquiring ==> ScannedBy(s.acquiring[w].name, s.acquiring[w].now, trace))
  }

  lemma MoreEvents(row: JobRun, pk: nat, trace: seq<Event>, e: Event)
    requires Accounted(row, pk, trace)
    ensures Accounted(row, pk, trace + [e])
  {
    ScansStay(row.name, row.startedAt, trace, e);
    if FinishedBy(row, pk, trace) {
      var now :| Finish(pk, row.status, row.errorCode, row.counts, now) in trace && row.finishedAt == Some(now) &&
        row.heartbeatAt == now;
      assert Finish(pk, row.status, row.errorCode, row.counts, now) in trace + [e];
    } else if !row.status.Running? {
      ScansStay(row.name, row.finishedAt.value, trace, e);
    }
  }

  lemma ScansStay(name: string, now: int, trace: seq<Event>, e: Event)
    requires ScannedBy(name, now, trace)
    ensures ScannedBy(name, now, trace + [e])
  {
    var worker :| Scan(worker, name, now) in trace;
    assert Scan(worker, name, now) in trace + [e];
  }

  lemma StepIsAccounted(lease: nat, s: State, trace: seq<Event>, e: Event)
    requires Inv(lease, s) && AllAccounted(s, trace)
    ensures AllAccounted(Step(lease, s, e), trace + [e])
  {
    var s' := Step(lease, s, e);
    assert e in trace + [e];
    forall w | w in s'.acquiring ensures ScannedBy(s'.acquiring[w].name, s'.acquiring[w].now, trace + [e]) {
      if w in s.acquiring {
        ScansStay(s.acquiring[w].name, s.acquiring[w].now, trace, e);
      }
      if e.Scan? {
        assert Scan(e.worker, e.name, e.now) in trace + [e];
      }
    }
    forall pk | pk in s'.runs ensures Accounted(s'.runs[pk], pk, trace + [e]) {
      if pk in s.runs {
        MoreEvents(s.runs[pk], pk, trace, e);
      }
      if e.Insert? && e.worker in s.acquiring {
        ScansStay(s.acquiring[e.worker].name, s.acquiring[e.worker].now, trace, e);
      }
    }
  }

  /** Main result on records: in every interleaving from an empty table every row is accounted for. */
  lemma {:induction false} EveryRowIsAccounted(lease: nat, trace: seq<Event>)
    ensures var s := Run(lease, State(map[], 0, map[]), trace); Inv(lease, s) && AllAccounted(s, trace)
  {
    var start := State(map[], 0, map[]);
    if trace != [] {
      var rest, e := trace[..|trace| - 1], trace[|trace| - 1];
      assert trace == rest + [e];
      EveryRowIsAccounted(lease, rest);
      RunSnoc(lease, start, rest, e);
      StepKeepsInv(lease, Run(lease, start, rest), e);
      StepIsAccounted(lease, Run(lease, start, rest), rest, e);
    }
  }

  // ----- transactions as a whole -----

  /** Another run of the name, one this transaction does not hold, is running. */
  predicate Rivalled(s: State, w: nat)
    requires w in s.acquiring
  {
    exists pk :: pk in s.runs && s.runs[pk].name == s.acquiring[w].name && s.runs[pk].status.Running? &&
                 pk !in s.acquiring[w].expired
  }

  /** An insert is all or nothing: it is refused, and every reclaim of its transaction with it, exactly
      when a rival is running; otherwise the rows it held are interrupted, one new run is running, and
      the rest is as it was. Either way its locks are gone and nobody else's are. */
  lemma InsertIsAllOrNothing(lease: nat, s: State, w: nat)
    requires Inv(lease, s) && w in s.acquiring
    ensures var a, after := s.acquiring[w], Step(lease, s, Insert(w));
      && after.acquiring == s.acquiring - {w}
      && if Rivalled(s, w) then after.runs == s.runs
         else
           && after.runs.Keys == s.runs.Keys + {s.nextPk} && s.nextPk !in s.runs
           && (forall pk :: pk in s.runs && pk !in a.expired ==> after.runs[pk] == s.runs[pk])
           && (forall pk :: pk in a.expired ==>
                 after.runs[pk] == s.runs[pk].(status := Interrupted, finishedAt := Some(a.now),
                                               errorCode := "lease_expired"))
           && after.runs[s.nextPk] == JobRun(a.name, Running, a.now, a.now, None, "", Counts(0, 0, 0, 0, 0, 0))
  {
    var running := RunningRuns(s.runs, s.acquiring[w].name);
    if Rivalled(s, w) {
      var pk :| pk in s.runs && s.runs[pk].name == s.acquiring[w].name && s.runs[pk].status.Running? &&
        pk !in s.acquiring[w].expired;
      assert pk in running - s.acquiring[w].expired;
    } else {
      assert running - s.acquiring[w].expired == {};
    }
  }

  /** A worker that dies in the middle of its transaction leaves no trace: its locks are gone, and a row
      stays locked only if somebody else holds it. */
  lemma DeadWorkersLetGo(lease: nat, s: State, w: nat, pk: nat)
    ensures var after := Step(lease, s, Rollback(w));
      && after.runs == s.runs && after.nextPk == s.nextPk
      && (Locked(after, pk) <==> exists v :: v != w && v in s.acquiring && pk in s.acquiring[v].expired)
  {
    var after := Step(lease, s, Rollback(w));
    if v :| v in after.acquiring && pk in after.acquiring[v].expired {
      assert v != w && v in s.acquiring && pk in s.acquiring[v].expired;
    }
    if v :| v != w && v in s.acquiring && pk in s.acquiring[v].expired {
      assert v in after.acquiring && pk in after.acquiring[v].expired;
    }
  }

  // ----- the row a cycle leaves -----

  function Outcomes(evaluations: seq<Evaluation>): seq<Outcome> {
    seq(|evaluations|, i requires 0 <= i < |evaluations| => evaluations[i].outcome)
  }

  /** Each counter is the number of feeds that ended that way. */
  lemma {:induction false} CountersTellOutcomesApart(evaluations: seq<Evaluation>)
    ensures var c, all := Counted(evaluations), multiset(Outcomes(evaluations));
      && c.succeeded == all[FeedSucceeded] && c.failed == all[FeedFailed]
      && c.skipped == all[FeedSkipped] && c.superseded == all[FeedSuperseded]
      && c.checked == |evaluations| && c.attempted == |evaluations| - all[FeedSkipped]
  {
    if evaluations != [] {
      var rest, last := evaluations[..|evaluations| - 1], evaluations[|evaluations| - 1];
      CountersTellOutcomesApart(rest);
      assert Outcomes(evaluations) == Outcomes(rest) + [last.outcome];
    }
  }

  /** A cycle looks at every feed up to and including the first after which a stop is seen. */
  lemma {:induction false} WatchedUntilStop(evaluations: seq<Evaluation>)
    ensures StopSeen(evaluations) <==> exists i :: 0 <= i < |evaluations| && evaluations[i].stop
    ensures forall i :: 0 <= i < Watched(evaluations) - 1 ==> !evaluations[i].stop
    ensures !StopSeen(evaluations) ==> Watched(evaluations) == |evaluations|
  {
    if evaluations != [] && !evaluations[0].stop {
      var rest := evaluations[1..];
      WatchedUntilStop(rest);
      assert forall i :: 0 <= i < |rest| ==> rest[i] == evaluations[i + 1];
    }
  }

  /** The row a cycle that acquired its run at `started` leaves at `finished`: interrupted when a stop
      was seen, otherwise failed when the iteration raised, otherwise succeeded, with the feeds looked
      at counted by how they ended. */
  lemma CycleLeaves(name: string, started: int, evaluations: seq<Evaluation>, raises: bool, finished: int)
    ensures var (status, code) := Conclusion(StopSeen(evaluations), raises);
      var seen := evaluations[..Watched(evaluations)];
      var row, all := Finished(NewRun(name, started), status, code, Counted(seen), finished), multiset(Outcomes(seen));
      && row.name == name && row.startedAt == started && row.heartbeatAt == finished
      && row.finishedAt == Some(finished)
      && (if exists i :: 0 <= i < |evaluations| && evaluations[i].stop
          then row.status.Interrupted? && row.errorCode == "stopped"
          else if raises then row.status.Failed? && row.errorCode == "unexpected_error"
          else row.status.Succeeded? && row.errorCode == "")
      && row.counts.succeeded == all[FeedSucceeded] && row.counts.failed == all[FeedFailed]
      && row.counts.skipped == all[FeedSkipped] && row.counts.superseded == all[FeedSuperseded]
      && row.counts.checked == |seen| && row.counts.attempted == |seen| - all[FeedSkipped]
  {
    WatchedUntilStop(evaluations);
    CountersTellOutcomesApart(evaluations[..Watched(evaluations)]);
  }
}
