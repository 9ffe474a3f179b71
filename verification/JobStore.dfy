/** The job table itself, updated in place, and the refresh worker's cycle that drives it. */
module JobStore {
  import opened Common
  import opened JobLease
  import opened RefreshCycle

  class JobTable {
    var runs: Runs
    var nextPk: nat
    const lease: nat

    /** The table seen between transactions: nothing is locked. */
    ghost function State(): JobLease.State
      reads this
    {
      JobLease.State(runs, nextPk, map[])
    }

    ghost predicate Valid()
      reads this
    {
      Inv(lease, State())
    }

    constructor (lease: nat)
      ensures Valid() && this.lease == lease && runs == map[] && nextPk == 0
    {
      this.lease, runs, nextPk := lease, map[], 0;
    }

    /** The locked rows one by one: given up when expired, everything rolled back when a live
        owner is met. */
    method ReclaimExpired(name: string, now: int) returns (work: Option<Runs>)
      ensures work.None? <==> exists pk :: pk in RunningRuns(runs, name) && Live(runs[pk], lease, now)
      ensures work.Some? ==> work.value == ReclaimAll(runs, RunningRuns(runs, name), now)
    {
      var running := RunningRuns(runs, name);
      var pending, rows := running, runs;
      while pending != {}
        invariant pending <= running
        invariant rows == ReclaimAll(runs, running - pending, now)
        invariant forall pk :: pk in running - pending ==> !Live(runs[pk], lease, now)
        decreases pending
      {
        var pk :| pk in pending;
        if runs[pk].heartbeatAt > now - lease {
          return None;
        }
        rows := rows[pk := Reclaimed(rows[pk], now)];
        pending := pending - {pk};
      }
      assert running - pending == running;
      work := Some(rows);
    }

    /** One transaction: the locking scan with its reclaims, then the insert. It is the scan and
        the insert of the state machine, back to back. */
    method AcquireJob(name: string, now: int) returns (run: Option<nat>)
      requires Valid()
      modifies this
      ensures Valid()
      ensures State() == Step(lease, Step(lease, old(State()), Scan(0, name, now)), Insert(0))
      ensures run.None? <==> exists pk :: pk in RunningRuns(old(runs), name) && Live(old(runs)[pk], lease, now)
      ensures run.None? ==> runs == old(runs)
      ensures run.Some? ==> run.value == old(nextPk)
      ensures run.Some? ==>
                runs == ReclaimAll(old(runs), RunningRuns(old(runs), name), now)[run.value := NewRun(name, now)]
    {
      ghost var scanned := Step(lease, State(), Scan(0, name, now));
      ScanKeepsInv(lease, State(), Scan(0, name, now));
      InsertKeepsInv(lease, scanned, Insert(0));
      var work := ReclaimExpired(name, now);
      if work.None? {
        return None;
      }
      assert scanned.acquiring == map[0 := Acquisition(name, now, RunningRuns(runs, name))];
      assert scanned.acquiring - {0} == map[];
      run := Some(nextPk);
      runs, nextPk := work.value[nextPk := NewRun(name, now)], nextPk + 1;
    }

    method Heartbeat(run: nat, now: int)
      requires Valid()
      modifies this
      ensures Valid() && State() == Step(lease, old(State()), JobLease.Heartbeat(run, now))
    {
      OtherStepsKeepInv(lease, State(), JobLease.Heartbeat(run, now));
      if run in runs && runs[run].status.Running? {
        runs := runs[run := runs[run].(heartbeatAt := now)];
      }
    }

    method FinishJob(run: nat, status: Status, errorCode: string, counts: Counts, now: int)
      requires Valid() && !status.Running?
      modifies this
      ensures Valid() && State() == Step(lease, old(State()), Finish(run, status, errorCode, counts, now))
      ensures run in old(runs) ==> runs == old(runs)[run := Finished(old(runs)[run], status, errorCode, counts, now)]
    {
      OtherStepsKeepInv(lease, State(), Finish(run, status, errorCode, counts, now));
      if run in runs {
        runs := runs[run := Finished(runs[run], status, errorCode, counts, now)];
      }
    }

    /** The cycle's counting loop: heartbeats when they are due, and stops when asked to. */
    method Watch(pk: nat, evaluations: seq<Evaluation>, beatEvery: nat) returns (counts: Counts, interrupted: bool)
      requires Valid() && pk in runs && runs[pk].status.Running?
      modifies this
      ensures Valid() && nextPk == old(nextPk)
      ensures var beat := Beats(evaluations[..Watched(evaluations)], beatEvery).sent;
        runs == old(runs)[pk := Beaten(old(runs)[pk], beat)]
      ensures State() == Run(lease, old(State()), HeartbeatsOf(pk, evaluations[..Watched(evaluations)], beatEvery))
      ensures counts == Counted(evaluations[..Watched(evaluations)])
      ensures interrupted == StopSeen(evaluations)
    {
      var lastBeat, i := 0, 0;
      counts, interrupted := NOTHING_COUNTED, false;
      while i < |evaluations| && !interrupted
        invariant 0 <= i <= |evaluations|
        invariant Valid() && nextPk == old(nextPk)
        invariant lastBeat == Beats(evaluations[..i], beatEvery).last
        invariant runs == old(runs)[pk := Beaten(old(runs)[pk], Beats(evaluations[..i], beatEvery).sent)]
        invariant State() == Run(lease, old(State()), HeartbeatsOf(pk, evaluations[..i], beatEvery))
        invariant counts == Counted(evaluations[..i])
        invariant forall j :: 0 <= j < i - 1 ==> !evaluations[j].stop
        invariant interrupted == (i > 0 && evaluations[i - 1].stop)
      {
        var result := evaluations[i];
        assert evaluations[..i + 1][..i] == evaluations[..i];
        ghost var sent := HeartbeatsOf(pk, evaluations[..i], beatEvery);
        assert sent + [] == sent;
        counts := Count(counts, result.outcome);
        if result.elapsed - lastBeat >= beatEvery {
          RunSnoc(lease, old(State()), sent, JobLease.Heartbeat(pk, result.now));
          Heartbeat(pk, result.now);
          lastBeat := result.elapsed;
        }
        interrupted := result.stop;
        i := i + 1;
      }
      WatchedStops(evaluations, i);
    }

    /** The cycle once its run is acquired. */
    method WatchAndFinish(pk: nat, evaluations: seq<Evaluation>, raises: bool, beatEvery: nat, finished: int)
      requires Valid() && pk in runs && runs[pk].status.Running?
      modifies this
      ensures Valid()
      ensures var (status, code) := Conclusion(StopSeen(evaluations), raises);
        var counts := Counted(evaluations[..Watched(evaluations)]);
        runs == old(runs)[pk := Finished(old(runs)[pk], status, code, counts, finished)]
    {
      ghost var acquired, beat := runs, Beats(evaluations[..Watched(evaluations)], beatEvery).sent;
      var counts, interrupted := Watch(pk, evaluations, beatEvery);
      var (status, code) := Conclusion(interrupted, raises);
      FinishJob(pk, status, code, counts, finished);
      LastWriteWins(acquired, pk, beat, status, code, counts, finished);
    }

    /** One refresh cycle. `evaluations` are the feeds' results in order, `raises` whether the
        iteration breaks with an exception once they are used up. */
    method Cycle(name: string, started: int, evaluations: seq<Evaluation>, raises: bool, beatEvery: nat, finished: int)
      returns (run: Option<nat>)
      requires Valid()
      modifies this
      ensures Valid()
      ensures run.None? ==> runs == old(runs)
      ensures run.Some? ==> run.value == old(nextPk)
      ensures run.Some? ==>
        var (status, code) := Conclusion(StopSeen(evaluations), raises);
        var counts := Counted(evaluations[..Watched(evaluations)]);
        runs == ReclaimAll(old(runs), RunningRuns(old(runs), name), started)
                  [run.value := Finished(NewRun(name, started), status, code, counts, finished)]
    {
      run := AcquireJob(name, started);
      if run.Some? {
        WatchAndFinish(run.value, evaluations, raises, beatEvery, finished);
      }
    }
  }

  /** Finishing overwrites whatever the heartbeats wrote. */
  lemma LastWriteWins(acquired: Runs, pk: nat, beat: Option<int>, status: Status, code: string, counts: Counts,
                      now: int)
    requires pk in acquired
    ensures var beaten := Beaten(acquired[pk], beat);
      acquired[pk := beaten][pk := Finished(beaten, status, code, counts, now)] ==
      acquired[pk := Finished(acquired[pk], status, code, counts, now)]
  {
  }

  /** The newest unbroken run of failed cycles, looking at the last fifty terminal ones. */
  method ConsecutiveFailures(newestFirst: seq<Status>) returns (failures: nat)
    requires Running !in newestFirst
    ensures failures <= |newestFirst| && failures <= 50
    ensures forall i :: 0 <= i < failures ==> newestFirst[i].Failed?
    ensures failures == |newestFirst| || failures == 50 || !newestFirst[failures].Failed?
  {
    var looked := if |newestFirst| > 50 then newestFirst[..50] else newestFirst;
    failures := 0;
    while failures < |looked| && looked[failures].Failed?
      invariant failures <= |looked|
      invariant forall i :: 0 <= i < failures ==> looked[i].Failed?
    {
      failures := failures + 1;
    }
  }
}
