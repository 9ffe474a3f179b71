/** Background-job ownership: acquiring under a lease, heartbeats and finishing, in every
    interleaving of their steps. */
module JobLease {
  import opened Common

  datatype Status = Running | Succeeded | Failed | Interrupted

  /** What one refresh cycle counted. */
  datatype Counts = Counts(checked: nat, attempted: nat, succeeded: nat, failed: nat, skipped: nat, superseded: nat)

  const NOTHING_COUNTED := Counts(0, 0, 0, 0, 0, 0)

  datatype JobRun = JobRun(
    name: string, status: Status, startedAt: int, heartbeatAt: int,
    finishedAt: Option<int>, errorCode: string, counts: Counts)

  const LEASE_EXPIRED := "lease_expired"

  type Runs = map<nat, JobRun>

  /** A transaction between its locking scan and its insert, and the rows it holds locked. */
  datatype Acquisition = Acquisition(name: string, now: int, expired: set<nat>)

  datatype State = State(runs: Runs, nextPk: nat, acquiring: map<nat, Acquisition>)

  datatype Event =
    | Scan(worker: nat, name: string, now: int)
    | Insert(worker: nat)
    | Rollback(worker: nat)
    | Heartbeat(run: nat, now: int)
    | Finish(run: nat, status: Status, errorCode: string, counts: Counts, now: int)

  function RunningRuns(runs: Runs, name: string): set<nat> {
    set pk | pk in runs && runs[pk].name == name && runs[pk].status.Running?
  }

  predicate Live(r: JobRun, lease: nat, now: int) { r.heartbeatAt > now - lease }

  /** Some transaction holds this row's lock. */
  predicate Locked(s: State, pk: nat) {
    exists w :: w in s.acquiring && pk in s.acquiring[w].expired
  }

  function Reclaimed(r: JobRun, now: int): JobRun {
    r.(status := Interrupted, finishedAt := Some(now), errorCode := LEASE_EXPIRED)
  }

  function ReclaimAll(runs: Runs, expired: set<nat>, now: int): Runs {
    map pk | pk in runs :: if pk in expired then Reclaimed(runs[pk], now) else runs[pk]
  }

  function NewRun(name: string, now: int): JobRun { JobRun(name, Running, now, now, None, "", NOTHING_COUNTED) }

  function Finished(r: JobRun, status: Status, errorCode: string, counts: Counts, now: int): JobRun {
    r.(status := status, finishedAt := Some(now), heartbeatAt := now, errorCode := errorCode, counts := counts)
  }

  /** Waiting on a lock is the event not happening yet. An insert meeting another running row
      of the name is the IntegrityError, which rolls its transaction back; `Rollback` is a worker
      dying in the middle of its transaction. */
  function Step(lease: nat, s: State, e: Event): State {
    match e
    case Scan(w, name, now) =>
      var running := RunningRuns(s.runs, name);
      if w in s.acquiring || (exists pk :: pk in running && Locked(s, pk)) then s
      else if exists pk :: pk in running && Live(s.runs[pk], lease, now) then s
      else s.(acquiring := s.acquiring[w := Acquisition(name, now, running)])
    case Insert(w) =>
      if w !in s.acquiring then s
      else
        var a := s.acquiring[w];
        if RunningRuns(s.runs, a.name) - a.expired != {} then s.(acquiring := s.acquiring - {w})
        else State(ReclaimAll(s.runs, a.expired, a.now)[s.nextPk := NewRun(a.name, a.now)], s.nextPk + 1,
                   s.acquiring - {w})
    case Rollback(w) => s.(acquiring := s.acquiring - {w})
    case Heartbeat(pk, now) =>
      if pk !in s.runs || Locked(s, pk) || !s.runs[pk].status.Running? then s
      else s.(runs := s.runs[pk := s.runs[pk].(heartbeatAt := now)])
    case Finish(pk, status, errorCode, counts, now) =>
      if pk !in s.runs || Locked(s, pk) || status.Running? then s
      else s.(runs := s.runs[pk := Finished(s.runs[pk], status, errorCode, counts, now)])
  }

  function Run(lease: nat, s: State, trace: seq<Event>): State
    decreases |trace|
  {
    if trace == [] then s else Run(lease, Step(lease, s, trace[0]), trace[1..])
  }

  lemma {:induction false} RunSnoc(lease: nat, s: State, trace: seq<Event>, e: Event)
    ensures Run(lease, s, trace + [e]) == Step(lease, Run(lease, s, trace), e)
    decreases |trace|
  {
    if trace == [] {
      assert [] + [e] == [e] && [e][1..] == [];
    } else {
      assert (trace + [e])[1..] == trace[1..] + [e];
      RunSnoc(lease, Step(lease, s, trace[0]), trace[1..], e);
    }
  }

  /** The partial unique constraint on running rows. */
  ghost predicate AtMostOneRunning(runs: Runs) {
    forall p, q ::
      p in runs && q in runs && runs[p].status.Running? && runs[q].status.Running? && runs[p].name == runs[q].name ==>
        p == q
  }

  ghost predicate Inv(lease: nat, s: State) {
    && AtMostOneRunning(s.runs)
    && (forall pk :: pk in s.runs ==> pk < s.nextPk)
    && (forall w, pk :: w in s.acquiring && pk in s.acquiring[w].expired ==>
          && pk in s.runs && s.runs[pk].status.Running? && s.runs[pk].name == s.acquiring[w].name
          && !Live(s.runs[pk], lease, s.acquiring[w].now))
    && (forall v, w, pk ::
          v in s.acquiring && w in s.acquiring && pk in s.acquiring[v].expired && pk in s.acquiring[w].expired ==>
            v == w)
  }

  lemma ScanKeepsInv(lease: nat, s: State, e: Event)
    requires Inv(lease, s) && e.Scan?
    ensures Inv(lease, Step(lease, s, e))
  {
    var running := RunningRuns(s.runs, e.name);
    forall w, pk | w in s.acquiring && pk in s.acquiring[w].expired ensures pk in running ==> Locked(s, pk) {
    }
  }

  lemma InsertKeepsInv(lease: nat, s: State, e: Event)
    requires Inv(lease, s) && e.Insert?
    ensures Inv(lease, Step(lease, s, e))
  {
    var s' := Step(lease, s, e);
    if e.worker in s.acquiring && s'.runs != s.runs {
      var a := s.acquiring[e.worker];
      forall pk | pk in s.runs && s'.runs[pk].status.Running?
        ensures s'.runs[pk].name != a.name && s'.runs[pk] == s.runs[pk]
      {
        assert pk !in RunningRuns(s.runs, a.name) - a.expired;
        assert pk in a.expired || pk !in RunningRuns(s.runs, a.name);
      }
      forall w, pk | w in s'.acquiring && pk in s'.acquiring[w].expired
        ensures pk in s'.runs && s'.runs[pk] == s.runs[pk]
      {
        assert w in s.acquiring && pk !in a.expired;
      }
    }
  }

  lemma OtherStepsKeepInv(lease: nat, s: State, e: Event)
    requires Inv(lease, s) && (e.Heartbeat? || e.Finish? || e.Rollback?)
    ensures Inv(lease, Step(lease, s, e))
  {
    forall w, pk | w in s.acquiring && pk in s.acquiring[w].expired ensures Locked(s, pk) {
    }
  }

  /** A run that left running stays out of it, whatever a worker reclaimed long ago still
      writes; and nothing else about a run's identity ever changes. */
  lemma StepNeverResumes(lease: nat, s: State, e: Event, pk: nat)
    requires Inv(lease, s) && pk in s.runs
    ensures pk in Step(lease, s, e).runs
    ensures Step(lease, s, e).runs[pk].name == s.runs[pk].name
    ensures Step(lease, s, e).runs[pk].startedAt == s.runs[pk].startedAt
    ensures !s.runs[pk].status.Running? ==> !Step(lease, s, e).runs[pk].status.Running?
  {
  }

  lemma StepKeepsInv(lease: nat, s: State, e: Event)
    requires Inv(lease, s)
    ensures Inv(lease, Step(lease, s, e))
  {
    match e
    case Scan(_, _, _) => ScanKeepsInv(lease, s, e);
    case Insert(_) => InsertKeepsInv(lease, s, e);
    case _ => OtherStepsKeepInv(lease, s, e);
  }

  /** Main result on ownership: in every interleaving of acquisitions, heartbeats and finishes
      at most one run per name is running, and a run that left running never returns. */
  lemma {:induction false} OneOwnerAndNoReturn(lease: nat, s: State, trace: seq<Event>)
    requires Inv(lease, s)
    ensures Inv(lease, Run(lease, s, trace)) && AtMostOneRunning(Run(lease, s, trace).runs)
    ensures forall pk :: pk in s.runs ==> pk in Run(lease, s, trace).runs
    ensures forall pk :: pk in s.runs && !s.runs[pk].status.Running? ==> !Run(lease, s, trace).runs[pk].status.Running?
    decreases |trace|
  {
    if trace != [] {
      StepKeepsInv(lease, s, trace[0]);
      forall pk | pk in s.runs
        ensures pk in Step(lease, s, trace[0]).runs
        ensures !s.runs[pk].status.Running? ==> !Step(lease, s, trace[0]).runs[pk].status.Running?
      {
        StepNeverResumes(lease, s, trace[0], pk);
      }
      OneOwnerAndNoReturn(lease, Step(lease, s, trace[0]), trace[1..]);
    }
  }

  // ----- who may be reclaimed -----

  /** The clock reading an event carries, if any. */
  function TimeOf(e: Event): Option<int> {
    match e
    case Scan(_, _, now) => Some(now)
    case Heartbeat(_, now) => Some(now)
    case Finish(_, _, _, _, now) => Some(now)
    case _ => None
  }

  /** Times up to `end`: writes carry non-decreasing readings, and a scan, which reads the clock
      before it runs, may carry an older one but none from the future. */
  predicate Ordered(since: int, trace: seq<Event>, end: int)
    decreases |trace|
  {
    if trace == [] then since <= end
    else
      var t := TimeOf(trace[0]);
      if t.None? then Ordered(since, trace[1..], end)
      else (trace[0].Scan? || since <= t.value) && Ordered(Max(since, t.value), trace[1..], end)
  }

  predicate OwnEvent(e: Event, pk: nat) { (e.Heartbeat? || e.Finish?) && e.run == pk }

  /** From a heartbeat at `beat`, each later one of the run, and its finish, follows the one before
      by less than the lease; so does `end` if the run is still unfinished then. */
  predicate Spaced(lease: nat, beat: int, trace: seq<Event>, pk: nat, end: int)
    decreases |trace|
  {
    if trace == [] then end - beat < lease
    else if !OwnEvent(trace[0], pk) then Spaced(lease, beat, trace[1..], pk, end)
    else TimeOf(trace[0]).value - beat < lease && (trace[0].Finish? || Spaced(lease, trace[0].now, trace[1..], pk, end))
  }

  /** What the run's own worker makes of its row. */
  function OwnStep(r: JobRun, e: Event, pk: nat): JobRun {
    if !OwnEvent(e, pk) then r
    else match e
      case Heartbeat(_, now) => if r.status.Running? then r.(heartbeatAt := now) else r
      case Finish(_, status, errorCode, counts, now) =>
        if status.Running? then r else Finished(r, status, errorCode, counts, now)
      case _ => r
  }

  /** At every moment of the run nobody has locked the row for reclaiming, and it is what its own
      worker made of it. */
  ghost predicate NeverReclaimed(lease: nat, s: State, trace: seq<Event>, pk: nat)
    decreases |trace|
  {
    && pk in s.runs && !Locked(s, pk)
    && (trace != [] ==>
          var s' := Step(lease, s, trace[0]);
          pk in s'.runs && s'.runs[pk] == OwnStep(s.runs[pk], trace[0], pk) &&
              NeverReclaimed(lease, s', trace[1..], pk))
  }

  /** Nothing in an ordered, spaced remainder is later than a lease after the last heartbeat. */
  lemma {:induction false} BeatIsFresh(lease: nat, beat: int, since: int, trace: seq<Event>, pk: nat, end: int)
    requires Ordered(since, trace, end) && Spaced(lease, beat, trace, pk, end)
    ensures since - beat < lease
    decreases |trace|
  {
    if trace != [] {
      if !OwnEvent(trace[0], pk) {
        var t := TimeOf(trace[0]);
        BeatIsFresh(lease, beat, if t.None? then since else Max(since, t.value), trace[1..], pk, end);
      }
    }
  }

  /** One event leaves a row alone that is unlocked, and running only with a live heartbeat. */
  lemma OwnRowStep(lease: nat, s: State, e: Event, pk: nat)
    requires Inv(lease, s) && pk in s.runs && !Locked(s, pk)
    requires e.Scan? && e.name == s.runs[pk].name && s.runs[pk].status.Running? ==> Live(s.runs[pk], lease, e.now)
    requires e.Finish? && e.run == pk ==> !e.status.Running?
    ensures var s' := Step(lease, s, e);
      pk in s'.runs && !Locked(s', pk) && s'.runs[pk] == OwnStep(s.runs[pk], e, pk)
  {
    var s' := Step(lease, s, e);
    assert e.Insert? && e.worker in s.acquiring ==> pk !in s.acquiring[e.worker].expired;
    assert e.Scan? && e.name == s.runs[pk].name && s.runs[pk].status.Running? ==> pk in RunningRuns(s.runs, e.name);
    forall w | w in s'.acquiring ensures pk !in s'.acquiring[w].expired {
      assert w in s.acquiring ==> s'.acquiring[w] == s.acquiring[w];
    }
  }

  ghost predicate OnlyFinishes(trace: seq<Event>) {
    forall i :: 0 <= i < |trace| && trace[i].Finish? ==> !trace[i].status.Running?
  }

  lemma {:induction false} FinishedRunIsItsOwn(lease: nat, s: State, trace: seq<Event>, pk: nat)
    requires Inv(lease, s) && pk in s.runs && !s.runs[pk].status.Running? && !Locked(s, pk) && OnlyFinishes(trace)
    ensures NeverReclaimed(lease, s, trace, pk)
    decreases |trace|
  {
    if trace != [] {
      OwnRowStep(lease, s, trace[0], pk);
      StepKeepsInv(lease, s, trace[0]);
      FinishedRunIsItsOwn(lease, Step(lease, s, trace[0]), trace[1..], pk);
    }
  }

  /** Main result on leases: a run whose heartbeats are closer together than the lease is never
      reclaimed, in any interleaving with any number of other workers: at every moment until its
      own worker finishes it, and after, its row is what that worker made of it. */
  lemma {:induction false} SpacedHeartbeatsKeepTheRun(lease: nat, s: State, trace: seq<Event>, pk: nat, since: int,
                                                      end: int)
    requires Inv(lease, s) && pk in s.runs && s.runs[pk].status.Running? && !Locked(s, pk) && OnlyFinishes(trace)
    requires Ordered(since, trace, end) && Spaced(lease, s.runs[pk].heartbeatAt, trace, pk, end)
    ensures NeverReclaimed(lease, s, trace, pk)
    decreases |trace|
  {
    if trace != [] {
      var e, s' := trace[0], Step(lease, s, trace[0]);
      var t := TimeOf(e);
      var later := if t.None? then since else Max(since, t.value);
      if !OwnEvent(e, pk) {
        BeatIsFresh(lease, s.runs[pk].heartbeatAt, later, trace[1..], pk, end);
      }
      OwnRowStep(lease, s, e, pk);
      StepKeepsInv(lease, s, e);
      if e.Finish? && e.run == pk {
        FinishedRunIsItsOwn(lease, s', trace[1..], pk);
      } else {
        SpacedHeartbeatsKeepTheRun(lease, s', trace[1..], pk, later, end);
      }
    }
  }

  /** Conversely a reclaim is always justified: the reclaimed row shows a heartbeat at least a
      lease older than the moment it was given up. */
  ghost predicate ReclaimsJustified(lease: nat, runs: Runs) {
    forall pk ::
      pk in runs && runs[pk].status.Interrupted? && runs[pk].errorCode == LEASE_EXPIRED && runs[pk].finishedAt.Some? ==>
                   runs[pk].heartbeatAt + lease <= runs[pk].finishedAt.value
  }

  ghost predicate OnlyReclaimsSayExpired(trace: seq<Event>) {
    forall i :: 0 <= i < |trace| && trace[i].Finish? ==> trace[i].errorCode != LEASE_EXPIRED
  }

  lemma {:induction false} EveryReclaimIsJustified(lease: nat, s: State, trace: seq<Event>)
    requires Inv(lease, s) && ReclaimsJustified(lease, s.runs) && OnlyReclaimsSayExpired(trace)
    ensures ReclaimsJustified(lease, Run(lease, s, trace).runs)
    decreases |trace|
  {
    if trace != [] {
      StepKeepsInv(lease, s, trace[0]);
      assert ReclaimsJustified(lease, Step(lease, s, trace[0]).runs) by {
        assert trace[0].Finish? ==> trace[0].errorCode != LEASE_EXPIRED;
      }
      assert OnlyReclaimsSayExpired(trace[1..]);
      EveryReclaimIsJustified(lease, Step(lease, s, trace[0]), trace[1..]);
    }
  }
}
