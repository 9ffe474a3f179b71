/** The freshness monitor: how old the newest valid receipt is, and when administrators are told. */
module Monitor {
  import opened Common

  datatype Severity = Ok | Missed | Critical | Containment

  /** Times are whole microseconds. */
  const HOUR: int := 3_600_000_000
  const MISSED_AFTER := 14 * HOUR
  const CRITICAL_AFTER := 20 * HOUR
  const CONTAINMENT_AFTER := 24 * HOUR
  const REMINDER_INTERVAL := 24 * HOUR

  function ClassifyReceiptAge(age: Option<int>): Severity {
    match age
    case None => Containment
    case Some(a) =>
      if a >= CONTAINMENT_AFTER then Containment
      else if a >= CRITICAL_AFTER then Critical
      else if a >= MISSED_AFTER then Missed
      else Ok
  }

  function Rank(s: Severity): nat {
    match s case Ok => 0 case Missed => 1 case Critical => 2 case Containment => 3
  }

  /** The newest valid receipt that is not dated after `now`. A candidate that fails
      validation has no time. */
  function NewestReceipt(candidates: seq<Option<int>>, now: int): Option<int> {
    if candidates == [] then None
    else
      var rest := NewestReceipt(candidates[..|candidates| - 1], now);
      match candidates[|candidates| - 1]
      case None => rest
      case Some(t) => if t > now then rest else if rest.None? then Some(t) else Some(Max(rest.value, t))
  }

  function Inspected(candidates: seq<Option<int>>, now: int): Severity {
    var newest := NewestReceipt(candidates, now);
    ClassifyReceiptAge(if newest.None? then None else Some(now - newest.value))
  }

  lemma {:induction false} NewestReceiptIsNewest(candidates: seq<Option<int>>, now: int)
    ensures var newest := NewestReceipt(candidates, now);
      && (newest.Some? ==> newest in candidates && newest.value <= now)
      && (forall t :: Some(t) in candidates && t <= now ==> newest.Some? && t <= newest.value)
  {
    if candidates != [] {
      NewestReceiptIsNewest(candidates[..|candidates| - 1], now);
      assert candidates == candidates[..|candidates| - 1] + [candidates[|candidates| - 1]];
    }
  }

  /** Silence never looks better with time: with no further receipt the severity can only rise. */
  lemma SilenceOnlyEscalates(candidates: seq<Option<int>>, now: int, later: int)
    requires now <= later
    requires forall t :: Some(t) in candidates ==> t <= now
    ensures Rank(Inspected(candidates, now)) <= Rank(Inspected(candidates, later))
    ensures Rank(Ok) < Rank(Missed) < Rank(Critical) < Rank(Containment)
  {
    NewestReceiptIsNewest(candidates, now);
    NewestReceiptIsNewest(candidates, later);
  }

  /** All is well exactly when some valid receipt, not from the future, is under 14 hours old. */
  lemma OkIffFreshReceipt(candidates: seq<Option<int>>, now: int)
    ensures Inspected(candidates, now) == Ok <==>
            exists t :: Some(t) in candidates && t <= now && now - t < MISSED_AFTER
  {
    NewestReceiptIsNewest(candidates, now);
    var newest := NewestReceipt(candidates, now);
    if Inspected(candidates, now) == Ok {
      assert Some(newest.value) in candidates;
    }
  }

  /** Some valid receipt, not from the future, is under this many hours old. */
  ghost predicate ReceivedWithin(candidates: seq<Option<int>>, now: int, hours: int) {
    exists t :: Some(t) in candidates && t <= now && now - t < hours * 3_600_000_000
  }

  /** Main result on severity: all is well with a receipt under 14 hours old; a backup is missed when
      the best is under 20, critical when it is under 24, and otherwise calls for containment. */
  lemma SeverityIff(candidates: seq<Option<int>>, now: int)
    ensures Inspected(candidates, now) ==
            if ReceivedWithin(candidates, now, 14) then Ok
            else if ReceivedWithin(candidates, now, 20) then Missed
            else if ReceivedWithin(candidates, now, 24) then Critical
            else Containment
  {
    NewestReceiptIsNewest(candidates, now);
    var newest := NewestReceipt(candidates, now);
    if newest.Some? {
      assert Some(newest.value) in candidates;
    }
  }

  function ValidCount(candidates: seq<Option<int>>, now: int): nat {
    if candidates == [] then 0
    else
      var last := candidates[|candidates| - 1];
      ValidCount(candidates[..|candidates| - 1], now) + if last.Some? && last.value <= now then 1 else 0
  }

  method InspectReceipts(candidates: seq<Option<int>>, now: int)
    returns (severity: Severity, age: Option<int>, validPairs: nat)
    ensures severity == Inspected(candidates, now) == ClassifyReceiptAge(age)
    ensures validPairs == ValidCount(candidates, now) && (validPairs == 0 <==> age.None?)
    ensures age.Some? ==> age.value >= 0 && Some(now - age.value) in candidates
  {
    var newest := None;
    validPairs := 0;
    for i := 0 to |candidates|
      invariant newest == NewestReceipt(candidates[..i], now)
      invariant validPairs == ValidCount(candidates[..i], now) && (validPairs == 0 <==> newest.None?)
    {
      assert candidates[..i + 1][..i] == candidates[..i];
      if candidates[i].Some? && candidates[i].value <= now {
        newest := if newest.None? then candidates[i] else Some(Max(newest.value, candidates[i].value));
        validPairs := validPairs + 1;
      }
    }
    assert candidates[..|candidates|] == candidates;
    NewestReceiptIsNewest(candidates, now);
    age := if newest.None? then None else Some(now - newest.value);
    severity := ClassifyReceiptAge(age);
  }

  // ----- notification -----

  datatype Stored = Stored(severity: Severity, notifiedAt: Option<int>)

  datatype Message = Recovered | ReportMissed | ReportCritical | ReportContainment

  datatype Notification = Notification(message: Message, severity: Severity, at: int)

  /** What the check keeps on disk, and every notification that reached the administrators. */
  datatype State = State(stored: Option<Stored>, delivered: seq<Notification>)

  /** How a check ends: completed; failed before anything was sent; or failed after the message
      went out but before the state was replaced. */
  datatype Ending = Completed | FailedUnsent | FailedUnrecorded

  datatype Event = Checked(severity: Severity, now: int, ending: Ending)

  predicate NotificationRequired(previous: Option<Stored>, severity: Severity, now: int) {
    if previous.None? then severity != Ok
    else if previous.value.severity != severity then true
    else
      var last := previous.value.notifiedAt;
      severity != Ok && (last.None? || now - last.value >= REMINDER_INTERVAL)
  }

  function NotificationMessage(severity: Severity, recovery: bool): Message {
    if recovery then Recovered
    else if severity == Missed then ReportMissed
    else if severity == Critical then ReportCritical
    else ReportContainment
  }

  function Notice(previous: Option<Stored>, e: Event): Notification {
    var recovery := e.severity == Ok && previous.Some? && previous.value.severity != Ok;
    Notification(NotificationMessage(e.severity, recovery), e.severity, e.now)
  }

  function Step(s: State, e: Event): State {
    if e.ending == FailedUnsent then s
    else if NotificationRequired(s.stored, e.severity, e.now) then
      var stored := if e.ending == Completed then Some(Stored(e.severity, Some(e.now))) else s.stored;
      State(stored, s.delivered + [Notice(s.stored, e)])
    else if s.stored.None? && e.ending == Completed then s.(stored := Some(Stored(e.severity, None)))
    else s
  }

  function Run(s: State, trace: seq<Event>): State
    decreases |trace|
  {
    if trace == [] then s else Run(Step(s, trace[0]), trace[1..])
  }

  const START := State(None, [])

  /** What administrators were last told, and what the stored state believes they were. */
  function LastTold(s: State): Severity { if s.delivered == [] then Ok else s.delivered[|s.delivered| - 1].severity }

  function Believed(s: State): Severity { if s.stored.None? then Ok else s.stored.value.severity }

  predicate InStep(s: State) { LastTold(s) == Believed(s) }

  /** The message that goes with a severity. */
  function Truthful(severity: Severity): Message {
    match severity
    case Ok => Recovered
    case Missed => ReportMissed
    case Critical => ReportCritical
    case Containment => ReportContainment
  }

  /** Consecutive notifications either differ, or repeat an unresolved severity a day or more
      later; the first is never an all-clear; and each says what its check found. */
  ghost predicate WellSpaced(delivered: seq<Notification>) {
    && (delivered != [] ==> delivered[0].severity != Ok)
    && (forall i, j :: 0 <= i && j == i + 1 && j < |delivered| && delivered[i].severity == delivered[j].severity ==>
          delivered[j].severity != Ok && delivered[j].at - delivered[i].at >= REMINDER_INTERVAL)
    && (forall i :: 0 <= i < |delivered| ==> delivered[i].message == Truthful(delivered[i].severity))
  }

  ghost predicate Inv(s: State) {
    && InStep(s)
    && WellSpaced(s.delivered)
    && (s.delivered != [] ==> s.stored.Some? && s.stored.value.notifiedAt == Some(s.delivered[|s.delivered| - 1].at))
    && (s.delivered == [] && s.stored.Some? ==> s.stored.value.notifiedAt == None)
  }

  lemma StepKeepsInv(s: State, e: Event)
    requires Inv(s) && e.ending != FailedUnrecorded
    ensures Inv(Step(s, e))
    ensures s.delivered <= Step(s, e).delivered
    ensures e.ending == Completed ==> LastTold(Step(s, e)) == e.severity
  {
    assert s.delivered != [] ==> s.delivered[|s.delivered| - 1].severity == Believed(s);
  }

  /** Main result on notification: as long as nothing is sent without being recorded, the stored
      severity is the one last delivered, whatever checks failed in between; the delivered
      sequence is well spaced; and after every completed check administrators have been told
      the severity that check found. */
  lemma {:induction false} AdministratorsStayInformed(s: State, trace: seq<Event>)
    requires Inv(s)
    requires forall i :: 0 <= i < |trace| ==> trace[i].ending != FailedUnrecorded
    ensures Inv(Run(s, trace)) && s.delivered <= Run(s, trace).delivered
    ensures trace != [] && trace[|trace| - 1].ending == Completed ==>
              LastTold(Run(s, trace)) == trace[|trace| - 1].severity
    decreases |trace|
  {
    if trace != [] {
      StepKeepsInv(s, trace[0]);
      AdministratorsStayInformed(Step(s, trace[0]), trace[1..]);
    }
  }

  /** A recorded severity other than all-clear is one that administrators were told at its time. */
  ghost predicate RecordsTold(s: State) {
    s.stored.Some? ==>
      match s.stored.value.notifiedAt
      case None => s.stored.value.severity == Ok
      case Some(at) => exists i :: 0 <= i < |s.delivered| && TellsAt(s.delivered[i], s.stored.value.severity, at)
  }

  predicate TellsAt(n: Notification, severity: Severity, at: int) { n.severity == severity && n.at == at }

  lemma {:induction false} RunsRecordTold(trace: seq<Event>)
    ensures RecordsTold(Run(START, trace))
  {
    if trace != [] {
      var rest, e := trace[..|trace| - 1], trace[|trace| - 1];
      assert trace == rest + [e];
      RunSnoc(START, rest, e);
      RunsRecordTold(rest);
      StepRecordsTold(Run(START, rest), e);
    }
  }

  lemma StepRecordsTold(s: State, e: Event)
    requires RecordsTold(s)
    ensures RecordsTold(Step(s, e))
  {
    var s' := Step(s, e);
    if s'.delivered != s.delivered {
      assert TellsAt(s'.delivered[|s.delivered|], e.severity, e.now);
      if s.stored.Some? && s.stored.value.notifiedAt.Some? {
        var i :| 0 <= i < |s.delivered| &&
          TellsAt(s.delivered[i], s.stored.value.severity, s.stored.value.notifiedAt.value);
        assert s'.delivered[i] == s.delivered[i];
      }
    }
  }

  /** Main result on reminders: after any run at all, a completed check that finds a problem leaves
      administrators told of just that severity less than 24 hours before, or right then. */
  lemma ProblemsAreRepeatedDaily(trace: seq<Event>, e: Event)
    requires e.ending == Completed && e.severity != Ok
    ensures exists n :: n in Run(START, trace + [e]).delivered && n.severity == e.severity &&
                        e.now - n.at < 24 * 3_600_000_000
  {
    RunSnoc(START, trace, e);
    RunsRecordTold(trace);
    var s, s' := Run(START, trace), Run(START, trace + [e]);
    if s'.delivered != s.delivered {
      assert s'.delivered[|s.delivered|] in s'.delivered;
    } else {
      var at := s.stored.value.notifiedAt.value;
      var i :| 0 <= i < |s.delivered| && TellsAt(s.delivered[i], e.severity, at);
      assert s.delivered[i] in s'.delivered;
    }
  }

  /** No change is lost: checks that fail unsent leave no mark, so the run is the run of the
      checks that did not. */
  function Effective(trace: seq<Event>): seq<Event> {
    if trace == [] then []
    else (if trace[0].ending == FailedUnsent then [] else [trace[0]]) + Effective(trace[1..])
  }

  lemma {:induction false} FailedChecksLoseNothing(s: State, trace: seq<Event>)
    ensures Run(s, Effective(trace)) == Run(s, trace)
    decreases |trace|
  {
    if trace != [] {
      FailedChecksLoseNothing(Step(s, trace[0]), trace[1..]);
      var rest := Effective(trace[1..]);
      assert Effective(trace) == if trace[0].ending == FailedUnsent then rest else [trace[0]] + rest;
      assert trace[0].ending != FailedUnsent ==> Effective(trace)[0] == trace[0] && Effective(trace)[1..] == rest;
    }
  }

  /** A message sent but not recorded can leave administrators with a stale alarm: the backup is
      fresh again before the next check, which believes nothing was ever said. */
  lemma UnrecordedAlarmIsNeverWithdrawn()
    ensures var s := Run(START, [Checked(Ok, 0, Completed), Checked(Missed, 15 * HOUR, FailedUnrecorded),
                                 Checked(Ok, 16 * HOUR, Completed)]);
      LastTold(s) == Missed && Believed(s) == Ok
  {
    var trace := [Checked(Ok, 0, Completed), Checked(Missed, 15 * HOUR, FailedUnrecorded),
                  Checked(Ok, 16 * HOUR, Completed)];
    var first := Step(START, trace[0]);
    var second := Step(first, trace[1]);
    assert Run(START, trace) == Run(first, trace[1..]) == Run(second, trace[1..][1..]);
    assert trace[1..][1..] == [trace[2]];
    assert Run(second, [trace[2]]) == Step(second, trace[2]);
    assert Believed(second) == Ok && LastTold(second) == Missed;
  }

  lemma {:induction false} RunSnoc(s: State, trace: seq<Event>, e: Event)
    ensures Run(s, trace + [e]) == Step(Run(s, trace), e)
    decreases |trace|
  {
    if trace == [] {
      assert [] + [e] == [e] && [e][1..] == [];
    } else {
      assert (trace + [e])[1..] == trace[1..] + [e];
      RunSnoc(Step(s, trace[0]), trace[1..], e);
    }
  }

  /** This check's notification goes out, recorded or not. */
  predicate Sends(stored: Option<Stored>, e: Event) {
    e.ending != FailedUnsent && NotificationRequired(stored, e.severity, e.now)
  }

  /** The last notification of a run was recorded, or said what the stored state believed anyway. */
  function LastSendSettled(trace: seq<Event>): bool {
    if trace == [] then true
    else
      var before, e := Run(START, trace[..|trace| - 1]), trace[|trace| - 1];
      if Sends(before.stored, e) then e.ending == Completed || e.severity == Believed(before)
      else LastSendSettled(trace[..|trace| - 1])
  }

  /** The stored state agrees with the administrators exactly when the last send is settled. */
  lemma {:induction false} InStepIff(trace: seq<Event>)
    ensures InStep(Run(START, trace)) <==> LastSendSettled(trace)
  {
    if trace != [] {
      var rest, e := trace[..|trace| - 1], trace[|trace| - 1];
      assert trace == rest + [e];
      RunSnoc(START, rest, e);
      InStepIff(rest);
    }
  }

  /** Exactly when it goes wrong: after any run that ends in a completed check, with sends failing
      and going unrecorded on the way, administrators know the severity that check found if and only
      if the last notification sent was recorded or said what the stored state believed. */
  lemma InformedIff(trace: seq<Event>, e: Event)
    requires e.ending == Completed
    ensures LastTold(Run(START, trace + [e])) == e.severity <==> LastSendSettled(trace + [e])
  {
    RunSnoc(START, trace, e);
    InStepIff(trace);
    assert (trace + [e])[..|trace|] == trace;
  }

  /** The notification state replaced in place by each check. */
  class FreshnessMonitor {
    var stored: Option<Stored>
    var delivered: seq<Notification>

    ghost function View(): State
      reads this
    {
      State(stored, delivered)
    }

    constructor ()
      ensures View() == START
    {
      stored, delivered := None, [];
    }

    method Check(candidates: seq<Option<int>>, now: int, ending: Ending)
      modifies this
      ensures View() == Step(old(View()), Checked(Inspected(candidates, now), now, ending))
    {
      var severity, _, _ := InspectReceipts(candidates, now);
      if ending == FailedUnsent {
        return;
      }
      var previous := stored;
      if NotificationRequired(previous, severity, now) {
        var recovery := severity == Ok && previous.Some? && previous.value.severity != Ok;
        delivered := delivered + [Notification(NotificationMessage(severity, recovery), severity, now)];
        if ending == FailedUnrecorded {
          return;
        }
        stored := Some(Stored(severity, Some(now)));
      } else if previous.None? && ending == Completed {
        stored := Some(Stored(severity, None));
      }
    }
  }
}
