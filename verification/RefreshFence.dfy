/** Concurrent refresh attempts on one feed, fenced by a generation. Every event below is one
    database transaction. */
module RefreshFence {
  import opened Common
  import opened Reconciliation

  const MINUTE := 60
  const REFRESH_BACKOFF_BASE := 5 * MINUTE
  const REFRESH_BACKOFF_CAP := 1440 * MINUTE

  datatype Document = Document(entries: seq<Entry>, title: string, link: string, subtitle: string, description: string)

  /** What an owning attempt settles: the articles and the feed's status fields. */
  datatype Status = Status(
    table: Table, feedUrl: string, title: string, siteUrl: string, description: string,
    failures: nat, errorCode: string, errorMessage: string,
    nextRetryAt: Option<int>, lastFetchedAt: Option<int>)

  datatype FeedRow = FeedRow(generation: nat, lastAttemptAt: Option<int>, status: Status)

  datatype Phase =
    | Fetching(generation: nat)
    | Failing(generation: nat, code: string, message: string)
    | Finished

  datatype State = State(feed: FeedRow, attempts: map<nat, Phase>)

  datatype Event =
    | Claim(attempt: nat, at: int)
    | Raise(attempt: nat, code: string, message: string)  // any error before the commit, all rolled back
    | Commit(attempt: nat, document: Document, at: int)
    | Record(attempt: nat, at: int)
    | Crash(attempt: nat)

  function RetryDelay(failures: nat): int { Backoff(REFRESH_BACKOFF_BASE, REFRESH_BACKOFF_CAP, failures) }

  function Claimed(f: FeedRow, at: int): FeedRow {
    f.(generation := f.generation + 1, lastAttemptAt := Some(at))
  }

  function Succeeded(st: Status, d: Document, table: Table, at: int): Status {
    st.(table := table,
        title := Or(d.title, Or(st.title, st.feedUrl)),
        siteUrl := Or(d.link, st.siteUrl),
        description := Or(d.subtitle, Or(d.description, st.description)),
        lastFetchedAt := Some(at), errorCode := "", errorMessage := "", failures := 0, nextRetryAt := None)
  }

  function Failed(st: Status, code: string, message: string, at: int): Status {
    st.(failures := st.failures + 1, errorCode := code, errorMessage := message,
        nextRetryAt := Some(at + RetryDelay(st.failures + 1)))
  }

  const CONFLICT_CODE := "integrity_error"
  const CONFLICT_MESSAGE := "The feed conflicted with existing article data."

  /** One transaction. An event its attempt is not ready for changes nothing. */
  ghost function Step(s: State, e: Event): State {
    match e
    case Claim(a, at) =>
      if a in s.attempts then s
      else State(Claimed(s.feed, at), s.attempts[a := Fetching(s.feed.generation + 1)])
    case Raise(a, code, message) =>
      if a in s.attempts && s.attempts[a].Fetching?
      then s.(attempts := s.attempts[a := Failing(s.attempts[a].generation, code, message)])
      else s
    case Commit(a, d, at) =>
      if !(a in s.attempts && s.attempts[a].Fetching?) then s
      else if s.attempts[a].generation != s.feed.generation then s.(attempts := s.attempts[a := Finished])
      else (match Reconcile(s.feed.status.table, d.entries, at)
            case None =>
              s.(attempts := s.attempts[a := Failing(s.attempts[a].generation, CONFLICT_CODE, CONFLICT_MESSAGE)])
            case Some(table) =>
              State(s.feed.(status := Succeeded(s.feed.status, d, table, at)), s.attempts[a := Finished]))
    case Record(a, at) =>
      if !(a in s.attempts && s.attempts[a].Failing?) then s
      else if s.attempts[a].generation != s.feed.generation then s.(attempts := s.attempts[a := Finished])
      else State(s.feed.(status := Failed(s.feed.status, s.attempts[a].code, s.attempts[a].message, at)),
                 s.attempts[a := Finished])
    case Crash(a) =>
      if a in s.attempts then s.(attempts := s.attempts[a := Finished]) else s
  }

  ghost function Run(s: State, trace: seq<Event>): State
    decreases |trace|
  {
    if trace == [] then s else Run(Step(s, trace[0]), trace[1..])
  }

  ghost function Start(f: FeedRow): State { State(f, map[]) }

  // ----- owning completions -----

  datatype Outcome =
    | Success(document: Document, at: int)
    | Failure(code: string, message: string, at: int)

  /** The outcome this event settles, if its attempt owns the feed at that moment. */
  ghost function Owner(s: State, e: Event): Option<Outcome> {
    match e
    case Commit(a, d, at) =>
      if a in s.attempts && s.attempts[a].Fetching? && s.attempts[a].generation == s.feed.generation
         && Reconcile(s.feed.status.table, d.entries, at).Some?
      then Some(Success(d, at)) else None
    case Record(a, at) =>
      if a in s.attempts && s.attempts[a].Failing? && s.attempts[a].generation == s.feed.generation
      then Some(Failure(s.attempts[a].code, s.attempts[a].message, at)) else None
    case _ => None
  }

  ghost function Owners(s: State, trace: seq<Event>): seq<Outcome>
    decreases |trace|
  {
    if trace == [] then []
    else
      var rest := Owners(Step(s, trace[0]), trace[1..]);
      match Owner(s, trace[0])
      case None => rest
      case Some(o) => [o] + rest
  }

  ghost function OwnerGenerations(s: State, trace: seq<Event>): seq<nat>
    decreases |trace|
  {
    if trace == [] then []
    else
      var rest := OwnerGenerations(Step(s, trace[0]), trace[1..]);
      if Owner(s, trace[0]).None? then rest else [s.feed.generation] + rest
  }

  // ----- the reference: owning attempts alone, one after another -----

  /** Each outcome as one whole attempt that nothing interrupts. */
  ghost function SerialTrace(os: seq<Outcome>, first: nat): seq<Event> {
    if os == [] then []
    else
      (match os[0]
       case Success(d, at) => [Claim(first, at), Commit(first, d, at)]
       case Failure(code, message, at) => [Claim(first, at), Raise(first, code, message), Record(first, at)])
      + SerialTrace(os[1..], first + 1)
  }

  ghost function Settle(st: Status, o: Outcome): Status {
    match o
    case Success(d, at) =>
      (match Reconcile(st.table, d.entries, at)
       case None => st
       case Some(table) => Succeeded(st, d, table, at))
    case Failure(code, message, at) => Failed(st, code, message, at)
  }

  ghost function SettleAll(st: Status, os: seq<Outcome>): Status
    decreases |os|
  {
    if os == [] then st else SettleAll(Settle(st, os[0]), os[1..])
  }

  /** A superseded or unfinished attempt changes nothing but the generation and the
      last attempt time, and those only by claiming. */
  lemma OnlyOwnersSettle(s: State, e: Event)
    ensures Step(s, e).feed.status ==
            (match Owner(s, e) case None => s.feed.status case Some(o) => Settle(s.feed.status, o))
    ensures !e.Claim? ==> Step(s, e).feed.generation == s.feed.generation
                          && Step(s, e).feed.lastAttemptAt == s.feed.lastAttemptAt
  {
  }

  lemma {:induction false} RunSettlesOwners(s: State, trace: seq<Event>)
    ensures Run(s, trace).feed.status == SettleAll(s.feed.status, Owners(s, trace))
    decreases |trace|
  {
    if trace != [] {
      OnlyOwnersSettle(s, trace[0]);
      RunSettlesOwners(Step(s, trace[0]), trace[1..]);
      var rest := Owners(Step(s, trace[0]), trace[1..]);
      if o :| Owner(s, trace[0]) == Some(o) {
        assert ([o] + rest)[1..] == rest;
      }
    }
  }

  lemma {:induction false} RunConcat(s: State, a: seq<Event>, b: seq<Event>)
    ensures Run(s, a + b) == Run(Run(s, a), b)
    decreases |a|
  {
    if a == [] {
      assert a + b == b;
    } else {
      assert (a + b)[1..] == a[1..] + b;
      RunConcat(Step(s, a[0]), a[1..], b);
    }
  }

  lemma {:induction false} RunTwo(s: State, e: Event, f: Event)
    ensures Run(s, [e, f]) == Step(Step(s, e), f)
  {
    assert [e, f][1..] == [f];
    assert Run(Step(s, e), [f]) == Run(Step(Step(s, e), f), []);
  }

  lemma {:induction false} RunThree(s: State, e: Event, f: Event, g: Event)
    ensures Run(s, [e, f, g]) == Step(Step(Step(s, e), f), g)
  {
    assert [e, f, g][1..] == [f, g];
    RunTwo(Step(s, e), f, g);
  }

  lemma {:induction false} SerialRunSettles(s: State, os: seq<Outcome>, first: nat)
    requires forall a :: a in s.attempts ==> a < first
    ensures Run(s, SerialTrace(os, first)).feed.status == SettleAll(s.feed.status, os)
    ensures Run(s, SerialTrace(os, first)).feed.generation == s.feed.generation + |os|
    decreases |os|
  {
    if os != [] {
      var head := match os[0]
        case Success(d, at) => [Claim(first, at), Commit(first, d, at)]
        case Failure(code, message, at) => [Claim(first, at), Raise(first, code, message), Record(first, at)];
      RunConcat(s, head, SerialTrace(os[1..], first + 1));
      match os[0] {
        case Success(d, at) => RunTwo(s, Claim(first, at), Commit(first, d, at));
        case Failure(code, message, at) => RunThree(s, Claim(first, at), Raise(first, code, message),
                                                    Record(first, at));
      }
      SerialRunSettles(Run(s, head), os[1..], first + 1);
    }
  }

  // ----- generations order the owners -----

  function Live(p: Phase): bool { !p.Finished? }

  ghost predicate Fenced(s: State) {
    && (forall a :: a in s.attempts && Live(s.attempts[a]) ==> s.attempts[a].generation <= s.feed.generation)
    && (forall a, b :: a in s.attempts && b in s.attempts && a != b && Live(s.attempts[a]) && Live(s.attempts[b]) ==>
                         s.attempts[a].generation != s.attempts[b].generation)
  }

  /** No live attempt may still settle at generation `last` or below. */
  ghost predicate SettledUpTo(s: State, last: int) {
    && last <= s.feed.generation
    && forall a :: a in s.attempts && Live(s.attempts[a]) && s.attempts[a].generation == s.feed.generation ==>
                     last < s.feed.generation
  }

  /** Only a claim starts an attempt or moves the feed's generation. */
  lemma PhasesOnlyEnd(s: State, e: Event)
    requires !e.Claim?
    ensures Step(s, e).feed.generation == s.feed.generation
    ensures forall a :: a in Step(s, e).attempts && Live(Step(s, e).attempts[a]) ==>
              a in s.attempts && Live(s.attempts[a]) && Step(s, e).attempts[a].generation == s.attempts[a].generation
  {
  }

  lemma OwnerEnds(s: State, e: Event)
    requires Owner(s, e).Some?
    ensures !e.Claim? && e.attempt in s.attempts && Live(s.attempts[e.attempt])
    ensures s.attempts[e.attempt].generation == s.feed.generation
    ensures e.attempt in Step(s, e).attempts && !Live(Step(s, e).attempts[e.attempt])
  {
  }

  lemma StepKeepsFence(s: State, e: Event, last: int)
    requires Fenced(s) && SettledUpTo(s, last)
    ensures Fenced(Step(s, e))
    ensures Owner(s, e).None? ==> SettledUpTo(Step(s, e), last)
    ensures Owner(s, e).Some? ==> last < s.feed.generation && SettledUpTo(Step(s, e), s.feed.generation)
  {
    if !e.Claim? {
      PhasesOnlyEnd(s, e);
      if Owner(s, e).Some? {
        OwnerEnds(s, e);
      }
    }
  }

  lemma {:induction false} OwnersSettleInGenerationOrder(s: State, trace: seq<Event>, last: int)
    requires Fenced(s) && SettledUpTo(s, last)
    ensures var gs := OwnerGenerations(s, trace);
            && |gs| == |Owners(s, trace)|
            && (forall i :: 0 <= i < |gs| ==> last < gs[i] <= Run(s, trace).feed.generation)
            && (forall i, j :: 0 <= i < j < |gs| ==> gs[i] < gs[j])
    ensures s.feed.generation <= Run(s, trace).feed.generation
    decreases |trace|
  {
    if trace != [] {
      StepKeepsFence(s, trace[0], last);
      OwnersSettleInGenerationOrder(Step(s, trace[0]), trace[1..],
                                    if Owner(s, trace[0]).None? then last else s.feed.generation);
    }
  }

  /** Main result: whatever attempts interleave, fail, are superseded or crash, the
      articles and status fields are those of a run of the same machine in which only
      the owning attempts happen, each whole, in strictly increasing generation order. */
  lemma EveryInterleavingIsSerial(f: FeedRow, trace: seq<Event>)
    ensures var os := Owners(Start(f), trace);
            && Run(Start(f), trace).feed.status == Run(Start(f), SerialTrace(os, 0)).feed.status
            && Run(Start(f), SerialTrace(os, 0)).feed.generation == f.generation + |os|
    ensures var gs := OwnerGenerations(Start(f), trace);
            && |gs| == |Owners(Start(f), trace)|
            && (forall i :: 0 <= i < |gs| ==> f.generation < gs[i] <= Run(Start(f), trace).feed.generation)
            && (forall i, j :: 0 <= i < j < |gs| ==> gs[i] < gs[j])
  {
    RunSettlesOwners(Start(f), trace);
    SerialRunSettles(Start(f), Owners(Start(f), trace), 0);
    OwnersSettleInGenerationOrder(Start(f), trace, f.generation);
  }

  // ----- what the status fields mean -----

  function TrailingFailures(os: seq<Outcome>): nat {
    if os == [] || os[|os| - 1].Success? then 0 else 1 + TrailingFailures(os[..|os| - 1])
  }

  ghost predicate Effective(st: Status, os: seq<Outcome>)
    decreases |os|
  {
    os == [] ||
    (&& (os[0].Success? ==> Reconcile(st.table, os[0].document.entries, os[0].at).Some?)
     && Effective(Settle(st, os[0]), os[1..]))
  }

  lemma {:induction false} OwnersAreEffective(s: State, trace: seq<Event>)
    ensures Effective(s.feed.status, Owners(s, trace))
    decreases |trace|
  {
    if trace != [] {
      OnlyOwnersSettle(s, trace[0]);
      OwnersAreEffective(Step(s, trace[0]), trace[1..]);
      var rest := Owners(Step(s, trace[0]), trace[1..]);
      if o :| Owner(s, trace[0]) == Some(o) {
        assert ([o] + rest)[1..] == rest;
      }
    }
  }

  lemma {:induction false} SettleLast(st: Status, os: seq<Outcome>)
    requires os != [] && Effective(st, os)
    ensures var before := SettleAll(st, os[..|os| - 1]);
            && Effective(st, os[..|os| - 1])
            && SettleAll(st, os) == Settle(before, os[|os| - 1])
            && (os[|os| - 1].Success? ==>
                  Reconcile(before.table, os[|os| - 1].document.entries, os[|os| - 1].at).Some?)
    decreases |os|
  {
    if |os| == 1 {
      assert os[1..] == [] && os[..0] == [];
    } else {
      SettleLast(Settle(st, os[0]), os[1..]);
      assert os[1..][..|os[1..]| - 1] == os[..|os| - 1][1..];
    }
  }

  lemma {:induction false} FailuresAreTheTrailingRun(st: Status, os: seq<Outcome>)
    requires Effective(st, os) && st.failures == 0
    ensures SettleAll(st, os).failures == TrailingFailures(os)
    decreases |os|
  {
    if os != [] {
      SettleLast(st, os);
      FailuresAreTheTrailingRun(st, os[..|os| - 1]);
    }
  }

  /** Main result on status: after any run of a feed that starts clean, the failure
      count is the trailing run of owning failures, and the retry time is null exactly
      when that run is empty and otherwise the last owning failure's time plus five
      minutes doubled per further failure, capped at a day. */
  lemma StatusCountsTrailingFailures(f: FeedRow, trace: seq<Event>)
    requires f.status.failures == 0 && f.status.nextRetryAt == None
    ensures var os, st := Owners(Start(f), trace), Run(Start(f), trace).feed.status;
            var n := TrailingFailures(os);
            && st.failures == n
            && st.nextRetryAt == (if n == 0 then None
                                  else Some(os[|os| - 1].at + Min(5 * MINUTE * Pow2(n - 1), 1440 * MINUTE)))
  {
    var os := Owners(Start(f), trace);
    RunSettlesOwners(Start(f), trace);
    OwnersAreEffective(Start(f), trace);
    FailuresAreTheTrailingRun(f.status, os);
    RetryFollowsTheLastFailure(f.status, os);
    if TrailingFailures(os) > 0 {
      RetryDelayDoubles(TrailingFailures(os));
    }
  }

  /** Five minutes, doubled per further failure, at most a day. */
  lemma RetryDelayDoubles(n: nat)
    requires n >= 1
    ensures RetryDelay(n) == Min(5 * MINUTE * Pow2(n - 1), 1440 * MINUTE)
  {
    SixteenDoublings();
    BackoffIsCappedDoubling(REFRESH_BACKOFF_BASE, REFRESH_BACKOFF_CAP, n);
  }

  /** In seconds: 300 after one failure, 86400 from the tenth on. */
  lemma RetryDelayInSeconds(n: nat)
    requires n >= 1
    ensures RetryDelay(n) == if n < 10 then 300 * Pow2(n - 1) else 86400
  {
    RetryDelayDoubles(n);
    assert Pow2(8) == 256 && Pow2(9) == 512;
    if n < 10 {
      Pow2Grows(n - 1, 8);
    } else {
      Pow2Grows(9, n - 1);
    }
  }

  lemma RetryFollowsTheLastFailure(st: Status, os: seq<Outcome>)
    requires Effective(st, os) && st.failures == 0 && st.nextRetryAt == None
    ensures var after := SettleAll(st, os);
            after.nextRetryAt == (if os == [] || os[|os| - 1].Success? then None
                                  else Some(os[|os| - 1].at + RetryDelay(after.failures)))
  {
    if os != [] {
      SettleLast(st, os);
      SettledRetry(SettleAll(st, os[..|os| - 1]), os[|os| - 1]);
    }
  }

  lemma SettledRetry(before: Status, o: Outcome)
    requires o.Success? ==> Reconcile(before.table, o.document.entries, o.at).Some?
    ensures Settle(before, o).nextRetryAt == (if o.Success? then None
                                              else Some(o.at + RetryDelay(Settle(before, o).failures)))
  {
  }

  /** A crashed attempt is over, and so is one that settled or was superseded: nothing it was about to
      do ever reaches the feed. */
  lemma {:induction false} EndedAttemptsAreSilent(s: State, trace: seq<Event>, a: nat, k: nat)
    requires a in s.attempts && (s.attempts[a].Finished? || (trace != [] && k > 0 && trace[0] == Crash(a)))
    requires k < |trace| && trace[k].attempt == a
    ensures Owner(Run(s, trace[..k]), trace[k]) == None
    ensures Step(Run(s, trace[..k]), trace[k]) == Run(s, trace[..k])
    decreases |trace|
  {
    if k > 0 {
      assert trace[..k][1..] == trace[1..][..k - 1];
      EndedAttemptsAreSilent(Step(s, trace[0]), trace[1..], a, k - 1);
    } else {
      assert trace[..0] == [];
      assert s.attempts[a := Finished] == s.attempts;
    }
  }

  /** A document that conflicts is an owning failure like any other: recorded, it shows as an integrity
      error, and every article is as it was. */
  lemma ConflictsAreReported(s: State, a: nat, d: Document, at: int, later: int)
    requires a in s.attempts && s.attempts[a] == Fetching(s.feed.generation)
    requires Reconcile(s.feed.status.table, d.entries, at).None?
    ensures var after := Step(Step(s, Commit(a, d, at)), Record(a, later)).feed;
      && after.status.table == s.feed.status.table && after.status.failures == s.feed.status.failures + 1
      && after.status.errorCode == "integrity_error"
      && after.status.errorMessage == "The feed conflicted with existing article data."
      && after.status.title == s.feed.status.title && after.status.lastFetchedAt == s.feed.status.lastFetchedAt
  {
  }

  // ----- the feed's own text -----

  /** The last text a successful document gave, or what there was before any did. */
  function LastGiven(os: seq<Outcome>, text: Document -> string, before: string): string {
    if os == [] then before
    else
      var last := os[|os| - 1];
      if last.Success? && text(last.document) != "" then text(last.document)
      else LastGiven(os[..|os| - 1], text, before)
  }

  ghost predicate SomeSuccess(os: seq<Outcome>) { exists i :: 0 <= i < |os| && os[i].Success? }

  /** What a feed shows after some owning outcomes. */
  ghost predicate Shows(st: Status, os: seq<Outcome>, after: Status) {
    && after.feedUrl == st.feedUrl
    && after.siteUrl == LastGiven(os, (d: Document) => d.link, st.siteUrl)
    && after.description ==
       LastGiven(os, (d: Document) => if d.subtitle != "" then d.subtitle else d.description, st.description)
    && (var title := LastGiven(os, (d: Document) => d.title, st.title);
        after.title == if title == "" && SomeSuccess(os) then st.feedUrl else title)
    && (os != [] ==>
          match os[|os| - 1]
          case Success(_, at) => after.lastFetchedAt == Some(at) && after.errorCode == "" && after.errorMessage == ""
          case Failure(code, message, _) => after.errorCode == code && after.errorMessage == message)
  }

  lemma {:induction false} OutcomesShow(st: Status, os: seq<Outcome>)
    requires Effective(st, os)
    ensures Shows(st, os, SettleAll(st, os))
  {
    if os != [] {
      var rest, last := os[..|os| - 1], os[|os| - 1];
      SettleLast(st, os);
      OutcomesShow(st, rest);
      if i :| 0 <= i < |rest| && rest[i].Success? {
        assert os[i].Success?;
      }
      if last.Success? {
        assert os[|os| - 1].Success?;
      } else if i :| 0 <= i < |os| && os[i].Success? {
        assert rest[i].Success?;
      }
    }
  }

  /** Main result on text: after any run a feed shows the last nonempty title, site url and
      description (subtitle first) that an owning document gave, keeps what it had where none did, and
      is titled by its url when nothing ever titled it; the error it shows is the last owning
      failure's, and none after a success. */
  lemma FeedShowsTheLastOwners(f: FeedRow, trace: seq<Event>)
    ensures Shows(f.status, Owners(Start(f), trace), Run(Start(f), trace).feed.status)
  {
    RunSettlesOwners(Start(f), trace);
    OwnersAreEffective(Start(f), trace);
    OutcomesShow(f.status, Owners(Start(f), trace));
  }

  /** The article constraints survive every interleaving. */
  lemma {:induction false} EveryRunKeepsArticlesValid(s: State, trace: seq<Event>)
    requires Valid(s.feed.status.table)
    ensures Valid(Run(s, trace).feed.status.table)
    decreases |trace|
  {
    if trace != [] {
      OnlyOwnersSettle(s, trace[0]);
      var t := s.feed.status.table;
      if d, at :| Owner(s, trace[0]) == Some(Success(d, at)) {
        var plan := Plan(t.rows, d.entries);
        PlanIsCompatible(t.rows, d.entries);
        CompatibleWritesKeepConstraints(t, plan, at, |plan|);
        assert plan[..|plan|] == plan;
      }
      EveryRunKeepsArticlesValid(Step(s, trace[0]), trace[1..]);
    }
  }
}
