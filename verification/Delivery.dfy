/** The Linkding delivery state machine: one delivery row, the workers and requests
    that read, claim and write it, and the remote bookmarks its attempts create. */
module Delivery {
  import opened Common

  const MINUTE := 60
  const DELIVERY_BACKOFF_BASE := 5 * MINUTE
  const DELIVERY_BACKOFF_CAP := 360 * MINUTE
  const ATTEMPT_LEASE := 15 * MINUTE

  datatype DeliveryState = Queued | Succeeded | TransientFailed | PermanentFailed

  datatype ErrorClass =
    | Unclassified | NotConfigured | TimedOut | ConnectionLost | RateLimited | ServerError
    | Auth | ClientError | InvalidResponse | UrlMismatch | Unexpected

  datatype Row = Row(
    url: string, state: DeliveryState, attempts: nat, lastAttemptAt: Option<int>,
    nextAttemptAt: Option<int>, deliveredAt: Option<int>, bookmarkId: string,
    errorClass: ErrorClass, errorMessage: string)

  predicate Retryable(r: Row) { r.state.Queued? || r.state.TransientFailed? }

  // ----- the two CHECK constraints -----

  predicate FieldsAgree(r: Row) {
    match r.state
    case Succeeded => r.deliveredAt.Some? && r.nextAttemptAt.None? && r.errorClass.Unclassified?
    case Queued => r.deliveredAt.None? && r.nextAttemptAt.Some?
    case TransientFailed => r.deliveredAt.None? && r.nextAttemptAt.Some?
    case PermanentFailed => r.deliveredAt.None? && r.nextAttemptAt.None?
  }

  predicate FailureClassified(r: Row) {
    r.state.Queued? || r.state.Succeeded? || !r.errorClass.Unclassified?
  }

  // ----- one attempt -----

  datatype LinkdingError =
    | TokenMissing | BookmarkUrlMismatch | TimeoutError | ConnectionError
    | HttpError(status: Option<int>) | BadValue | RequestError | OtherError

  function ClassifyLinkdingError(e: LinkdingError): (ErrorClass, bool) {
    match e
    case TokenMissing => (NotConfigured, true)
    case BookmarkUrlMismatch => (UrlMismatch, false)
    case TimeoutError => (TimedOut, true)
    case ConnectionError => (ConnectionLost, true)
    case HttpError(status) =>
      if status == Some(429) then (RateLimited, true)
      else if status == Some(401) || status == Some(403) then (Auth, true)
      else if status.Some? && 500 <= status.value < 600 then (ServerError, true)
      else (ClientError, false)
    case BadValue => (InvalidResponse, true)
    case RequestError => (ConnectionLost, true)
    case OtherError => (Unexpected, true)
  }

  datatype Reply = Bookmark(id: string) | Raised(error: LinkdingError, message: string)

  function RetryDelay(attempts: nat): int { Backoff(DELIVERY_BACKOFF_BASE, DELIVERY_BACKOFF_CAP, attempts) }

  /** The in-memory delivery after an attempt that started from `copy`. */
  function AfterAttempt(maximum: nat, copy: Row, startedAt: int, reply: Reply): Row {
    var tried := copy.(attempts := copy.attempts + 1, lastAttemptAt := Some(startedAt));
    match reply
    case Bookmark(id) =>
      tried.(state := Succeeded, deliveredAt := Some(startedAt), nextAttemptAt := None,
             bookmarkId := id[..Min(|id|, 64)], errorClass := Unclassified, errorMessage := "")
    case Raised(error, message) =>
      var (class_, retryable) := ClassifyLinkdingError(error);
      var failed := tried.(errorClass := class_, errorMessage := message, deliveredAt := None);
      if retryable && tried.attempts < maximum
      then failed.(state := TransientFailed, nextAttemptAt := Some(startedAt + RetryDelay(tried.attempts)))
      else failed.(state := PermanentFailed, nextAttemptAt := None)
  }

  /** The unconditional outcome write: every field but the url, from the writer's copy. */
  function Written(stored: Row, copy: Row): Row { copy.(url := stored.url) }

  function Enqueued(url: string, at: int): Row {
    Row(url, Queued, 0, None, Some(at), None, "", Unclassified, "")
  }

  function Requeued(r: Row, at: int): Row {
    if r.state.PermanentFailed?
    then r.(state := Queued, attempts := 0, nextAttemptAt := Some(at), errorClass := Unclassified, errorMessage := "")
    else r
  }

  // ----- interleavings -----

  datatype Actor =
    | Loaded(copy: Row, version: nat)                                  // a drain worker that read a due row
    | Ready(copy: Row, drain: bool, since: int)                        // claimed by a drain, or just saved
    | Trying(copy: Row, drain: bool, since: int, startedAt: int)       // waiting for Linkding

  /** `version` counts the writes of the row; no code reads it. */
  datatype State = State(row: Row, version: nat, actors: map<nat, Actor>)

  datatype Event =
    | Save(actor: nat, url: string, at: int)
    | Load(actor: nat, at: int)
    | Claim(actor: nat, at: int)
    | Begin(actor: nat, at: int)
    | Record(actor: nat, reply: Reply, at: int)
    | Requeue(at: int)
    | Crash(actor: nat, at: int)

  /** The compare-and-set of a claim. */
  predicate ClaimMatches(r: Row, copy: Row) { Retryable(r) && r.nextAttemptAt == copy.nextAttemptAt }

  predicate Due(r: Row, at: int) { Retryable(r) && r.nextAttemptAt.Some? && r.nextAttemptAt.value <= at }

  function Step(maximum: nat, s: State, e: Event): State {
    match e
    case Save(a, url, at) =>
      if a in s.actors then s
      else State(Enqueued(url, at), s.version + 1, s.actors[a := Ready(Enqueued(url, at), false, at)])
    case Load(a, at) =>
      if a in s.actors || !Due(s.row, at) then s
      else s.(actors := s.actors[a := Loaded(s.row, s.version)])
    case Claim(a, at) =>
      if !(a in s.actors && s.actors[a].Loaded?) then s
      else if !ClaimMatches(s.row, s.actors[a].copy) then s.(actors := s.actors - {a})
      else State(s.row.(nextAttemptAt := Some(at + ATTEMPT_LEASE)), s.version + 1,
                 s.actors[a := Ready(s.actors[a].copy, true, at)])
    case Begin(a, at) =>
      if !(a in s.actors && s.actors[a].Ready?) then s
      else s.(actors := s.actors[a := Trying(s.actors[a].copy, s.actors[a].drain, s.actors[a].since, at)])
    case Record(a, reply, at) =>
      if !(a in s.actors && s.actors[a].Trying?) then s
      else State(Written(s.row, AfterAttempt(maximum, s.actors[a].copy, s.actors[a].startedAt, reply)),
                 s.version + 1, s.actors - {a})
    case Requeue(at) =>
      if s.row.state.PermanentFailed? then s.(row := Requeued(s.row, at), version := s.version + 1) else s
    case Crash(a, at) => s.(actors := s.actors - {a})
  }

  function Run(maximum: nat, s: State, trace: seq<Event>): State
    decreases |trace|
  {
    if trace == [] then s else Run(maximum, Step(maximum, s, trace[0]), trace[1..])
  }

  // ----- what every interleaving keeps -----

  predicate RowOk(maximum: nat, r: Row) {
    && FieldsAgree(r)
    && FailureClassified(r)
    && r.attempts <= maximum
    && (r.state.Queued? ==> r.attempts == 0)
    && (r.state.TransientFailed? ==> 1 <= r.attempts < maximum)
  }

  ghost predicate CopiesOk(maximum: nat, s: State) {
    forall a :: a in s.actors ==> s.actors[a].copy.attempts < maximum
  }

  /** An outcome satisfies both constraints whatever row it lands on, even from a worker
      whose copy is long stale. */
  lemma OutcomeIsOk(maximum: nat, stored: Row, copy: Row, startedAt: int, reply: Reply)
    requires copy.attempts < maximum
    ensures RowOk(maximum, Written(stored, AfterAttempt(maximum, copy, startedAt, reply)))
  {
  }

  lemma StepKeepsRowOk(maximum: nat, s: State, e: Event)
    requires maximum >= 1 && RowOk(maximum, s.row) && CopiesOk(maximum, s)
    ensures RowOk(maximum, Step(maximum, s, e).row) && CopiesOk(maximum, Step(maximum, s, e))
  {
    if e.Record? && e.actor in s.actors && s.actors[e.actor].Trying? {
      OutcomeIsOk(maximum, s.row, s.actors[e.actor].copy, s.actors[e.actor].startedAt, e.reply);
    }
  }

  /** Main result on the constraints: every interleaving of saves, loads, claims, outcome
      writes, requeues and crashes, with no assumption on clocks or leases, keeps both
      CHECK constraints, never exceeds the maximum, and leaves a transient failure only
      while attempts remain. */
  lemma {:induction false} EveryInterleavingKeepsChecks(maximum: nat, s: State, trace: seq<Event>)
    requires maximum >= 1 && RowOk(maximum, s.row) && CopiesOk(maximum, s)
    ensures RowOk(maximum, Run(maximum, s, trace).row) && CopiesOk(maximum, Run(maximum, s, trace))
    decreases |trace|
  {
    if trace != [] {
      StepKeepsRowOk(maximum, s, trace[0]);
      EveryInterleavingKeepsChecks(maximum, Step(maximum, s, trace[0]), trace[1..]);
    }
  }

  /** A worker whose claim missed, or that crashed, does nothing more to the row until it saves or
      loads again, and nothing keeps it from loading. */
  lemma DoneUntilItLoadsAgain(maximum: nat, s: State, a: nat, last: Event, e: Event)
    requires a in s.actors
    requires (last.Crash? && last.actor == a)
             || (last.Claim? && last.actor == a && s.actors[a].Loaded? && !ClaimMatches(s.row, s.actors[a].copy))
    ensures var after := Step(maximum, s, last);
      && after.row == s.row && after.version == s.version
      && (forall b :: b != a ==> (b in after.actors <==> b in s.actors))
      && (forall b :: b != a && b in s.actors ==> after.actors[b] == s.actors[b])
      && ((e.Claim? || e.Begin? || e.Record?) && e.actor == a ==> Step(maximum, after, e) == after)
      && (e.Load? && e.actor == a && Due(s.row, e.at) ==>
            a in Step(maximum, after, e).actors && Step(maximum, after, e).actors[a] == Loaded(s.row, s.version))
  {
  }

  lemma DelayIsPositive(attempts: nat)
    ensures DELIVERY_BACKOFF_BASE <= RetryDelay(attempts) <= DELIVERY_BACKOFF_CAP
  {
    var n := Min(Max(attempts - 1, 0), 16);
    Pow2Grows(0, n);
    ScaleGrows(DELIVERY_BACKOFF_BASE, 1, Pow2(n));
  }
}
