/** How a save intent ends, by what Linkding answers to each attempt. */
module DeliveryOutcomes {
  import opened Common
  import opened Delivery

  datatype Answer = Answer(reply: Reply, at: int)

  /** The stored row after attempts one at a time, each with its outcome stored. */
  function Attempted(maximum: nat, row: Row, answers: seq<Answer>): Row {
    if answers == [] then row
    else
      var before, last := Attempted(maximum, row, answers[..|answers| - 1]), answers[|answers| - 1];
      if Retryable(before) then Written(before, AfterAttempt(maximum, before, last.at, last.reply)) else before
  }

  /** Worth another attempt: everything but a bookmark of another url and an HTTP status that is
      neither a login problem, nor too many requests, nor the server's own. */
  predicate Temporary(e: LinkdingError) {
    && !e.BookmarkUrlMismatch?
    && (e.HttpError? ==> e.status.Some? && (e.status.value in {401, 403, 429} || 500 <= e.status.value <= 599))
  }

  predicate Decides(r: Reply) { r.Bookmark? || !Temporary(r.error) }

  /** The first answer that decides, or the number of answers if none does. */
  function Deciding(answers: seq<Answer>): (n: nat)
    ensures n <= |answers|
    ensures forall j :: 0 <= j < n ==> !Decides(answers[j].reply)
    ensures n < |answers| ==> Decides(answers[n].reply)
  {
    if answers == [] then 0
    else
      var n, last := Deciding(answers[..|answers| - 1]), |answers| - 1;
      if n < last || Decides(answers[last].reply) then n else last + 1
  }

  /** The error class stored says which kind of failure it was. */
  predicate Tells(class_: ErrorClass, e: LinkdingError) {
    && (class_.NotConfigured? <==> e.TokenMissing?)
    && (class_.TimedOut? <==> e.TimeoutError?)
    && (class_.ConnectionLost? <==> e.ConnectionError? || e.RequestError?)
    && (class_.RateLimited? <==> e == HttpError(Some(429)))
    && (class_.Auth? <==> e == HttpError(Some(401)) || e == HttpError(Some(403)))
    && (class_.ServerError? <==> e.HttpError? && e.status.Some? && 500 <= e.status.value <= 599)
    && (class_.ClientError? <==> e.HttpError? && !Temporary(e))
    && (class_.InvalidResponse? <==> e.BadValue?)
    && (class_.UrlMismatch? <==> e.BookmarkUrlMismatch?)
    && (class_.Unexpected? <==> e.OtherError?)
    && !class_.Unclassified?
  }

  /** What the answers make of a delivery enqueued with a budget of `maximum` attempts. */
  ghost predicate EndsAs(maximum: nat, row: Row, answers: seq<Answer>, n: nat)
    requires n <= |answers|
  {
    && row.attempts == Min(|answers|, Min(n + 1, maximum))
    && (row.state.Succeeded? <==> n < |answers| && n < maximum && answers[n].reply.Bookmark?)
    && (row.state.PermanentFailed? <==>
          || (n < |answers| && n < maximum && answers[n].reply.Raised?)
          || (n >= maximum && |answers| >= maximum))
    && (row.state.Queued? <==> answers == [])
    && (row.state.TransientFailed? <==> 0 < |answers| < maximum && n == |answers|)
  }

  /** What the row records of the last attempt made. */
  predicate Records(row: Row, last: Answer) {
    && row.lastAttemptAt == Some(last.at)
    && match last.reply
       case Bookmark(id) =>
         && row.bookmarkId == (if |id| <= 64 then id else id[..64])
         && row.deliveredAt == Some(last.at) && row.errorClass.Unclassified? && row.errorMessage == ""
       case Raised(e, message) => Tells(row.errorClass, e) && row.errorMessage == message && row.deliveredAt.None?
  }

  /** One attempt on an open delivery. */
  lemma AfterOneAnswer(maximum: nat, before: Row, a: Answer)
    requires Retryable(before) && before.attempts < maximum
    ensures var row := Written(before, AfterAttempt(maximum, before, a.at, a.reply));
      && row.attempts == before.attempts + 1 && Records(row, a)
      && (row.state.Succeeded? <==> a.reply.Bookmark?)
      && (row.state.PermanentFailed? <==> a.reply.Raised? && (Decides(a.reply) || row.attempts >= maximum))
      && (row.state.TransientFailed? <==> !Decides(a.reply) && row.attempts < maximum)
      && !row.state.Queued?
      && (row.state.TransientFailed? ==> row.nextAttemptAt == Some(a.at + RetryDelay(row.attempts)))
  {
    if a.reply.Raised? {
      ClassTells(a.reply.error);
    }
  }

  lemma ClassTells(e: LinkdingError)
    ensures Tells(ClassifyLinkdingError(e).0, e)
    ensures ClassifyLinkdingError(e).1 <==> Temporary(e)
  {
  }

  /** What is open has met no deciding answer and has budget left. */
  lemma OpenHasBudget(maximum: nat, row: Row, answers: seq<Answer>, n: nat)
    requires n <= |answers| && EndsAs(maximum, row, answers, n)
    ensures maximum >= 1 && Retryable(row) ==> n == |answers| < maximum && row.attempts == |answers|
    ensures !Retryable(row) ==> n < |answers| || |answers| >= maximum
  {
  }

  lemma OpenAnswerMore(maximum: nat, before: Row, after: Row, answers: seq<Answer>, n: nat)
    requires answers != [] && n <= |answers| && |answers| - 1 < maximum && before.attempts == |answers| - 1
    requires n == if Decides(answers[|answers| - 1].reply) then |answers| - 1 else |answers|
    requires Retryable(before)
    requires var last := answers[|answers| - 1];
      after == Written(before, AfterAttempt(maximum, before, last.at, last.reply))
    ensures EndsAs(maximum, after, answers, n) && Records(after, answers[after.attempts - 1])
  {
    AfterOneAnswer(maximum, before, answers[|answers| - 1]);
  }

  lemma ClosedAnswerMore(maximum: nat, row: Row, answers: seq<Answer>, n: nat, m: nat)
    requires maximum >= 1 && answers != [] && n <= |answers| - 1 && !Retryable(row)
    requires EndsAs(maximum, row, answers[..|answers| - 1], n)
    requires m <= |answers| && (if n < |answers| - 1 then m == n else m >= |answers| - 1)
    ensures EndsAs(maximum, row, answers, m) && |answers| > 1
  {
    OpenHasBudget(maximum, row, answers[..|answers| - 1], n);
    assert n < |answers| - 1 ==> answers[..|answers| - 1][n] == answers[n];
  }

  /** Main result on outcomes: over any run of answers the first that decides ends the delivery,
      with success for a bookmark and for good otherwise; temporary failures alone keep it open as
      long as there are fewer of them than the budget, and end it when they spend it. */
  lemma {:induction false} AnswersDecide(maximum: nat, url: string, at: int, answers: seq<Answer>)
    requires maximum >= 1
    ensures var row := Attempted(maximum, Enqueued(url, at), answers);
      && EndsAs(maximum, row, answers, Deciding(answers))
      && (answers != [] ==> Records(row, answers[row.attempts - 1]))
  {
    if answers != [] {
      var rest, last := answers[..|answers| - 1], answers[|answers| - 1];
      AnswersDecide(maximum, url, at, rest);
      DecidingSnoc(answers);
      var before, after := Attempted(maximum, Enqueued(url, at), rest), Attempted(maximum, Enqueued(url, at), answers);
      AnotherAnswer(maximum, before, after, answers, Deciding(rest), Deciding(answers));
    }
  }

  lemma DecidingSnoc(answers: seq<Answer>)
    requires answers != []
    ensures var rest, last := answers[..|answers| - 1], answers[|answers| - 1];
      Deciding(answers) == if Deciding(rest) < |rest| then Deciding(rest)
                           else if Decides(last.reply) then |rest| else |answers|
  {
  }

  lemma AnotherAnswer(maximum: nat, before: Row, after: Row, answers: seq<Answer>, n: nat, m: nat)
    requires maximum >= 1 && answers != [] && n <= |answers| - 1
    requires EndsAs(maximum, before, answers[..|answers| - 1], n)
    requires |answers| > 1 ==> Records(before, answers[before.attempts - 1])
    requires var last := answers[|answers| - 1];
      && m == (if n < |answers| - 1 then n else if Decides(last.reply) then |answers| - 1 else |answers|)
      && after == (if Retryable(before) then Written(before, AfterAttempt(maximum, before, last.at, last.reply))
                   else before)
    ensures EndsAs(maximum, after, answers, m) && Records(after, answers[after.attempts - 1])
  {
    OpenHasBudget(maximum, before, answers[..|answers| - 1], n);
    if Retryable(before) {
      OpenAnswerMore(maximum, before, after, answers, m);
    } else {
      ClosedAnswerMore(maximum, before, answers, n, m);
    }
  }

  predicate Hopeless(r: Reply) { r.Raised? && !Temporary(r.error) }

  /** A delivery is given up before its budget is spent only by an answer that no retry can help,
      and always by one. */
  lemma GivenUpEarlyIff(maximum: nat, url: string, at: int, answers: seq<Answer>)
    requires maximum >= 1 && |answers| < maximum
    ensures Attempted(maximum, Enqueued(url, at), answers).state.PermanentFailed? <==>
            exists k :: 0 <= k < |answers| && Hopeless(answers[k].reply) &&
                        forall j :: 0 <= j < k ==> answers[j].reply.Raised? && !Hopeless(answers[j].reply)
  {
    AnswersDecide(maximum, url, at, answers);
    var n := Deciding(answers);
    if k :| 0 <= k < |answers| && Hopeless(answers[k].reply)
            && forall j :: 0 <= j < k ==> answers[j].reply.Raised? && !Hopeless(answers[j].reply)
    {
      assert Decides(answers[k].reply);
      assert n == k;
    }
    if n < |answers| && answers[n].reply.Raised? {
      assert forall j :: 0 <= j < n ==> !Decides(answers[j].reply);
    }
  }

  /** An open delivery waits five minutes after its first failure, twice as long after each further
      one, and never more than six hours. */
  lemma {:induction false} WaitDoubles(maximum: nat, url: string, at: int, answers: seq<Answer>)
    requires maximum >= 1 && answers != [] && Retryable(Attempted(maximum, Enqueued(url, at), answers))
    ensures Attempted(maximum, Enqueued(url, at), answers).nextAttemptAt ==
            Some(answers[|answers| - 1].at + Min(300 * Pow2(|answers| - 1), 6 * 3600))
  {
    WaitsItsDelay(maximum, url, at, answers);
    DelayDoubles(|answers|);
  }

  lemma WaitsItsDelay(maximum: nat, url: string, at: int, answers: seq<Answer>)
    requires maximum >= 1 && answers != [] && Retryable(Attempted(maximum, Enqueued(url, at), answers))
    ensures Attempted(maximum, Enqueued(url, at), answers).nextAttemptAt ==
            Some(answers[|answers| - 1].at + RetryDelay(|answers|))
  {
    var rest, last := answers[..|answers| - 1], answers[|answers| - 1];
    var before, after := Attempted(maximum, Enqueued(url, at), rest), Attempted(maximum, Enqueued(url, at), answers);
    AnswersDecide(maximum, url, at, rest);
    AnswersDecide(maximum, url, at, answers);
    OpenHasBudget(maximum, before, rest, Deciding(rest));
    OpenHasBudget(maximum, after, answers, Deciding(answers));
    AfterOneAnswer(maximum, before, last);
    assert after == Written(before, AfterAttempt(maximum, before, last.at, last.reply));
  }

  lemma DelayDoubles(n: nat)
    requires n >= 1
    ensures RetryDelay(n) == Min(300 * Pow2(n - 1), 6 * 3600)
  {
    SixteenDoublings();
    BackoffIsCappedDoubling(DELIVERY_BACKOFF_BASE, DELIVERY_BACKOFF_CAP, n);
  }

  /** Enqueueing again, or requeueing what was given up, starts from nothing. */
  lemma RequeueStartsOver(maximum: nat, url: string, at: int, answers: seq<Answer>, now: int, more: seq<Answer>)
    requires maximum >= 1 && Attempted(maximum, Enqueued(url, at), answers).state.PermanentFailed?
    ensures var row := Requeued(Attempted(maximum, Enqueued(url, at), answers), now);
      && row.nextAttemptAt == Some(now) && row.url == url
      && Attempted(maximum, row, more).state == Attempted(maximum, Enqueued(url, now), more).state
      && Attempted(maximum, row, more).attempts == Attempted(maximum, Enqueued(url, now), more).attempts
      && Attempted(maximum, row, more).nextAttemptAt == Attempted(maximum, Enqueued(url, now), more).nextAttemptAt
  {
    KeepsUrl(maximum, Enqueued(url, at), answers);
    SameFromHere(maximum, Requeued(Attempted(maximum, Enqueued(url, at), answers), now), Enqueued(url, now), more);
  }

  lemma {:induction false} KeepsUrl(maximum: nat, row: Row, answers: seq<Answer>)
    ensures Attempted(maximum, row, answers).url == row.url
  {
    if answers != [] {
      KeepsUrl(maximum, row, answers[..|answers| - 1]);
    }
  }

  predicate Alike(a: Row, b: Row) {
    a.state == b.state && a.attempts == b.attempts && a.nextAttemptAt == b.nextAttemptAt
  }

  lemma AlikeAfter(maximum: nat, a: Row, b: Row, at: int, reply: Reply)
    requires Alike(a, b)
    ensures Alike(Written(a, AfterAttempt(maximum, a, at, reply)), Written(b, AfterAttempt(maximum, b, at, reply)))
  {
  }

  lemma {:induction false} SameFromHere(maximum: nat, a: Row, b: Row, answers: seq<Answer>)
    requires Alike(a, b)
    ensures Alike(Attempted(maximum, a, answers), Attempted(maximum, b, answers))
  {
    if answers != [] {
      var rest, last := answers[..|answers| - 1], answers[|answers| - 1];
      SameFromHere(maximum, a, b, rest);
      AlikeAfter(maximum, Attempted(maximum, a, rest), Attempted(maximum, b, rest), last.at, last.reply);
    }
  }
}
