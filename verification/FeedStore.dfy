/** The refresh code itself: the feed row a refresh locks and updates, one method per
    transaction, each proved to be the corresponding step of RefreshFence. */
module FeedStore {
  import opened Common
  import opened Reconciliation
  import opened RefreshFence
  import opened ArticleStore

  datatype CommitResult = Superseded | Conflicted | Committed(created: nat, updated: nat)

  /** What fetching and parsing produced, outside any transaction. */
  datatype Fetched = Parsed(document: Document) | Broken(code: string, message: string)

  datatype RefreshResult =
    | Refreshed(created: nat, updated: nat)
    | RefreshFailed(code: string, message: string)
    | SupersededResult

  class Feed {
    const articles: Articles
    const feedUrl: string
    var generation: nat
    var lastAttemptAt: Option<int>
    var title: string
    var siteUrl: string
    var description: string
    var failures: nat
    var errorCode: string
    var errorMessage: string
    var nextRetryAt: Option<int>
    var lastFetchedAt: Option<int>

    ghost function StatusFields(): Status
      reads this, articles
    {
      Status(articles.State(), feedUrl, title, siteUrl, description,
             failures, errorCode, errorMessage, nextRetryAt, lastFetchedAt)
    }

    ghost function Row(): FeedRow
      reads this, articles
    {
      FeedRow(generation, lastAttemptAt, StatusFields())
    }

    constructor (url: string, title: string)
      ensures fresh(articles)
      ensures Row() == FeedRow(0, None, Status(Table(map[], 0), url, title, "", "", 0, "", "", None, None))
    {
      articles := new Articles();
      feedUrl, this.title, siteUrl, description := url, title, "", "";
      generation, lastAttemptAt := 0, None;
      failures, errorCode, errorMessage, nextRetryAt, lastFetchedAt := 0, "", "", None, None;
    }

    method ClaimRefreshAttempt(attemptedAt: int) returns (claimed: nat)
      modifies this`generation, this`lastAttemptAt
      ensures Row() == Claimed(old(Row()), attemptedAt)
      ensures claimed == Row().generation
    {
      generation := generation + 1;
      lastAttemptAt := Some(attemptedAt);
      claimed := generation;
    }

    method RecordRefreshFailure(attempt: nat, code: string, message: string, failedAt: int) returns (owns: bool)
      modifies this`failures, this`errorCode, this`errorMessage, this`nextRetryAt
      ensures owns <==> attempt == old(generation)
      ensures Row() == if owns then old(Row()).(status := Failed(old(Row()).status, code, message, failedAt))
                       else old(Row())
    {
      owns := generation == attempt;
      if owns {
        failures := failures + 1;
        errorCode, errorMessage := code, message;
        nextRetryAt := Some(failedAt + RetryDelay(failures));
      }
    }

    method RecordSuccess(document: Document, succeededAt: int)
      modifies this`title, this`siteUrl, this`description, this`lastFetchedAt,
               this`errorCode, this`errorMessage, this`failures, this`nextRetryAt
      ensures StatusFields() == Succeeded(old(StatusFields()), document, articles.State(), succeededAt)
    {
      title := if document.title != "" then document.title else if title != "" then title else feedUrl;
      siteUrl := if document.link != "" then document.link else siteUrl;
      description := if document.subtitle != "" then document.subtitle
                     else if document.description != "" then document.description else description;
      lastFetchedAt := Some(succeededAt);
      errorCode, errorMessage, failures, nextRetryAt := "", "", 0, None;
    }

    /** The committing transaction of `refresh_feed`: ownership check, plan, row-by-row
        writes and status update. A conflict rolls everything back. */
    method CommitRefresh(attempt: nat, document: Document, now: int) returns (result: CommitResult)
      requires Valid(articles.State())
      modifies this, articles
      ensures Valid(articles.State())
      ensures result.Superseded? <==> attempt != old(generation)
      ensures result.Conflicted? ==> Conflict(old(articles.rows), document.entries)
      ensures !result.Committed? ==> Row() == old(Row())
      ensures result.Committed? ==>
                && Reconcile(old(articles.State()), document.entries, now).Some?
                && Row() == old(Row()).(status := Settle(old(StatusFields()), Success(document, now)))
                && result.created == |articles.rows| - |old(articles.rows)|
                && result.created + result.updated == |Plan(old(articles.rows), document.entries)|
    {
      if generation != attempt {
        return Superseded;
      }
      var counts := articles.ReconcileDocument(document.entries, now);
      if counts.None? {
        return Conflicted;
      }
      RecordSuccess(document, now);
      return Committed(counts.value.0, counts.value.1);
    }

    /** `refresh_feed` when nothing interrupts it: it always owns its outcome, and the
        feed's status settles to exactly that outcome. */
    method RefreshFeed(fetched: Fetched, attemptedAt: int, succeededAt: int, failedAt: int)
      returns (result: RefreshResult)
      requires Valid(articles.State())
      modifies this, articles
      ensures Valid(articles.State())
      ensures !result.SupersededResult?
      ensures Row().generation == old(generation) + 1 && Row().lastAttemptAt == Some(attemptedAt)
      ensures result.Refreshed? <==>
              fetched.Parsed? && Reconcile(old(articles.State()), fetched.document.entries, succeededAt).Some?
      ensures result.Refreshed? ==>
                StatusFields() == Settle(old(StatusFields()), Success(fetched.document, succeededAt))
      ensures result.RefreshFailed? ==>
                StatusFields() == Settle(old(StatusFields()), Failure(result.code, result.message, failedAt))
      ensures result.RefreshFailed? ==>
                (result.code, result.message) ==
                if fetched.Broken? then (fetched.code, fetched.message)
                else ("integrity_error", "The feed conflicted with existing article data.")
    {
      var attempt := ClaimRefreshAttempt(attemptedAt);
      var code, message := CONFLICT_CODE, CONFLICT_MESSAGE;
      match fetched {
        case Broken(c, m) => code, message := c, m;
        case Parsed(document) =>
          var committed := CommitRefresh(attempt, document, succeededAt);
          match committed {
            case Superseded => return SupersededResult;
            case Committed(created, updated) => return Refreshed(created, updated);
            case Conflicted =>
          }
      }
      var owns := RecordRefreshFailure(attempt, code, message, failedAt);
      return if owns then RefreshFailed(code, message) else SupersededResult;
    }
  }
}
