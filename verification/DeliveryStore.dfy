/** The delivery code itself: the stored row, the in-memory copies workers carry, and the
    drain loop, each proved against the state machine in Delivery. */
module DeliveryStore {
  import opened Common
  import opened Delivery

  /** A LinkdingDelivery object: either the database row or a copy some worker loaded. */
  class LinkdingDelivery {
    var url: string
    var state: DeliveryState
    var attempts: nat
    var lastAttemptAt: Option<int>
    var nextAttemptAt: Option<int>
    var deliveredAt: Option<int>
    var bookmarkId: string
    var errorClass: ErrorClass
    var errorMessage: string

    function Fields(): Row
      reads this
    {
      Row(url, state, attempts, lastAttemptAt, nextAttemptAt, deliveredAt, bookmarkId, errorClass, errorMessage)
    }

    constructor (r: Row)
      ensures Fields() == r
    {
      url, state, attempts, lastAttemptAt, nextAttemptAt, deliveredAt, bookmarkId, errorClass, errorMessage :=
        r.url, r.state, r.attempts, r.lastAttemptAt, r.nextAttemptAt, r.deliveredAt, r.bookmarkId, r.errorClass,
            r.errorMessage;
    }

    /** The `update_or_create` of `save_article`: a fresh intent restarts the budget. */
    method Enqueue(articleUrl: string, now: int)
      modifies this
      ensures Fields() == Enqueued(articleUrl, now)
    {
      url, state, attempts, nextAttemptAt := articleUrl, Queued, 0, Some(now);
      lastAttemptAt, deliveredAt, bookmarkId := None, None, "";
      errorClass, errorMessage := Unclassified, "";
    }

    /** The conditional update of `_claim_delivery`, run on the stored row. */
    method ClaimDelivery(copy: LinkdingDelivery, now: int) returns (claimed: bool)
      modifies this`nextAttemptAt
      ensures claimed <==> ClaimMatches(old(Fields()), old(copy.Fields()))
      ensures Fields() == if claimed then old(Fields()).(nextAttemptAt := Some(now + ATTEMPT_LEASE)) else old(Fields())
    {
      claimed := (state.Queued? || state.TransientFailed?) && nextAttemptAt == copy.nextAttemptAt;
      if claimed {
        nextAttemptAt := Some(now + ATTEMPT_LEASE);
      }
    }

    /** The `--requeue-failed` update, run on one stored row. */
    method RequeueFailed(now: int) returns (requeued: bool)
      modifies this
      ensures requeued <==> old(state).PermanentFailed?
      ensures Fields() == Requeued(old(Fields()), now)
    {
      requeued := state.PermanentFailed?;
      if requeued {
        state, attempts, nextAttemptAt := Queued, 0, Some(now);
        errorClass, errorMessage := Unclassified, "";
      }
    }

    /** `attempt_linkding_delivery` on this in-memory copy, saving its outcome to `stored`. */
    method AttemptLinkdingDelivery(stored: LinkdingDelivery, maximum: nat, now: int, reply: Reply)
      requires stored != this
      modifies this, stored
      ensures Fields() == AfterAttempt(maximum, old(Fields()), now, reply)
      ensures stored.Fields() == Written(old(stored.Fields()), Fields())
    {
      attempts := attempts + 1;
      lastAttemptAt := Some(now);
      match reply {
        case Raised(error, message) =>
          var (class_, retryable) := ClassifyLinkdingError(error);
          errorClass, errorMessage, deliveredAt := class_, message, None;
          var again := retryable && attempts < maximum;
          state := if again then TransientFailed else PermanentFailed;
          nextAttemptAt := if again then Some(now + RetryDelay(attempts)) else None;
        case Bookmark(id) =>
          state, deliveredAt, nextAttemptAt := Succeeded, Some(now), None;
          bookmarkId := id[..Min(|id|, 64)];
          errorClass, errorMessage := Unclassified, "";
      }
      SaveOutcome(stored);
    }

    /** The attempt's `save(update_fields=...)`: everything but the url. */
    method SaveOutcome(stored: LinkdingDelivery)
      requires stored != this
      modifies stored
      ensures stored.Fields() == Written(old(stored.Fields()), Fields())
    {
      stored.state, stored.attempts, stored.lastAttemptAt := state, attempts, lastAttemptAt;
      stored.nextAttemptAt, stored.deliveredAt, stored.bookmarkId := nextAttemptAt, deliveredAt, bookmarkId;
      stored.errorClass, stored.errorMessage := errorClass, errorMessage;
    }
  }

  // ----- the drain loop -----

  datatype DeliveryTally = DeliveryTally(attempted: nat, succeeded: nat, transient: nat, permanent: nat)

  /** One due delivery as the drain meets it: the copy its query loaded, the row as stored
      by the time of the claim, the two clock readings and Linkding's answer. */
  datatype Due = Due(copy: Row, stored: Row, claimAt: int, attemptAt: int, reply: Reply)

  /** What the drain leaves in the stored row, and in its own copy. */
  function Drained(maximum: nat, d: Due): Row {
    if ClaimMatches(d.stored, d.copy)
    then Written(d.stored, AfterAttempt(maximum, d.copy, d.attemptAt, d.reply))
    else d.stored
  }

  function Tally(maximum: nat, ds: seq<Due>): DeliveryTally {
    if ds == [] then DeliveryTally(0, 0, 0, 0)
    else
      var t, d := Tally(maximum, ds[..|ds| - 1]), ds[|ds| - 1];
      if !ClaimMatches(d.stored, d.copy) then t
      else match Drained(maximum, d).state
        case Succeeded => t.(attempted := t.attempted + 1, succeeded := t.succeeded + 1)
        case TransientFailed => t.(attempted := t.attempted + 1, transient := t.transient + 1)
        case _ => t.(attempted := t.attempted + 1, permanent := t.permanent + 1)
  }

  /** Every attempt is counted once, under the state it left in the database. */
  lemma {:induction false} TallyAddsUp(maximum: nat, ds: seq<Due>)
    ensures var t := Tally(maximum, ds); t.attempted == t.succeeded + t.transient + t.permanent
    ensures Tally(maximum, ds).attempted <= |ds|
    ensures Tally(maximum, ds).attempted == |ds| <==>
            forall i :: 0 <= i < |ds| ==> ClaimMatches(ds[i].stored, ds[i].copy)
  {
    if ds != [] {
      TallyAddsUp(maximum, ds[..|ds| - 1]);
      assert forall i :: 0 <= i < |ds| - 1 ==> ds[..|ds| - 1][i] == ds[i];
    }
  }

  /** One turn of the drain: claim the row, and if that worked attempt the delivery. */
  method DeliverOne(row: LinkdingDelivery, d: Due, maximum: nat) returns (attempted: bool, state: DeliveryState)
    requires row.Fields() == d.stored
    modifies row
    ensures row.Fields() == Drained(maximum, d)
    ensures attempted == ClaimMatches(d.stored, d.copy)
    ensures attempted ==> state == Drained(maximum, d).state
  {
    var delivery := new LinkdingDelivery(d.copy);
    attempted := row.ClaimDelivery(delivery, d.claimAt);
    if attempted {
      delivery.AttemptLinkdingDelivery(row, maximum, d.attemptAt, d.reply);
    }
    state := delivery.state;
  }

  /** The loop of `deliver_pending_saved_articles` over the rows its query found due. A row
      another worker has moved meanwhile is left exactly as it is. */
  method DeliverPending(rows: seq<LinkdingDelivery>, ds: seq<Due>, maximum: nat) returns (tally: DeliveryTally)
    requires |rows| == |ds|
    requires forall i, j :: 0 <= i < j < |rows| ==> rows[i] != rows[j]
    requires forall i :: 0 <= i < |rows| ==> rows[i].Fields() == ds[i].stored
    modifies rows
    ensures forall i :: 0 <= i < |rows| ==> rows[i].Fields() == Drained(maximum, ds[i])
    ensures tally == Tally(maximum, ds)
  {
    var attempted, succeeded, transient, permanent := 0, 0, 0, 0;
    for n := 0 to |rows|
      invariant forall i :: 0 <= i < n ==> rows[i].Fields() == Drained(maximum, ds[i])
      invariant forall i :: n <= i < |rows| ==> rows[i].Fields() == ds[i].stored
      invariant DeliveryTally(attempted, succeeded, transient, permanent) == Tally(maximum, ds[..n])
    {
      assert ds[..n + 1][..n] == ds[..n];
      var claimed, state := DeliverOne(rows[n], ds[n], maximum);
      if !claimed {
        continue;
      }
      attempted := attempted + 1;
      if state.Succeeded? {
        succeeded := succeeded + 1;
      } else if state.TransientFailed? {
        transient := transient + 1;
      } else {
        permanent := permanent + 1;
      }
    }
    assert ds[..|ds|] == ds;
    return DeliveryTally(attempted, succeeded, transient, permanent);
  }
}
