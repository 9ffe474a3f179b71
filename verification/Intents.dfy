/** One save intent and the remote bookmarks its attempts create. The article's url is taken as
    unchanged, and one actor at a time works on the intent. */
module Intents {
  import opened Common
  import opened Delivery

  /** What `find_linkding_bookmark` meets: a truthful answer, with the id of what is there; or a
      transport error, rejection or unreadable reply, all of which count as nothing found. */
  datatype Lookup = Answers(id: string) | Fails

  /** One attempt: whether failed deliveries are requeued right before it, how a lookup would go,
      whether Linkding would create a bookmark if posted to, the reply the client sees, and whether
      the outcome reaches the delivery row. */
  datatype Try = Try(requeued: bool, lookup: Lookup, creates: bool, reply: Reply, recorded: bool, at: int)

  datatype Intent = Intent(row: Row, created: nat)

  /** The row an attempt starts from. Requeueing touches permanently failed rows only. */
  function Before(row: Row, t: Try): Row { if t.requeued then Requeued(row, t.at) else row }

  /** `_deliver_bookmark`: an attempt after the first looks the url up, adopts what it finds, and
      posts when it finds nothing. `present` says a bookmark existed before. */
  function AttemptIntent(maximum: nat, i: Intent, present: bool, t: Try): Intent {
    var row := Before(i.row, t);
    if !Retryable(row) then i
    else
      var adopts := row.attempts + 1 > 1 && t.lookup.Answers? && (present || i.created > 0);
      var reply := if adopts then Bookmark(t.lookup.id) else t.reply;
      Intent(if t.recorded then Written(row, AfterAttempt(maximum, row, t.at, reply)) else row,
             if !adopts && t.creates then i.created + 1 else i.created)
  }

  /** The intent after its first `k` attempts. */
  function RunIntent(maximum: nat, i: Intent, present: bool, tries: seq<Try>): Intent {
    if tries == [] then i
    else AttemptIntent(maximum, RunIntent(maximum, i, present, tries[..|tries| - 1]), present, tries[|tries| - 1])
  }

  function Saved(url: string, at: int): Intent { Intent(Enqueued(url, at), 0) }

  /** Stored outcomes counted on from `attempts`, and anew from each requeue. */
  function Counted(attempts: nat, tries: seq<Try>): nat {
    if tries == [] then attempts
    else
      var last := tries[|tries| - 1];
      (if last.requeued then 0 else Counted(attempts, tries[..|tries| - 1])) + if last.recorded then 1 else 0
  }

  /** What is settled before any reply: when failed deliveries are requeued, which outcomes get
      stored, and which lookups are answered. */
  datatype Fate = Fate(requeued: bool, recorded: bool, answered: bool)

  predicate Meets(t: Try, f: Fate) {
    t.requeued == f.requeued && t.recorded == f.recorded && t.lookup.Answers? == f.answered
  }

  ghost predicate Follows(tries: seq<Try>, fates: seq<Fate>) {
    |tries| == |fates| && forall k :: 0 <= k < |tries| ==> Meets(tries[k], fates[k])
  }

  function StoredOutcomes(fates: seq<Fate>): nat {
    if fates == [] then 0 else StoredOutcomes(fates[..|fates| - 1]) + if fates[|fates| - 1].recorded then 1 else 0
  }

  /** Attempt `k` can still come about: the budget lasts, and no earlier attempt both found the
      bookmark that was there all along and stored that. */
  ghost predicate Reachable(maximum: nat, present: bool, fates: seq<Fate>, k: nat)
    requires k <= |fates|
  {
    && StoredOutcomes(fates[..k]) < maximum
    && (present ==> forall j :: 1 <= j < k ==> !(fates[j].recorded && fates[j].answered))
  }

  /** Every attempt that can come about after the first looks before it posts, and is answered; and
      none is a first attempt again. */
  ghost predicate NeverBlind(maximum: nat, present: bool, fates: seq<Fate>) {
    |fates| <= 1 ||
    (&& fates[0].recorded
     && (forall k :: 1 <= k < |fates| ==> !fates[k].requeued)
     && (forall k :: 1 <= k < |fates| && Reachable(maximum, present, fates, k) ==> fates[k].answered))
  }

  // ----- enough -----

  /** An intent that is still open has counted exactly its stored outcomes. */
  lemma {:induction false} OpenIntentIsReachable(maximum: nat, url: string, at: int, present: bool, tries: seq<Try>,
                                                 fates: seq<Fate>, k: nat)
    requires maximum >= 1 && Follows(tries, fates) && k <= |fates| && (|fates| > 0 ==> k == 0 || fates[0].recorded)
    requires forall n :: 1 <= n < k ==> !fates[n].requeued
    ensures var i := RunIntent(maximum, Saved(url, at), present, tries[..k]);
      Retryable(i.row) ==> i.row.attempts == StoredOutcomes(fates[..k]) && Reachable(maximum, present, fates, k)
  {
    if k > 0 {
      OpenIntentIsReachable(maximum, url, at, present, tries, fates, k - 1);
      assert tries[..k][..k - 1] == tries[..k - 1] && fates[..k][..k - 1] == fates[..k - 1];
      assert Meets(tries[k - 1], fates[k - 1]);
      if k > 1 {
        StoredFromTheFirst(fates, k - 1);
      }
    } else {
      assert tries[..0] == [] && fates[..0] == [];
    }
  }

  lemma {:induction false} StoredFromTheFirst(fates: seq<Fate>, k: nat)
    requires 1 <= k <= |fates| && fates[0].recorded
    ensures StoredOutcomes(fates[..k]) >= 1
  {
    assert fates[..k][..k - 1] == fates[..k - 1];
    if k > 1 {
      StoredFromTheFirst(fates, k - 1);
    }
  }

  lemma {:induction false} NeverBlindCreatesAtMostOne(maximum: nat, url: string, at: int, present: bool,
                                                      tries: seq<Try>, fates: seq<Fate>, k: nat)
    requires maximum >= 1 && Follows(tries, fates) && NeverBlind(maximum, present, fates) && k <= |fates|
    ensures RunIntent(maximum, Saved(url, at), present, tries[..k]).created <= 1
  {
    if k > 0 {
      NeverBlindCreatesAtMostOne(maximum, url, at, present, tries, fates, k - 1);
      assert tries[..k][..k - 1] == tries[..k - 1];
      assert Meets(tries[k - 1], fates[k - 1]);
      if k > 1 {
        OpenIntentIsReachable(maximum, url, at, present, tries, fates, k - 1);
        StoredFromTheFirst(fates, k - 1);
      } else {
        assert tries[..0] == [];
      }
    }
  }

  // ----- and needed -----

  /** Linkding at its worst for blind attempt `k`: every reply is lost, and only the last attempt
      that still posts before it, and it, create. */
  function Worst(present: bool, k: nat, fates: seq<Fate>, at: int): (tries: seq<Try>)
    ensures |tries| == |fates|
  {
    var first := if present || k == 0 then 0 else k - 1;
    seq(|fates|, j requires 0 <= j < |fates| =>
      Try(fates[j].requeued, if fates[j].answered then Answers("") else Fails, j == first || j == k,
          Raised(TimeoutError, ""), fates[j].recorded, at))
  }

  /** An open intent after an attempt whose reply is lost. An attempt that adopts what it found is
      settled unless its outcome is lost as well. */
  lemma AfterLostReply(maximum: nat, i: Intent, present: bool, t: Try)
    requires Retryable(i.row) && t.reply == Raised(TimeoutError, "")
    ensures var j, adopts := AttemptIntent(maximum, i, present, t),
                i.row.attempts > 0 && t.lookup.Answers? && (present || i.created > 0);
      && j.created == i.created + (if t.creates && !adopts then 1 else 0)
      && j.row.attempts == i.row.attempts + (if t.recorded then 1 else 0)
      && (Retryable(j.row) <==> !t.recorded || (!adopts && j.row.attempts < maximum))
  {
  }

  /** Before blind attempt `k` the intent is open, has counted its stored outcomes, and has
      created the one bookmark. */
  lemma {:induction false} WorstReaches(maximum: nat, url: string, at: int, present: bool, fates: seq<Fate>, k: nat,
                                        j: nat)
    requires maximum >= 1 && 1 <= k < |fates| && j <= k
    requires Reachable(maximum, present, fates, k)
    requires k == 1 || (fates[0].recorded && forall n :: 1 <= n < k ==> fates[n].answered)
    ensures var i := RunIntent(maximum, Saved(url, at), present, Worst(present, k, fates, at)[..j]);
      && Retryable(i.row) && i.row.attempts == StoredOutcomes(fates[..j])
      && i.created == if j == 0 || (!present && j < k) then 0 else 1
  {
    var tries := Worst(present, k, fates, at);
    if j == 0 {
      assert tries[..0] == [] && fates[..0] == [];
    } else {
      WorstReaches(maximum, url, at, present, fates, k, j - 1);
      assert tries[..j][..j - 1] == tries[..j - 1] && fates[..j][..j - 1] == fates[..j - 1];
      StoredGrows(fates, j, k);
      AfterLostReply(maximum, RunIntent(maximum, Saved(url, at), present, tries[..j - 1]), present, tries[j - 1]);
      if j > 1 {
        StoredFromTheFirst(fates, j - 1);
      }
    }
  }

  /** Linkding at its worst for a requeue before attempt `k`: the first attempt creates the bookmark
      and fails for good, and so does attempt `k`. */
  function Refused(k: nat, fates: seq<Fate>, at: int): (tries: seq<Try>)
    ensures |tries| == |fates|
  {
    seq(|fates|, j requires 0 <= j < |fates| =>
      Try(fates[j].requeued, if fates[j].answered then Answers("") else Fails, j == 0 || j == k,
          Raised(BookmarkUrlMismatch, ""), fates[j].recorded, at))
  }

  lemma {:induction false} RefusedWaits(maximum: nat, url: string, at: int, present: bool, fates: seq<Fate>, k: nat,
                                        j: nat)
    requires 1 <= j <= k < |fates| && fates[0].recorded && forall n :: 1 <= n < k ==> !fates[n].requeued
    ensures var i := RunIntent(maximum, Saved(url, at), present, Refused(k, fates, at)[..j]);
      i.row.state.PermanentFailed? && i.created == 1
  {
    var tries := Refused(k, fates, at);
    assert tries[..j][..j - 1] == tries[..j - 1];
    if j > 1 {
      RefusedWaits(maximum, url, at, present, fates, k, j - 1);
    } else {
      assert tries[..0] == [];
    }
  }

  /** An attempt on a requeued delivery posts without a lookup. */
  lemma AfterRequeue(maximum: nat, i: Intent, present: bool, t: Try)
    requires i.row.state.PermanentFailed? && t.requeued
    ensures AttemptIntent(maximum, i, present, t).created == i.created + (if t.creates then 1 else 0)
  {
  }

  lemma {:induction false} RequeueDuplicates(maximum: nat, url: string, at: int, present: bool, fates: seq<Fate>,
                                             k: nat)
    requires 1 <= k < |fates| && fates[0].recorded && fates[k].requeued
    ensures exists tries :: Follows(tries, fates) && RunIntent(maximum, Saved(url, at), present, tries).created >= 2
    decreases k
  {
    if n :| 1 <= n < k && fates[n].requeued {
      RequeueDuplicates(maximum, url, at, present, fates, n);
    } else {
      var tries := Refused(k, fates, at);
      RefusedWaits(maximum, url, at, present, fates, k, k);
      assert Follows(tries, fates);
      assert tries[..k + 1][..k] == tries[..k];
      AfterRequeue(maximum, RunIntent(maximum, Saved(url, at), present, tries[..k]), present, tries[k]);
      CreationsOnlyGrow(maximum, Saved(url, at), present, tries, k + 1);
    }
  }

  lemma {:induction false} StoredGrows(fates: seq<Fate>, j: nat, k: nat)
    requires j <= k <= |fates|
    ensures StoredOutcomes(fates[..j]) <= StoredOutcomes(fates[..k])
    decreases k
  {
    if j < k {
      assert fates[..k][..k - 1] == fates[..k - 1];
      StoredGrows(fates, j, k - 1);
    }
  }

  lemma {:induction false} CreationsOnlyGrow(maximum: nat, i: Intent, present: bool, tries: seq<Try>, k: nat)
    requires k <= |tries|
    ensures RunIntent(maximum, i, present, tries[..k]).created <= RunIntent(maximum, i, present, tries).created
  {
    if k < |tries| {
      assert tries[..|tries| - 1][..k] == tries[..k];
      CreationsOnlyGrow(maximum, i, present, tries[..|tries| - 1], k);
    } else {
      assert tries[..k] == tries;
    }
  }

  /** A first blind attempt that can come about. */
  lemma FirstBlind(maximum: nat, present: bool, fates: seq<Fate>) returns (k: nat)
    requires maximum >= 1 && !NeverBlind(maximum, present, fates)
    requires fates[0].recorded ==> forall n :: 1 <= n < |fates| ==> !fates[n].requeued
    ensures 1 <= k < |fates| && Reachable(maximum, present, fates, k)
    ensures (k == 1 && !fates[0].recorded) || !fates[k].answered
    ensures k == 1 || (fates[0].recorded && forall n :: 1 <= n < k ==> fates[n].answered)
  {
    if !fates[0].recorded {
      k := 1;
      assert fates[..1][..0] == [];
      assert StoredOutcomes(fates[..1]) == 0;
    } else {
      k :| 1 <= k < |fates| && Reachable(maximum, present, fates, k) && !fates[k].answered;
      while exists n :: 1 <= n < k && !fates[n].answered
        invariant 1 <= k < |fates| && Reachable(maximum, present, fates, k) && !fates[k].answered
        decreases k
      {
        var n :| 1 <= n < k && !fates[n].answered;
        StoredGrows(fates, n, k);
        k := n;
      }
    }
  }

  lemma BlindAttemptDuplicates(maximum: nat, url: string, at: int, present: bool, fates: seq<Fate>)
    requires maximum >= 1 && !NeverBlind(maximum, present, fates)
    requires fates[0].recorded ==> forall n :: 1 <= n < |fates| ==> !fates[n].requeued
    ensures exists tries :: Follows(tries, fates) && RunIntent(maximum, Saved(url, at), present, tries).created >= 2
  {
    var k := FirstBlind(maximum, present, fates);
    var tries := Worst(present, k, fates, at);
    WorstReaches(maximum, url, at, present, fates, k, k);
    assert Follows(tries, fates);
    if !fates[0].recorded {
      assert fates[..1][..0] == [];
      assert StoredOutcomes(fates[..1]) == 0;
    }
    assert tries[..k + 1][..k] == tries[..k];
    AfterLostReply(maximum, RunIntent(maximum, Saved(url, at), present, tries[..k]), present, tries[k]);
    CreationsOnlyGrow(maximum, Saved(url, at), present, tries, k + 1);
  }

  /** Main result on duplicates: whatever Linkding replies, a save intent creates at most one
      bookmark if and only if no attempt that can come about posts blindly: the outcome of the first
      attempt is stored (or no second is made), no requeue comes after it, and every later lookup is
      answered. */
  lemma AtMostOneBookmarkIff(maximum: nat, url: string, at: int, present: bool, fates: seq<Fate>)
    requires maximum >= 1
    ensures (forall tries :: Follows(tries, fates) ==> RunIntent(maximum, Saved(url, at), present, tries).created <= 1)
            <==> NeverBlind(maximum, present, fates)
  {
    if NeverBlind(maximum, present, fates) {
      forall tries | Follows(tries, fates) ensures RunIntent(maximum, Saved(url, at), present, tries).created <= 1 {
        NeverBlindCreatesAtMostOne(maximum, url, at, present, tries, fates, |fates|);
        assert tries[..|fates|] == tries;
      }
    } else if k :| 1 <= k < |fates| && fates[0].recorded && fates[k].requeued {
      RequeueDuplicates(maximum, url, at, present, fates, k);
    } else {
      BlindAttemptDuplicates(maximum, url, at, present, fates);
    }
  }

  /** Storing the first outcome is not enough: the bookmark is created, its reply is lost, that is
      stored, and the next lookup times out. */
  lemma FailedLookupDuplicates(maximum: nat, url: string, at: int)
    requires maximum >= 2
    ensures var lost := Raised(TimeoutError, "");
      var tries := [Try(false, Answers(""), true, lost, true, at), Try(false, Fails, true, lost, true, at + 300)];
      RunIntent(maximum, Saved(url, at), false, tries).created == 2
  {
    var lost := Raised(TimeoutError, "");
    var tries := [Try(false, Answers(""), true, lost, true, at), Try(false, Fails, true, lost, true, at + 300)];
    assert tries[..1] == [tries[0]] && tries[..1][..0] == [];
    assert RunIntent(maximum, Saved(url, at), false, tries[..1]) ==
        AttemptIntent(maximum, Saved(url, at), false, tries[0]);
  }

  /** With answered lookups throughout it takes a requeue: the budget of one attempt is spent on a
      reply that is lost, and the requeued delivery posts as if it were new. */
  lemma RequeuedDeliveryDuplicates(url: string, at: int)
    ensures var lost := Raised(TimeoutError, "");
      var tries := [Try(false, Answers(""), true, lost, true, at), Try(true, Answers(""), true, lost, true, at + 300)];
      RunIntent(1, Saved(url, at), false, tries).created == 2
  {
    var lost := Raised(TimeoutError, "");
    var tries := [Try(false, Answers(""), true, lost, true, at), Try(true, Answers(""), true, lost, true, at + 300)];
    assert tries[..1] == [tries[0]] && tries[..1][..0] == [];
    assert RunIntent(1, Saved(url, at), false, tries[..1]) == AttemptIntent(1, Saved(url, at), false, tries[0]);
  }

  // ----- how many there can be -----

  /** This attempt posts without having been told that nothing is there. */
  predicate PostsBlindly(i: Intent, t: Try) {
    var row := Before(i.row, t);
    Retryable(row) && (row.attempts == 0 || t.lookup.Fails?)
  }

  function BlindPosts(maximum: nat, i: Intent, present: bool, tries: seq<Try>): nat {
    if tries == [] then 0
    else
      var before := tries[..|tries| - 1];
      BlindPosts(maximum, i, present, before) +
      if PostsBlindly(RunIntent(maximum, i, present, before), tries[|tries| - 1]) then 1 else 0
  }

  /** What went wrong: requeues, lookups that failed, outcomes that were not stored. */
  function Mishaps(tries: seq<Try>): nat {
    if tries == [] then 0
    else
      var last := tries[|tries| - 1];
      Mishaps(tries[..|tries| - 1]) +
      (if last.requeued then 1 else 0) + (if last.lookup.Fails? then 1 else 0) + (if last.recorded then 0 else 1)
  }

  /** Only a blind post can add to what a bookmark already made or sought. */
  lemma {:induction false} CreationsAreBlindPosts(maximum: nat, url: string, at: int, present: bool, tries: seq<Try>)
    ensures RunIntent(maximum, Saved(url, at), present, tries).created
            <= BlindPosts(maximum, Saved(url, at), present, tries)
    ensures tries != [] ==> BlindPosts(maximum, Saved(url, at), present, tries) >= 1
  {
    if tries != [] {
      CreationsAreBlindPosts(maximum, url, at, present, tries[..|tries| - 1]);
    }
  }

  /** Each blind post is the first one or is paid for by a mishap. */
  lemma {:induction false} BlindPostsAreMishaps(maximum: nat, url: string, at: int, present: bool, tries: seq<Try>)
    ensures var row := RunIntent(maximum, Saved(url, at), present, tries).row;
      BlindPosts(maximum, Saved(url, at), present, tries) + (if Retryable(row) && row.attempts == 0 then 1 else 0)
      <= 1 + Mishaps(tries)
  {
    if tries != [] {
      BlindPostsAreMishaps(maximum, url, at, present, tries[..|tries| - 1]);
    }
  }

  /** Second main result on duplicates, with no assumption at all: over any run of attempts and
      requeues a save intent creates at most one bookmark more than there were mishaps. */
  lemma EveryDuplicateNeedsAMishap(maximum: nat, url: string, at: int, present: bool, tries: seq<Try>)
    ensures RunIntent(maximum, Saved(url, at), present, tries).created <= 1 + Mishaps(tries)
  {
    CreationsAreBlindPosts(maximum, url, at, present, tries);
    BlindPostsAreMishaps(maximum, url, at, present, tries);
  }

  /** Retrying ends: once as many outcomes are recorded as the budget still allows, all since the
      last requeue if there was one, the delivery is settled one way or the other. */
  lemma {:induction false} RecordedOutcomesExhaustTheBudget(maximum: nat, i: Intent, present: bool, tries: seq<Try>)
    requires maximum >= 1 && (Retryable(i.row) ==> i.row.attempts < maximum)
    requires Counted(i.row.attempts, tries) >= maximum
    ensures !Retryable(RunIntent(maximum, i, present, tries).row)
  {
    OpenIntentCounts(maximum, i, present, tries);
  }

  lemma {:induction false} OpenIntentCounts(maximum: nat, i: Intent, present: bool, tries: seq<Try>)
    requires maximum >= 1 && (Retryable(i.row) ==> i.row.attempts < maximum)
    ensures var j := RunIntent(maximum, i, present, tries);
      Retryable(j.row) ==> Counted(i.row.attempts, tries) <= j.row.attempts < maximum
  {
    if tries != [] {
      OpenIntentCounts(maximum, i, present, tries[..|tries| - 1]);
    }
  }
}
