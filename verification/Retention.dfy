/** The receiver's fixed retention policy: the newest pair, everything a week old or
    younger, and the earliest-received pair of each day, week and month bucket. */
module Retention {
  import opened Common

  const DAY := 86400

  /** `receivedAt` and `now` count seconds from the calendar's first day. */
  datatype StoredPair = StoredPair(backupId: string, receivedAt: nat, sequence: nat)

  datatype Bucket = DayBucket(day: nat) | WeekBucket(week: nat) | MonthBucket(month: nat)

  function DayOf(t: nat): nat { t / DAY }

  /** Which day an ISO week starts on only shifts the count; `offset` is that shift. */
  datatype Calendar = Calendar(offset: nat, month: nat -> nat)

  function WeekOf(c: Calendar, day: nat): nat { (day + c.offset) / 7 }

  /** All the policy needs of months: they never run backwards, and 28 days never reach
      past the next month. */
  ghost predicate MonthsLast28Days(c: Calendar) {
    && (forall d: nat, e: nat :: d <= e ==> c.month(d) <= c.month(e))
    && (forall d: nat :: c.month(d + 28) <= c.month(d) + 1)
  }

  function Age(now: nat, p: StoredPair): int { now - p.receivedAt }

  predicate Recent(now: nat, p: StoredPair) { Age(now, p) <= 7 * DAY }

  /** The tier bucket of a pair that is neither recent nor more than a year old. */
  function BucketOf(c: Calendar, now: nat, p: StoredPair): Option<Bucket> {
    if Recent(now, p) then None
    else if Age(now, p) <= 30 * DAY then Some(DayBucket(DayOf(p.receivedAt)))
    else if Age(now, p) <= 90 * DAY then Some(WeekBucket(WeekOf(c, DayOf(p.receivedAt))))
    else if Age(now, p) <= 365 * DAY then Some(MonthBucket(c.month(DayOf(p.receivedAt))))
    else None
  }

  // ----- the policy, as Python's max and min choose -----

  /** `max(pairs, key=sequence)`: the first of the largest. */
  function Newest(pairs: seq<StoredPair>): (p: StoredPair)
    requires pairs != []
    ensures p in pairs
    ensures forall q :: q in pairs ==> q.sequence <= p.sequence
  {
    if |pairs| == 1 then pairs[0]
    else
      var init := Newest(pairs[..|pairs| - 1]);
      var last := pairs[|pairs| - 1];
      assert forall q :: q in pairs ==> q in pairs[..|pairs| - 1] || q == last;
      if last.sequence > init.sequence then last else init
  }

  /** `min(candidates, key=sequence)`: the first of the smallest. */
  function Earliest(pairs: seq<StoredPair>): (p: StoredPair)
    requires pairs != []
    ensures p in pairs
    ensures forall q :: q in pairs ==> p.sequence <= q.sequence
  {
    if |pairs| == 1 then pairs[0]
    else
      var init := Earliest(pairs[..|pairs| - 1]);
      var last := pairs[|pairs| - 1];
      assert forall q :: q in pairs ==> q in pairs[..|pairs| - 1] || q == last;
      if last.sequence < init.sequence then last else init
  }

  /** The members of a bucket among `pairs`, the newest pair aside. */
  function Candidates(c: Calendar, pairs: seq<StoredPair>, newest: StoredPair, now: nat,
                      b: Bucket): (r: seq<StoredPair>)
    ensures forall p :: p in r <==> p in pairs && p != newest && BucketOf(c, now, p) == Some(b)
  {
    if pairs == [] then []
    else
      var init, last := Candidates(c, pairs[..|pairs| - 1], newest, now, b), pairs[|pairs| - 1];
      assert forall q :: q in pairs <==> q in pairs[..|pairs| - 1] || q == last;
      if last != newest && BucketOf(c, now, last) == Some(b) then init + [last] else init
  }

  predicate Kept(c: Calendar, pairs: seq<StoredPair>, now: nat, p: StoredPair) {
    && p in pairs
    && (|| p == Newest(pairs)
        || Recent(now, p)
        || (BucketOf(c, now, p).Some?
            && p == Earliest(Candidates(c, pairs, Newest(pairs), now, BucketOf(c, now, p).value))))
  }

  ghost predicate NoDuplicates<T>(s: seq<T>) { forall i, j :: 0 <= i < j < |s| ==> s[i] != s[j] }

  /** `keep` and `delete` are exactly the kept and the other members of `pairs`. */
  ghost predicate Partitions(c: Calendar, pairs: seq<StoredPair>, now: nat, keep: seq<StoredPair>,
                             delete: seq<StoredPair>) {
    && NoDuplicates(keep) && NoDuplicates(delete)
    && (forall p :: p in keep <==> Kept(c, pairs, now, p))
    && (forall p :: p in delete <==> p in pairs && !Kept(c, pairs, now, p))
  }

  // ----- with distinct sequences the policy does not depend on list order -----

  ghost predicate DistinctSequences(pairs: seq<StoredPair>) {
    forall p, q :: p in pairs && q in pairs && p.sequence == q.sequence ==> p == q
  }

  ghost predicate KeptByOrder(c: Calendar, pairs: seq<StoredPair>, now: nat, p: StoredPair) {
    && p in pairs
    && (|| (forall q :: q in pairs ==> q.sequence <= p.sequence)
        || Recent(now, p)
        || (BucketOf(c, now, p).Some?
            && forall q :: q in pairs && BucketOf(c, now, q) == BucketOf(c, now, p) ==> p.sequence <= q.sequence))
  }

  /** The newest pair never wins a bucket it shares, so setting it aside changes nothing. */
  lemma KeptIgnoresListOrder(c: Calendar, pairs: seq<StoredPair>, now: nat, p: StoredPair)
    requires DistinctSequences(pairs)
    ensures Kept(c, pairs, now, p) <==> KeptByOrder(c, pairs, now, p)
  {
    if p in pairs && p != Newest(pairs) && BucketOf(c, now, p).Some? {
      var candidates := Candidates(c, pairs, Newest(pairs), now, BucketOf(c, now, p).value);
      assert p in candidates;
      assert Earliest(candidates) in pairs;
    }
  }

  /** Retention is idempotent at a fixed time: what was kept is kept again. */
  lemma RetentionIsIdempotent(c: Calendar, pairs: seq<StoredPair>, keep: seq<StoredPair>, delete: seq<StoredPair>,
                              now: nat)
    requires DistinctSequences(pairs) && Partitions(c, pairs, now, keep, delete)
    ensures forall p :: p in keep ==> Kept(c, keep, now, p)
    ensures Partitions(c, keep, now, keep, [])
  {
    forall p | p in keep ensures Kept(c, keep, now, p) {
      assert p in pairs;
      KeptIgnoresListOrder(c, pairs, now, p);
      assert forall q :: q in keep ==> q in pairs;
      KeptIgnoresListOrder(c, keep, now, p);
    }
  }

  /** Pairs received later never evict a kept pair, except that the pair which was newest
      loses that privilege. */
  lemma LaterPairsEvictNothing(c: Calendar, pairs: seq<StoredPair>, later: seq<StoredPair>, now: nat, p: StoredPair)
    requires DistinctSequences(pairs + later)
    requires forall q, r :: q in pairs && r in later ==> q.sequence < r.sequence
    requires Kept(c, pairs, now, p) && p != Newest(pairs)
    ensures Kept(c, pairs + later, now, p)
  {
    assert forall q :: q in pairs ==> q in pairs + later;
    KeptIgnoresListOrder(c, pairs, now, p);
    KeptIgnoresListOrder(c, pairs + later, now, p);
  }

  // ----- one kept pair per bucket, and how many buckets there can be -----

  ghost function TierPairs(c: Calendar, pairs: seq<StoredPair>, now: nat, buckets: set<Bucket>): set<StoredPair> {
    set p | p in pairs && Kept(c, pairs, now, p) && p != Newest(pairs)
            && BucketOf(c, now, p).Some? && BucketOf(c, now, p).value in buckets
  }

  /** A bucket that has members keeps the one with the lowest sequence number. */
  lemma NonemptyBucketKeepsItsEarliest(c: Calendar, pairs: seq<StoredPair>, now: nat, b: Bucket)
    requires exists p :: p in pairs && p != Newest(pairs) && BucketOf(c, now, p) == Some(b)
    ensures exists k :: Kept(c, pairs, now, k) && k != Newest(pairs) && BucketOf(c, now, k) == Some(b)
                        && forall q :: q in pairs && q != Newest(pairs) && BucketOf(c, now, q) == Some(b) ==>
                                         k.sequence <= q.sequence
  {
    var k := Earliest(Candidates(c, pairs, Newest(pairs), now, b));
    assert Kept(c, pairs, now, k);
  }

  lemma {:induction false} OneKeptPairPerBucket(c: Calendar, pairs: seq<StoredPair>, now: nat, buckets: set<Bucket>)
    ensures |TierPairs(c, pairs, now, buckets)| <= |buckets|
    decreases |buckets|
  {
    if buckets == {} {
      assert TierPairs(c, pairs, now, buckets) == {};
    } else {
      var b :| b in buckets;
      OneKeptPairPerBucket(c, pairs, now, buckets - {b});
      var rest, all := TierPairs(c, pairs, now, buckets - {b}), TierPairs(c, pairs, now, buckets);
      if p :| p in all && p !in rest {
        assert all == rest + {p};
      } else {
        assert all == rest;
      }
    }
  }

  datatype Tier = Daily | Weekly | Monthly

  function TierBucket(tier: Tier, n: nat): Bucket {
    match tier
    case Daily => DayBucket(n)
    case Weekly => WeekBucket(n)
    case Monthly => MonthBucket(n)
  }

  predicate InTier(tier: Tier, b: Bucket) {
    match tier
    case Daily => b.DayBucket?
    case Weekly => b.WeekBucket?
    case Monthly => b.MonthBucket?
  }

  ghost function BucketRange(tier: Tier, lo: nat, n: nat): set<Bucket> {
    set k: nat | lo <= k < lo + n :: TierBucket(tier, k)
  }

  lemma {:induction false} BucketRangeSize(tier: Tier, lo: nat, n: nat)
    ensures |BucketRange(tier, lo, n)| == n
  {
    if n == 0 {
      assert BucketRange(tier, lo, 0) == {};
    } else {
      BucketRangeSize(tier, lo, n - 1);
      assert BucketRange(tier, lo, n) == BucketRange(tier, lo, n - 1) + {TierBucket(tier, lo + n - 1)};
    }
  }

  lemma {:induction false} MonthsReachFar(c: Calendar, d: nat, k: nat)
    requires MonthsLast28Days(c)
    ensures c.month(d + 28 * k) <= c.month(d) + k
  {
    if k > 0 {
      MonthsReachFar(c, d, k - 1);
      assert c.month(d + 28 * (k - 1) + 28) <= c.month(d + 28 * (k - 1)) + 1;
      assert d + 28 * (k - 1) + 28 == d + 28 * k;
    }
  }

  ghost function TierOf(c: Calendar, pairs: seq<StoredPair>, now: nat, tier: Tier): set<StoredPair> {
    set p | p in pairs && Kept(c, pairs, now, p) && p != Newest(pairs)
            && BucketOf(c, now, p).Some? && InTier(tier, BucketOf(c, now, p).value)
  }

  /** Every kept pair of a tier lies in a given set of buckets, so there are no more of them. */
  lemma TierIsBounded(c: Calendar, pairs: seq<StoredPair>, now: nat, tier: Tier, buckets: set<Bucket>)
    requires forall p :: p in pairs && BucketOf(c, now, p).Some? && InTier(tier, BucketOf(c, now, p).value) ==>
                           BucketOf(c, now, p).value in buckets
    ensures |TierOf(c, pairs, now, tier)| <= |buckets|
  {
    OneKeptPairPerBucket(c, pairs, now, buckets);
    var part := TierOf(c, pairs, now, tier);
    assert part <= TierPairs(c, pairs, now, buckets);
    SubsetIsNoLarger(part, TierPairs(c, pairs, now, buckets));
  }

  /** Main result on volume: beyond the newest pair and those a week old or younger, any
      number of stored pairs keeps at most 24 daily, 10 weekly and 11 monthly points. */
  lemma RetentionIsBounded(c: Calendar, pairs: seq<StoredPair>, now: nat)
    requires MonthsLast28Days(c)
    ensures |TierOf(c, pairs, now, Daily)| <= 24
    ensures |TierOf(c, pairs, now, Weekly)| <= 10
    ensures |TierOf(c, pairs, now, Monthly)| <= 11
    ensures |set p | p in pairs && Kept(c, pairs, now, p)| <=
            1 + |set p | p in pairs && Recent(now, p)| + 24 + 10 + 11
  {
    DaysBounded(c, pairs, now);
    WeeksBounded(c, pairs, now);
    MonthsBounded(c, pairs, now);
    var kept, recent := set p | p in pairs && Kept(c, pairs, now, p), set p | p in pairs && Recent(now, p);
    var days, weeks, months := TierOf(c, pairs, now, Daily), TierOf(c, pairs, now, Weekly),
        TierOf(c, pairs, now, Monthly);
    var newest := if pairs == [] then {} else {Newest(pairs)};
    assert kept <= newest + recent + days + weeks + months;
    SubsetIsNoLarger(kept, newest + recent + days + weeks + months);
  }

  /** The earliest day that a pair of the given age limit can have been received on. */
  function FirstDay(now: nat, days: nat): nat { DayOf(Max(now - days * DAY, 0)) }

  lemma DayRange(now: nat, p: StoredPair, low: nat, high: nat)
    requires low < high && low * DAY < Age(now, p) <= high * DAY
    ensures FirstDay(now, high) <= DayOf(p.receivedAt) <= FirstDay(now, high) + (high - low)
  {
    var first := Max(now - high * DAY, 0);
    assert first <= p.receivedAt <= first + (high - low) * DAY;
    assert (first + (high - low) * DAY) / DAY == first / DAY + (high - low);
  }

  lemma DaysBounded(c: Calendar, pairs: seq<StoredPair>, now: nat)
    ensures |TierOf(c, pairs, now, Daily)| <= 24
  {
    var lo := FirstDay(now, 30);
    var buckets := BucketRange(Daily, lo, 24);
    forall p | p in pairs && BucketOf(c, now, p).Some? && BucketOf(c, now, p).value.DayBucket?
      ensures BucketOf(c, now, p).value in buckets
    {
      DayRange(now, p, 7, 30);
      assert TierBucket(Daily, DayOf(p.receivedAt)) in buckets;
    }
    BucketRangeSize(Daily, lo, 24);
    TierIsBounded(c, pairs, now, Daily, buckets);
  }

  lemma WeeksBounded(c: Calendar, pairs: seq<StoredPair>, now: nat)
    ensures |TierOf(c, pairs, now, Weekly)| <= 10
  {
    var first := FirstDay(now, 90);
    var lo := WeekOf(c, first);
    var buckets := BucketRange(Weekly, lo, 10);
    forall p | p in pairs && BucketOf(c, now, p).Some? && BucketOf(c, now, p).value.WeekBucket?
      ensures BucketOf(c, now, p).value in buckets
    {
      DayRange(now, p, 30, 90);
      var week := WeekOf(c, DayOf(p.receivedAt));
      assert lo <= week < lo + 10;
      assert TierBucket(Weekly, week) in buckets;
    }
    BucketRangeSize(Weekly, lo, 10);
    TierIsBounded(c, pairs, now, Weekly, buckets);
  }

  lemma MonthsBounded(c: Calendar, pairs: seq<StoredPair>, now: nat)
    requires MonthsLast28Days(c)
    ensures |TierOf(c, pairs, now, Monthly)| <= 11
  {
    var first := FirstDay(now, 365);
    var lo := c.month(first);
    var buckets := BucketRange(Monthly, lo, 11);
    forall p | p in pairs && BucketOf(c, now, p).Some? && BucketOf(c, now, p).value.MonthBucket?
      ensures BucketOf(c, now, p).value in buckets
    {
      DayRange(now, p, 90, 365);
      MonthsReachFar(c, first, 10);
      var month := c.month(DayOf(p.receivedAt));
      assert lo <= month <= c.month(first + 280) < lo + 11;
      assert TierBucket(Monthly, month) in buckets;
    }
    BucketRangeSize(Monthly, lo, 11);
    TierIsBounded(c, pairs, now, Monthly, buckets);
  }

  // ----- the calendar of the Python datetime library -----

  predicate Leap(year: nat) { year % 4 == 0 && (year % 100 != 0 || year % 400 == 0) }

  /** Months are counted from January of year 1. */
  function MonthLength(m: nat): nat {
    var k := m % 12;
    if k == 1 then if Leap(1 + m / 12) then 29 else 28
    else if k == 3 || k == 5 || k == 8 || k == 10 then 30 else 31
  }

  function MonthStart(m: nat): nat { if m == 0 then 0 else MonthStart(m - 1) + MonthLength(m - 1) }

  function MonthFrom(m: nat, day: nat): (r: nat)
    requires MonthStart(m) <= day
    ensures MonthStart(r) <= day < MonthStart(r + 1)
    decreases day - MonthStart(m)
  {
    if day < MonthStart(m + 1) then m else MonthFrom(m + 1, day)
  }

  function MonthOfDay(day: nat): nat { MonthFrom(0, day) }

  lemma {:induction false} MonthStartsGrow(a: nat, b: nat)
    requires a <= b
    ensures MonthStart(a) + 28 * (b - a) <= MonthStart(b)
    decreases b
  {
    if a < b {
      MonthStartsGrow(a, b - 1);
    }
  }

  /** The Gregorian calendar, whose day 0 (0001-01-01) is a Monday. */
  const GREGORIAN := Calendar(0, day => MonthOfDay(day))

  lemma GregorianMonthsLast28Days()
    ensures MonthsLast28Days(GREGORIAN)
  {
    forall d: nat, e: nat | d <= e ensures MonthOfDay(d) <= MonthOfDay(e) {
      if MonthOfDay(e) < MonthOfDay(d) {
        MonthStartsGrow(MonthOfDay(e) + 1, MonthOfDay(d));
      }
    }
    forall d: nat ensures MonthOfDay(d + 28) <= MonthOfDay(d) + 1 {
      if MonthOfDay(d + 28) > MonthOfDay(d) + 1 {
        MonthStartsGrow(MonthOfDay(d) + 1, MonthOfDay(d + 28));
      }
    }
  }
}
