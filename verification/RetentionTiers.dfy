/** What retention promises each backup, by its age and the dates of the others alone. */
module RetentionTiers {
  import opened Common
  import opened Retention

  /** Both are 7 to 30 days old and of one day, 30 to 90 days and of one week, or 90 to 365 days
      and of one month. */
  predicate SamePoint(c: Calendar, now: nat, p: StoredPair, q: StoredPair) {
    var (a, b) := (now - p.receivedAt, now - q.receivedAt);
    var (d, e) := (p.receivedAt / 86400, q.receivedAt / 86400);
    || (7 * 86400 < a <= 30 * 86400 && 7 * 86400 < b <= 30 * 86400 && d == e)
    || (30 * 86400 < a <= 90 * 86400 && 30 * 86400 < b <= 90 * 86400 && (d + c.offset) / 7 == (e + c.offset) / 7)
    || (90 * 86400 < a <= 365 * 86400 && 90 * 86400 < b <= 365 * 86400 && c.month(d) == c.month(e))
  }

  lemma SamePointIsSameBucket(c: Calendar, now: nat, p: StoredPair, q: StoredPair)
    ensures SamePoint(c, now, p, q) <==> BucketOf(c, now, p).Some? && BucketOf(c, now, p) == BucketOf(c, now, q)
    ensures BucketOf(c, now, p).Some? <==> 7 * 86400 < now - p.receivedAt <= 365 * 86400
  {
  }

  ghost predicate SomeNewer(pairs: seq<StoredPair>, p: StoredPair) {
    exists q :: q in pairs && q.sequence > p.sequence
  }

  ghost predicate Superseded(c: Calendar, pairs: seq<StoredPair>, now: nat, p: StoredPair) {
    exists k :: k in pairs && k.sequence < p.sequence && SamePoint(c, now, k, p)
  }

  /** Main result on what is deleted: a backup is expired exactly when it is not the newest, is more
      than a week old, and is either more than a year old or not the first of its day, week or month
      that is still in the same tier. A backup dated in the future is kept. */
  lemma ExpiredIff(c: Calendar, pairs: seq<StoredPair>, now: nat, keep: seq<StoredPair>, delete: seq<StoredPair>,
                   p: StoredPair)
    requires DistinctSequences(pairs) && Partitions(c, pairs, now, keep, delete)
    ensures p in delete <==>
            && p in pairs && SomeNewer(pairs, p) && now - p.receivedAt > 7 * 86400
            && (now - p.receivedAt > 365 * 86400 || Superseded(c, pairs, now, p))
    ensures p in keep <==> p in pairs && p !in delete
  {
    KeptIgnoresListOrder(c, pairs, now, p);
    SamePointIsSameBucket(c, now, p, p);
    forall q
      ensures SamePoint(c, now, q, p) <==> BucketOf(c, now, p).Some? && BucketOf(c, now, p) == BucketOf(c, now, q)
    {
      SamePointIsSameBucket(c, now, q, p);
    }
  }

  /** A backup that loses its point loses it to one that is kept: of 7 to 30 days one of the same day
      remains, of 30 to 90 days one of the same week, of 90 to 365 days one of the same month, each
      received before it. */
  lemma SupersededByKept(c: Calendar, pairs: seq<StoredPair>, now: nat, keep: seq<StoredPair>,
                         delete: seq<StoredPair>, p: StoredPair)
    requires DistinctSequences(pairs) && Partitions(c, pairs, now, keep, delete)
    requires p in delete && now - p.receivedAt <= 365 * 86400
    ensures exists k :: k in keep && k.sequence < p.sequence && SamePoint(c, now, k, p)
  {
    ExpiredIff(c, pairs, now, keep, delete, p);
    SamePointIsSameBucket(c, now, p, p);
    var b := BucketOf(c, now, p).value;
    KeptIgnoresListOrder(c, pairs, now, p);
    NonemptyBucketKeepsItsEarliest(c, pairs, now, b);
    var k :| Kept(c, pairs, now, k) && k != Newest(pairs) && BucketOf(c, now, k) == Some(b)
      && forall q :: q in pairs && q != Newest(pairs) && BucketOf(c, now, q) == Some(b) ==> k.sequence <= q.sequence;
    assert k != p;
    SamePointIsSameBucket(c, now, k, p);
  }

  // ----- the calendar -----

  /** How many days of a common year go before each month. */
  function DaysBefore(month: nat): nat
    requires month <= 12
  {
    [0, 31, 59, 90, 120, 151, 181, 212, 243, 273, 304, 334, 365][month]
  }

  /** Days before January of a year, counting leap years without looking at months. */
  function DaysBeforeYear(year: nat): int
    requires year >= 1
  {
    var y := year - 1;
    365 * y + y / 4 - y / 100 + y / 400
  }

  lemma LeapYearsCounted(year: nat)
    requires year >= 1
    ensures DaysBeforeYear(year + 1) == DaysBeforeYear(year) + if Leap(year) then 366 else 365
  {
    OneYearMore(year);
    LeapDivides(year);
  }

  lemma OneYearMore(y: int)
    ensures y / 4 == (y - 1) / 4 + if y % 4 == 0 then 1 else 0
    ensures y / 100 == (y - 1) / 100 + if y % 100 == 0 then 1 else 0
    ensures y / 400 == (y - 1) / 400 + if y % 400 == 0 then 1 else 0
  {
  }

  lemma LeapDivides(y: int)
    ensures y % 400 == 0 ==> y % 100 == 0
    ensures y % 100 == 0 ==> y % 4 == 0
  {
    assert y % 400 == 0 ==> y == 100 * (4 * (y / 400));
    assert y % 100 == 0 ==> y == 4 * (25 * (y / 100));
  }

  /** Every month starts on the day the proleptic Gregorian calendar says, day 0 being the first of
      January of the year 1. */
  lemma {:induction false} MonthStartIs(year: nat, month: nat)
    requires year >= 1 && month < 12
    ensures MonthStart(12 * (year - 1) + month) ==
            DaysBeforeYear(year) + DaysBefore(month) + if month >= 2 && Leap(year) then 1 else 0
    decreases year, month
  {
    var m := 12 * (year - 1) + month;
    if month > 0 {
      MonthStartIs(year, month - 1);
      assert (m - 1) % 12 == month - 1 && (m - 1) / 12 == year - 1;
    } else if year > 1 {
      MonthStartIs(year - 1, 11);
      LeapYearsCounted(year - 1);
      assert m - 1 == 12 * (year - 2) + 11;
      assert (m - 1) % 12 == 11 && (m - 1) / 12 == year - 2;
    }
  }

  /** A day belongs to the month it falls in. */
  lemma MonthOfDate(year: nat, month: nat, day: nat)
    requires year >= 1 && month < 12
    requires day < DaysBefore(month + 1) - DaysBefore(month) + if month == 1 && Leap(year) then 1 else 0
    ensures GREGORIAN.month(MonthStart(12 * (year - 1) + month) + day) == 12 * (year - 1) + month
  {
    var m := 12 * (year - 1) + month;
    assert m % 12 == month && m / 12 == year - 1;
    assert day < MonthLength(m);
    DayInMonth(m, day);
  }

  lemma DayInMonth(m: nat, day: nat)
    requires day < MonthLength(m)
    ensures MonthOfDay(MonthStart(m) + day) == m
  {
    var x := MonthStart(m) + day;
    assert MonthStart(m + 1) == MonthStart(m) + MonthLength(m);
    MonthIsUnique(m, MonthOfDay(x), x, MonthStart(m), MonthStart(m + 1));
  }

  lemma MonthIsUnique(m: nat, found: nat, x: nat, first: nat, next: nat)
    requires first == MonthStart(m) && next == MonthStart(m + 1) && first <= x < next
    requires MonthStart(found) <= x < MonthStart(found + 1)
    ensures found == m
  {
    if found < m {
      MonthStartsGrow(found + 1, m);
    } else if found > m {
      MonthStartsGrow(m + 1, found);
    }
  }

  /** 1 January 2024, a Monday, begins an ISO week, and six days later is still in it. */
  lemma WeeksBeginOnMondays()
    ensures var monday := DaysBeforeYear(2024);
      WeekOf(GREGORIAN, monday - 1) + 1 == WeekOf(GREGORIAN, monday) == WeekOf(GREGORIAN, monday + 6)
  {
  }
}
