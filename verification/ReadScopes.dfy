/** What a mark over a feed or a period of days reaches, by feeds and local dates alone. */
module ReadScopes {
  import opened Common
  import opened ReadState
  import opened ReadCommands

  /** The article's feed, or the local date it was fetched on, is what the marker names; both ends of
      a period belong to it. */
  predicate Named(date: LocalDate, m: RawMarker, a: Article)
    requires ShapeAllowed(m)
  {
    if m.scope == FeedScope then a.feed == m.feed.value
    else m.first.value <= date(a.fetchedAt) && date(a.fetchedAt) <= m.last.value
  }

  /** After an accepted mark every stored article it names and had fetched by its cutoff is read, and
      the status of those it does not name is what it was. */
  lemma MarkReachesWhatItNames(date: LocalDate, s: Store, m: RawMarker, now: int, stamp: int, id: nat)
    requires Valid(s) && ShapeAllowed(m) && id in s.articles
    ensures var a, after := s.articles[id], MarkBulk(date, s, KeyOf(m), now, stamp);
      && (Named(date, m, a) && a.fetchedAt <= now ==> IsRead(date, after, a))
      && (!Named(date, m, a) ==> (IsRead(date, after, a) <==> IsRead(date, s, a)))
  {
    ReadAfterBulkMark(date, s, KeyOf(m), now, stamp, id);
  }

  /** Markers are stored apart exactly when they differ. */
  lemma KeysTellMarkersApart(m: RawMarker, n: RawMarker)
    requires ShapeAllowed(m) && ShapeAllowed(n)
    ensures KeyOf(m) == KeyOf(n) <==> m == n
  {
  }

  // ----- a period is its days -----

  /** Each of `n` days from `first` marked by itself, in one reading of the clock. */
  function MarkDays(date: LocalDate, s: Store, first: int, n: nat, now: int, stamp: int): Store {
    if n == 0 then s
    else MarkBulk(date, MarkDays(date, s, first, n - 1, now, stamp), DayKey(first + n - 1), now, stamp)
  }

  function DayKey(day: int): MarkerKey { KeyOf(RawMarker(DayScope, None, Some(day), Some(day))) }

  predicate WithinDays(date: LocalDate, a: Article, first: int, n: nat) {
    first <= date(a.fetchedAt) < first + n
  }

  /** What marking days for the first time reads. */
  predicate Reached(date: LocalDate, s: Store, a: Article, first: int, n: nat, now: int, stamp: int) {
    WithinDays(date, a, first, n) && (a.fetchedAt <= now || (a.fetchedAt <= stamp && a.id !in s.states))
  }

  ghost predicate NoDayMarked(s: Store, first: int, n: nat) {
    forall day :: first <= day < first + n ==> DayKey(day) !in s.markers
  }

  /** One mark over a period that was not marked before. */
  lemma FirstPeriodMark(date: LocalDate, s: Store, key: MarkerKey, now: int, stamp: int, id: nat)
    requires Valid(s) && key.PeriodKey? && key.first <= key.last && key !in s.markers && id in s.articles
    ensures IsRead(date, MarkBulk(date, s, key, now, stamp), s.articles[id]) <==>
            IsRead(date, s, s.articles[id]) ||
            Reached(date, s, s.articles[id], key.first, key.last - key.first + 1, now, stamp)
  {
    ReadAfterBulkMark(date, s, key, now, stamp, id);
    if k :| k in s.markers && Covers(date, Marker(k, s.markers[k]), s.articles[id]) {
      assert BulkRead(date, s.markers, s.articles[id]);
    }
  }

  /** What marking those days has come to. */
  ghost predicate Marked(date: LocalDate, s: Store, after: Store, first: int, n: nat, now: int, stamp: int) {
    && Valid(after) && after.articles == s.articles
    && (forall k :: k in after.markers ==> k in s.markers || exists day :: first <= day < first + n && k == DayKey(day))
    && (forall id :: id in s.articles ==> MarkedOne(date, s, after, first, n, now, stamp, id))
  }

  ghost predicate MarkedOne(date: LocalDate, s: Store, after: Store, first: int, n: nat, now: int, stamp: int, id: nat)
    requires id in s.articles
  {
    var a := s.articles[id];
    && (id in after.states <==> id in s.states || (WithinDays(date, a, first, n) && a.fetchedAt <= now))
    && (IsRead(date, after, a) <==> IsRead(date, s, a) || Reached(date, s, a, first, n, now, stamp))
  }

  lemma OneDayMore(date: LocalDate, s: Store, before: Store, first: int, n: nat, now: int, stamp: int, id: nat)
    requires Valid(s) && Valid(before) && before.articles == s.articles && id in s.articles && n > 0
    requires DayKey(first + n - 1) !in before.markers
    requires MarkedOne(date, s, before, first, n - 1, now, stamp, id)
    ensures MarkedOne(date, s, MarkBulk(date, before, DayKey(first + n - 1), now, stamp), first, n, now, stamp, id)
  {
    FirstPeriodMark(date, before, DayKey(first + n - 1), now, stamp, id);
    DaySplits(date, s.articles[id], first, n);
  }

  lemma {:induction false} DaysMarked(date: LocalDate, s: Store, first: int, n: nat, now: int, stamp: int)
    requires Valid(s) && NoDayMarked(s, first, n)
    ensures Marked(date, s, MarkDays(date, s, first, n, now, stamp), first, n, now, stamp)
  {
    if n > 0 {
      var before, after := MarkDays(date, s, first, n - 1, now, stamp), MarkDays(date, s, first, n, now, stamp);
      DaysMarked(date, s, first, n - 1, now, stamp);
      assert DayKey(first + n - 1) !in before.markers;
      forall id | id in s.articles ensures MarkedOne(date, s, after, first, n, now, stamp, id) {
        assert MarkedOne(date, s, before, first, n - 1, now, stamp, id);
        OneDayMore(date, s, before, first, n, now, stamp, id);
      }
      assert Valid(after) && after.articles == s.articles;
    }
  }

  lemma DaySplits(date: LocalDate, a: Article, first: int, n: nat)
    requires n > 0
    ensures WithinDays(date, a, first, n) <==>
            WithinDays(date, a, first, n - 1) || WithinDays(date, a, first + n - 1, 1)
    ensures !(WithinDays(date, a, first, n - 1) && WithinDays(date, a, first + n - 1, 1))
  {
  }

  /** Main result on periods: marking a day, week or month reads exactly what marking each of its
      days by itself would, the first and the last included. */
  lemma PeriodIsItsDays(date: LocalDate, s: Store, m: RawMarker, now: int, stamp: int)
    requires Valid(s) && ShapeAllowed(m) && m.scope != FeedScope && KeyOf(m) !in s.markers
    requires NoDayMarked(s, m.first.value, m.last.value - m.first.value + 1)
    ensures ReadSet(date, MarkBulk(date, s, KeyOf(m), now, stamp)) ==
            ReadSet(date, MarkDays(date, s, m.first.value, m.last.value - m.first.value + 1, now, stamp))
  {
    var days := m.last.value - m.first.value + 1;
    DaysMarked(date, s, m.first.value, days, now, stamp);
    forall id | id in s.articles
      ensures IsRead(date, MarkBulk(date, s, KeyOf(m), now, stamp), s.articles[id]) <==>
              IsRead(date, MarkDays(date, s, m.first.value, days, now, stamp), s.articles[id])
    {
      FirstPeriodMark(date, s, KeyOf(m), now, stamp, id);
      assert MarkedOne(date, s, MarkDays(date, s, m.first.value, days, now, stamp), m.first.value, days, now, stamp,
                       id);
    }
  }

  // ----- reading markers -----

  /** Markers cover an article when one of them names its feed or its date and was set no earlier than
      the article was fetched. */
  lemma CoveredIff(date: LocalDate, markers: seq<Marker>, a: Article)
    ensures CoveredBy(date, markers, a) <==>
            exists m :: m in markers && a.fetchedAt <= m.markedAt &&
                        match m.key
                        case FeedKey(feed) => a.feed == feed
                        case PeriodKey(_, first, last) => first <= date(a.fetchedAt) && date(a.fetchedAt) <= last
  {
    if m :| m in markers && Covers(date, m, a) {
      var i :| 0 <= i < |markers| && markers[i] == m;
      assert CoveredBy(date, markers, a);
    }
    if i :| 0 <= i < |markers| && Covers(date, markers[i], a) {
      assert markers[i] in markers;
    }
  }

  /** The narrowed query leaves out exactly the markers set before every article on screen, those of a
      feed none is from, and the periods that end before all of them or begin after. */
  lemma LeftOutIff(date: LocalDate, articles: seq<Article>, m: Marker)
    requires Monotone(date) && articles != []
    ensures !Relevant(date, articles, m) <==>
            || (forall a :: a in articles ==> m.markedAt < a.fetchedAt)
            || match m.key
               case FeedKey(feed) => forall a :: a in articles ==> a.feed != feed
               case PeriodKey(_, first, last) =>
                 || (forall a :: a in articles ==> last < date(a.fetchedAt))
                 || (forall a :: a in articles ==> date(a.fetchedAt) < first)
  {
    BoundsAreReached(articles);
    forall a | a in articles
      ensures date(Earliest(articles)) <= date(a.fetchedAt) <= date(Latest(articles))
    {
      assert Earliest(articles) <= a.fetchedAt <= Latest(articles);
    }
    if m.key.FeedKey? {
      assert forall i :: 0 <= i < |articles| ==> articles[i] in articles;
    }
  }

  lemma {:induction false} BoundsAreReached(articles: seq<Article>)
    requires articles != []
    ensures exists a :: a in articles && a.fetchedAt == Earliest(articles)
    ensures exists a :: a in articles && a.fetchedAt == Latest(articles)
  {
    if |articles| == 1 {
      assert articles[0] in articles;
    } else {
      var rest := articles[1..];
      BoundsAreReached(rest);
      var a :| a in rest && a.fetchedAt == Earliest(rest);
      var b :| b in rest && b.fetchedAt == Latest(rest);
      assert articles[0] in articles && a in articles && b in articles;
    }
  }
}
