/** Read-state resolution for one reader: explicit read and unread states, timestamped bulk
    markers, and the queries that combine them. */
module ReadState {
  import opened Common

  datatype Article = Article(id: nat, feed: nat, fetchedAt: int)

  datatype PeriodScope = Day | Week | Month

  /** What identifies a marker; its two shapes are the database's shape constraint. */
  datatype MarkerKey = FeedKey(feed: nat) | PeriodKey(scope: PeriodScope, first: int, last: int)

  datatype Marker = Marker(key: MarkerKey, markedAt: int)

  /** The local date of a timestamp. All that is needed of time zones is that it never
      runs backwards. */
  type LocalDate = int -> int

  ghost predicate Monotone(date: LocalDate) {
    forall t, u :: t <= u ==> date(t) <= date(u)
  }

  /** The reader's rows: one state per article, one marker time per key. */
  datatype Store = Store(articles: map<nat, Article>, states: map<nat, bool>, markers: map<MarkerKey, int>)

  predicate InScope(date: LocalDate, key: MarkerKey, a: Article) {
    match key
    case FeedKey(feed) => a.feed == feed
    case PeriodKey(_, first, last) => first <= date(a.fetchedAt) <= last
  }

  /** A marker reaches the articles of its scope fetched no later than it was set. */
  predicate Covers(date: LocalDate, m: Marker, a: Article) {
    InScope(date, m.key, a) && a.fetchedAt <= m.markedAt
  }

  // ----- the definition, over all of the reader's markers -----

  ghost predicate BulkRead(date: LocalDate, markers: map<MarkerKey, int>, a: Article) {
    exists k :: k in markers && Covers(date, Marker(k, markers[k]), a)
  }

  ghost predicate IsRead(date: LocalDate, s: Store, a: Article) {
    && (a.id in s.states ==> s.states[a.id])
    && (a.id in s.states || BulkRead(date, s.markers, a))
  }

  // ----- the narrowed query -----

  function Earliest(articles: seq<Article>): (t: int)
    requires articles != []
    ensures forall a :: a in articles ==> t <= a.fetchedAt
  {
    if |articles| == 1 then articles[0].fetchedAt
    else
      assert forall a :: a in articles ==> a == articles[0] || a in articles[1..];
      Min(articles[0].fetchedAt, Earliest(articles[1..]))
  }

  function Latest(articles: seq<Article>): (t: int)
    requires articles != []
    ensures forall a :: a in articles ==> a.fetchedAt <= t
  {
    if |articles| == 1 then articles[0].fetchedAt
    else
      assert forall a :: a in articles ==> a == articles[0] || a in articles[1..];
      Max(articles[0].fetchedAt, Latest(articles[1..]))
  }

  /** The filter of `_covering_markers`, by the bounds of the articles on screen. */
  predicate Relevant(date: LocalDate, articles: seq<Article>, m: Marker)
    requires articles != []
  {
    && m.markedAt >= Earliest(articles)
    && match m.key
       case FeedKey(feed) => exists i :: 0 <= i < |articles| && articles[i].feed == feed
       case PeriodKey(_, first, last) => first <= date(Latest(articles)) && last >= date(Earliest(articles))
  }

  /** A marker left out by the filter covers none of the articles. */
  lemma IrrelevantMarkersCoverNothing(date: LocalDate, articles: seq<Article>, m: Marker, a: Article)
    requires Monotone(date) && a in articles && Covers(date, m, a)
    ensures Relevant(date, articles, m)
  {
    assert Earliest(articles) <= a.fetchedAt <= Latest(articles);
    assert date(Earliest(articles)) <= date(a.fetchedAt) <= date(Latest(articles));
    var i :| 0 <= i < |articles| && articles[i] == a;
  }

  predicate CoveredBy(date: LocalDate, markers: seq<Marker>, a: Article) {
    exists i :: 0 <= i < |markers| && Covers(date, markers[i], a)
  }

  /** `_covering_markers`. */
  method CoveringMarkers(date: LocalDate, all: seq<Marker>, articles: seq<Article>) returns (markers: seq<Marker>)
    ensures articles == [] ==> markers == []
    ensures articles != [] ==> forall m :: m in markers <==> m in all && Relevant(date, articles, m)
  {
    markers := [];
    if articles == [] {
      return;
    }
    for n := 0 to |all|
      invariant forall m :: m in markers <==> m in all[..n] && Relevant(date, articles, m)
    {
      assert all[..n + 1] == all[..n] + [all[n]];
      if Relevant(date, articles, all[n]) {
        markers := markers + [all[n]];
      }
    }
    assert all[..|all|] == all;
  }

  /** `_bulk_read_predicate`: the disjunction it accumulates is, on every article of the set,
      the plain definition over all of the reader's markers. */
  method BulkReadArticles(date: LocalDate, all: seq<Marker>, articles: seq<Article>) returns (covered: set<Article>)
    requires Monotone(date)
    ensures forall a :: a in covered <==> a in articles && CoveredBy(date, all, a)
  {
    covered := {};
    var markers := CoveringMarkers(date, all, articles);
    for n := 0 to |markers|
      invariant forall a :: a in covered <==> a in articles && CoveredBy(date, markers[..n], a)
    {
      assert markers[..n + 1] == markers[..n] + [markers[n]];
      assert forall a :: CoveredBy(date, markers[..n + 1], a) <==>
          CoveredBy(date, markers[..n], a) || Covers(date, markers[n], a) by {
        forall a ensures CoveredBy(date, markers[..n + 1], a) <==>
            CoveredBy(date, markers[..n], a) || Covers(date, markers[n], a) {
          CoveredByOneMore(date, markers[..n], markers[n], a);
        }
      }
      covered := covered + (set a | a in articles && Covers(date, markers[n], a));
    }
    assert markers[..|markers|] == markers;
    forall a | a in articles ensures CoveredBy(date, markers, a) <==> CoveredBy(date, all, a) {
      NarrowingAgrees(date, all, markers, articles, a);
    }
  }

  lemma CoveredByOneMore(date: LocalDate, markers: seq<Marker>, m: Marker, a: Article)
    ensures CoveredBy(date, markers + [m], a) <==> CoveredBy(date, markers, a) || Covers(date, m, a)
  {
    if CoveredBy(date, markers, a) {
      var i :| 0 <= i < |markers| && Covers(date, markers[i], a);
      assert (markers + [m])[i] == markers[i];
    }
    assert (markers + [m])[|markers|] == m;
  }

  /** Main result on narrowing: for every article set and marker history the narrowed markers
      decide each article of the set as all of the reader's markers do. */
  lemma NarrowingAgrees(date: LocalDate, all: seq<Marker>, markers: seq<Marker>, articles: seq<Article>, a: Article)
    requires Monotone(date) && a in articles
    requires forall m :: m in markers <==> m in all && Relevant(date, articles, m)
    ensures CoveredBy(date, markers, a) <==> CoveredBy(date, all, a)
  {
    if CoveredBy(date, markers, a) {
      var i :| 0 <= i < |markers| && Covers(date, markers[i], a);
      assert markers[i] in all;
      var k :| 0 <= k < |all| && all[k] == markers[i];
    }
    if CoveredBy(date, all, a) {
      var k :| 0 <= k < |all| && Covers(date, all[k], a);
      IrrelevantMarkersCoverNothing(date, articles, all[k], a);
      assert all[k] in markers;
      var i :| 0 <= i < |markers| && markers[i] == all[k];
    }
  }
}
