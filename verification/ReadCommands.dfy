/** The read-state commands, and exactly when explicit states and bulk markers mean nothing
    to the reader but a set of read articles. */
module ReadCommands {
  import opened Common
  import opened ReadState

  ghost predicate Valid(s: Store) {
    && (forall id :: id in s.articles ==> s.articles[id].id == id)
    && (forall id :: id in s.states ==> id in s.articles)
  }

  ghost function ReadSet(date: LocalDate, s: Store): set<nat> {
    set id | id in s.articles && IsRead(date, s, s.articles[id])
  }

  /** The articles a bulk mark at `now` sees: those of its scope already fetched. */
  function Window(date: LocalDate, articles: map<nat, Article>, key: MarkerKey, now: int): set<nat> {
    set id | id in articles && InScope(date, key, articles[id]) && articles[id].fetchedAt <= now
  }

  /** `mark_articles_read`: insert or overwrite a read state for every article. */
  function MarkedRead(states: map<nat, bool>, ids: set<nat>): map<nat, bool> {
    map id | id in states.Keys + ids :: if id in ids then true else states[id]
  }

  /** The time an upsert leaves in the marker. A row that exists takes the cutoff; a new one is
      stamped when it is inserted (`auto_now_add`), whatever the defaults say. */
  function StoredTime(s: Store, key: MarkerKey, now: int, stamp: int): int {
    if key in s.markers then now else stamp
  }

  /** `mark_period_read` and `mark_feed_read`, once the marker is known to be well shaped: `now` is
      the cutoff read first, `stamp` the clock when the marker row is written. */
  function MarkBulk(date: LocalDate, s: Store, key: MarkerKey, now: int, stamp: int): Store {
    s.(states := MarkedRead(s.states, Window(date, s.articles, key, now)),
       markers := s.markers[key := StoredTime(s, key, now, stamp)])
  }

  function MarkArticle(s: Store, id: nat, isRead: bool): Store {
    if id in s.articles then s.(states := s.states[id := isRead]) else s
  }

  function Fetch(s: Store, a: Article): Store {
    if a.id in s.articles then s else s.(articles := s.articles[a.id := a])
  }

  // ----- one bulk mark -----

  /** An article the mark does not see keeps its status, unless the only thing that made it
      read was the marker being replaced. */
  predicate HeldByReplacedMarker(date: LocalDate, s: Store, key: MarkerKey, now: int, id: nat)
    requires id in s.articles
  {
    var a := s.articles[id];
    && key in s.markers && Covers(date, Marker(key, s.markers[key]), a)
    && now < a.fetchedAt
    && id !in s.states
    && forall k :: k in s.markers && k != key ==> !Covers(date, Marker(k, s.markers[k]), a)
  }

  /** An unread article fetched between the cutoff and the insertion of a first marker, which
      nothing but that marker reaches. */
  predicate CaughtByNewMarker(date: LocalDate, s: Store, key: MarkerKey, now: int, stamp: int, id: nat)
    requires id in s.articles
  {
    var a := s.articles[id];
    && key !in s.markers && InScope(date, key, a)
    && now < a.fetchedAt <= stamp
    && id !in s.states
    && forall k :: k in s.markers ==> !Covers(date, Marker(k, s.markers[k]), a)
  }

  lemma ReadAfterBulkMark(date: LocalDate, s: Store, key: MarkerKey, now: int, stamp: int, id: nat)
    requires Valid(s) && id in s.articles
    ensures IsRead(date, MarkBulk(date, s, key, now, stamp), s.articles[id]) <==>
            || id in Window(date, s.articles, key, now)
            || CaughtByNewMarker(date, s, key, now, stamp, id)
            || (IsRead(date, s, s.articles[id]) && !HeldByReplacedMarker(date, s, key, now, id))
  {
    var a, s' := s.articles[id], MarkBulk(date, s, key, now, stamp);
    if id !in Window(date, s.articles, key, now) && id !in s.states {
      assert key in s'.markers;
      if k :| k in s'.markers && k != key && Covers(date, Marker(k, s'.markers[k]), a) {
        assert k in s.markers && Covers(date, Marker(k, s.markers[k]), a);
      }
      if k :| k in s.markers && k != key && Covers(date, Marker(k, s.markers[k]), a) {
        assert k in s'.markers && Covers(date, Marker(k, s'.markers[k]), a);
      }
    }
  }

  /** A mark is exact when it takes nothing out of the hold of the marker it replaces and, as a
      first mark, catches nothing fetched after its cutoff. */
  ghost predicate ExactMark(date: LocalDate, s: Store, key: MarkerKey, now: int, stamp: int) {
    forall id :: id in s.articles ==>
                   !HeldByReplacedMarker(date, s, key, now, id) && !CaughtByNewMarker(date, s, key, now, stamp, id)
  }

  /** Exactly when a bulk mark adds its window to the read set and changes nothing else. */
  lemma BulkMarkAddsItsWindowIff(date: LocalDate, s: Store, key: MarkerKey, now: int, stamp: int)
    requires Valid(s)
    ensures ReadSet(date, MarkBulk(date, s, key, now, stamp)) == ReadSet(date, s) + Window(date, s.articles, key, now)
            <==> ExactMark(date, s, key, now, stamp)
  {
    var after, before, window := ReadSet(date, MarkBulk(date, s, key, now, stamp)), ReadSet(date, s),
        Window(date, s.articles, key, now);
    forall id | id in s.articles
      ensures id in after <==> || id in window
                               || CaughtByNewMarker(date, s, key, now, stamp, id)
                               || (id in before && !HeldByReplacedMarker(date, s, key, now, id))
      ensures HeldByReplacedMarker(date, s, key, now, id) ==> id in before && id !in window
      ensures CaughtByNewMarker(date, s, key, now, stamp, id) ==> id !in before && id !in window
    {
      ReadAfterBulkMark(date, s, key, now, stamp, id);
      if HeldByReplacedMarker(date, s, key, now, id) {
        assert BulkRead(date, s.markers, s.articles[id]);
      }
    }
  }

  /** For a mark that replaces a marker, a clock that has not gone back since is enough; a first mark
      also needs that nothing was fetched between its cutoff and the insertion of its row. */
  lemma ForwardClockHoldsNothing(date: LocalDate, s: Store, key: MarkerKey, now: int, stamp: int)
    requires Valid(s)
    requires if key in s.markers then s.markers[key] <= now
             else forall id :: id in s.articles ==> !(now < s.articles[id].fetchedAt <= stamp)
    ensures ReadSet(date, MarkBulk(date, s, key, now, stamp)) == ReadSet(date, s) + Window(date, s.articles, key, now)
  {
    BulkMarkAddsItsWindowIff(date, s, key, now, stamp);
  }

  /** With a clock that went back the property fails: the re-marked feed loses an article. */
  lemma BackwardClockLosesAnArticle(date: LocalDate)
    ensures var a := Article(1, 7, 10);
            var s := Store(map[1 := a], map[], map[FeedKey(7) := 20]);
            && ReadSet(date, s) == {1}
            && forall stamp :: ReadSet(date, MarkBulk(date, s, FeedKey(7), 5, stamp)) == {}
  {
    var a := Article(1, 7, 10);
    var s := Store(map[1 := a], map[], map[FeedKey(7) := 20]);
    assert Covers(date, Marker(FeedKey(7), s.markers[FeedKey(7)]), a);
    assert BulkRead(date, s.markers, a);
    forall stamp ensures ReadSet(date, MarkBulk(date, s, FeedKey(7), 5, stamp)) == {} {
      var s' := MarkBulk(date, s, FeedKey(7), 5, stamp);
      assert Window(date, s.articles, FeedKey(7), 5) == {};
      assert s'.states == map[];
      assert !BulkRead(date, s'.markers, a);
    }
  }

  /** On a clock that only moves forward it fails too: a feed is marked for the first time at 10,
      a refresh stores an article fetched at 11, the marker row is inserted at 12, and the article
      nobody has seen is read. It makes no difference whether the article is stored just before the
      mark is written or just after. */
  lemma FirstMarkReadsALaterArticle(date: LocalDate)
    ensures var a := Article(1, 7, 11);
            var empty := Store(map[], map[], map[]);
            var before := Fetch(empty, a);
            && ReadSet(date, before) == Window(date, before.articles, FeedKey(7), 10) == {}
            && ReadSet(date, MarkBulk(date, before, FeedKey(7), 10, 12)) == {1}
            && ReadSet(date, Fetch(MarkBulk(date, empty, FeedKey(7), 10, 12), a)) == {1}
  {
    var a := Article(1, 7, 11);
    var empty := Store(map[], map[], map[]);
    var marked := map[FeedKey(7) := 12];
    assert Covers(date, Marker(FeedKey(7), marked[FeedKey(7)]), a);
    assert BulkRead(date, marked, a);
    assert !BulkRead(date, map[], a);
    var before := Fetch(empty, a);
    assert MarkBulk(date, before, FeedKey(7), 10, 12) == Store(map[1 := a], map[], marked);
    assert Fetch(MarkBulk(date, empty, FeedKey(7), 10, 12), a) == Store(map[1 := a], map[], marked);
  }

  // ----- whole histories -----

  datatype Event =
    | FetchEvent(article: Article)
    | ArticleEvent(id: nat, isRead: bool)
    | BulkEvent(key: MarkerKey, now: int, stamp: int)

  function Step(date: LocalDate, s: Store, e: Event): Store {
    match e
    case FetchEvent(a) => Fetch(s, a)
    case ArticleEvent(id, isRead) => MarkArticle(s, id, isRead)
    case BulkEvent(key, now, stamp) => MarkBulk(date, s, key, now, stamp)
  }

  function Run(date: LocalDate, s: Store, trace: seq<Event>): Store
    decreases |trace|
  {
    if trace == [] then s else Run(date, Step(date, s, trace[0]), trace[1..])
  }

  /** The reference: articles, and the set of those read. No markers, no explicit states. */
  datatype Plain = Plain(articles: map<nat, Article>, read: set<nat>)

  function PlainStep(date: LocalDate, p: Plain, e: Event): Plain {
    match e
    case FetchEvent(a) => if a.id in p.articles then p else p.(articles := p.articles[a.id := a])
    case ArticleEvent(id, isRead) =>
      if id !in p.articles then p
      else p.(read := if isRead then p.read + {id} else p.read - {id})
    case BulkEvent(key, now, _) => p.(read := p.read + Window(date, p.articles, key, now))
  }

  function PlainRun(date: LocalDate, p: Plain, trace: seq<Event>): Plain
    decreases |trace|
  {
    if trace == [] then p else PlainRun(date, PlainStep(date, p, trace[0]), trace[1..])
  }

  /** Marks never go back in time, an article that is new was fetched after every marker before it,
      and a first mark has its cutoff after everything stored. `marked` are the keys with a marker,
      `lastMark` bounds the times the markers hold and `lastFetch` the articles stored. */
  predicate Ordered(marked: set<MarkerKey>, lastMark: int, lastFetch: int, trace: seq<Event>)
    decreases |trace|
  {
    trace == [] ||
    match trace[0]
    case FetchEvent(a) =>
      lastMark < a.fetchedAt && Ordered(marked, lastMark, Max(lastFetch, a.fetchedAt), trace[1..])
    case ArticleEvent(_, _) => Ordered(marked, lastMark, lastFetch, trace[1..])
    case BulkEvent(key, now, stamp) =>
      && lastMark <= now <= stamp
      && (key !in marked ==> lastFetch <= now)
      && Ordered(marked + {key}, if key in marked then now else stamp, lastFetch, trace[1..])
  }

  ghost predicate Bounded(s: Store, lastMark: int, lastFetch: int) {
    && (forall k :: k in s.markers ==> s.markers[k] <= lastMark)
    && (forall id :: id in s.articles ==> s.articles[id].fetchedAt <= lastFetch)
  }

  ghost predicate Represents(date: LocalDate, s: Store, p: Plain) {
    Valid(s) && p.articles == s.articles && p.read == ReadSet(date, s)
  }

  /** What a step must meet: a new article is not under a marker already, as when it was fetched
      before a mark was written but stored after it; and a mark is exact. */
  ghost predicate StepSeen(date: LocalDate, s: Store, e: Event) {
    match e
    case FetchEvent(a) => a.id in s.articles || !BulkRead(date, s.markers, a)
    case ArticleEvent(_, _) => true
    case BulkEvent(key, now, stamp) => ExactMark(date, s, key, now, stamp)
  }

  lemma FetchRepresentsIff(date: LocalDate, s: Store, p: Plain, a: Article)
    requires Represents(date, s, p)
    ensures Represents(date, Fetch(s, a), PlainStep(date, p, FetchEvent(a))) <==> StepSeen(date, s, FetchEvent(a))
  {
    if a.id !in s.articles {
      var s' := Fetch(s, a);
      assert a.id !in s.states && (IsRead(date, s', a) <==> BulkRead(date, s.markers, a));
      forall id | id in s.articles ensures id in ReadSet(date, s') <==> id in ReadSet(date, s) {
        assert IsRead(date, s', s.articles[id]) <==> IsRead(date, s, s.articles[id]);
      }
      assert a.id in ReadSet(date, s') <==> BulkRead(date, s.markers, a);
      assert a.id !in p.read;
    }
  }

  lemma ArticleMarkRepresents(date: LocalDate, s: Store, p: Plain, id: nat, isRead: bool)
    requires Represents(date, s, p)
    ensures Represents(date, MarkArticle(s, id, isRead), PlainStep(date, p, ArticleEvent(id, isRead)))
  {
    if id in s.articles {
      var s' := MarkArticle(s, id, isRead);
      forall other | other in s.articles
        ensures IsRead(date, s', s.articles[other]) <==>
                if other == id then isRead else IsRead(date, s, s.articles[other])
      {
      }
    }
  }

  lemma BulkMarkRepresentsIff(date: LocalDate, s: Store, p: Plain, key: MarkerKey, now: int, stamp: int)
    requires Represents(date, s, p)
    ensures Represents(date, MarkBulk(date, s, key, now, stamp), PlainStep(date, p, BulkEvent(key, now, stamp))) <==>
            StepSeen(date, s, BulkEvent(key, now, stamp))
  {
    BulkMarkAddsItsWindowIff(date, s, key, now, stamp);
  }

  lemma StepRepresentsIff(date: LocalDate, s: Store, p: Plain, e: Event)
    requires Represents(date, s, p)
    ensures Represents(date, Step(date, s, e), PlainStep(date, p, e)) <==> StepSeen(date, s, e)
  {
    match e
    case FetchEvent(a) => FetchRepresentsIff(date, s, p, a);
    case ArticleEvent(id, isRead) => ArticleMarkRepresents(date, s, p, id, isRead);
    case BulkEvent(key, now, stamp) => BulkMarkRepresentsIff(date, s, p, key, now, stamp);
  }

  ghost predicate Seen(date: LocalDate, s: Store, trace: seq<Event>)
    decreases |trace|
  {
    trace == [] || (StepSeen(date, s, trace[0]) && Seen(date, Step(date, s, trace[0]), trace[1..]))
  }

  /** States and markers say what the plain set says, at every moment of the history. */
  ghost predicate RepresentsAlong(date: LocalDate, s: Store, p: Plain, trace: seq<Event>)
    decreases |trace|
  {
    && Represents(date, s, p)
    && (trace != [] ==> RepresentsAlong(date, Step(date, s, trace[0]), PlainStep(date, p, trace[0]), trace[1..]))
  }

  /** Main result on commands: over any history of fetches, article marks and bulk marks, the
      articles that states and markers say are read are at every moment exactly those of the plain
      set, if and only if every step is seen. In particular bulk marks override unreads inside their
      window, keep those outside, lose nothing when they replace a marker, and never reach an
      article that comes later. */
  lemma {:induction false} MarkersRepresentAPlainSetIff(date: LocalDate, s: Store, p: Plain, trace: seq<Event>)
    requires Represents(date, s, p)
    ensures RepresentsAlong(date, s, p, trace) <==> Seen(date, s, trace)
    decreases |trace|
  {
    if trace != [] {
      StepRepresentsIff(date, s, p, trace[0]);
      if StepSeen(date, s, trace[0]) {
        MarkersRepresentAPlainSetIff(date, Step(date, s, trace[0]), PlainStep(date, p, trace[0]), trace[1..]);
      }
    }
  }

  /** A clock that never goes back, articles stored no earlier than the markers before them were
      written, and first marks with nothing yet stored past their cutoff, are enough. */
  lemma {:induction false} OrderedHistoriesAreSeen(date: LocalDate, s: Store, lastMark: int, lastFetch: int,
                                                   trace: seq<Event>)
    requires Bounded(s, lastMark, lastFetch) && Ordered(s.markers.Keys, lastMark, lastFetch, trace)
    ensures Seen(date, s, trace)
    decreases |trace|
  {
    if trace != [] {
      var s' := Step(date, s, trace[0]);
      match trace[0]
      case FetchEvent(a) =>
        OrderedHistoriesAreSeen(date, s', lastMark, Max(lastFetch, a.fetchedAt), trace[1..]);
      case ArticleEvent(_, _) =>
        OrderedHistoriesAreSeen(date, s', lastMark, lastFetch, trace[1..]);
      case BulkEvent(key, now, stamp) =>
        assert s'.markers.Keys == s.markers.Keys + {key};
        OrderedHistoriesAreSeen(date, s', StoredTime(s, key, now, stamp), lastFetch, trace[1..]);
    }
  }

  // ----- validating a marker -----

  datatype ReadScope = DayScope | WeekScope | MonthScope | FeedScope

  datatype RawMarker = RawMarker(scope: ReadScope, feed: Option<nat>, first: Option<int>, last: Option<int>)

  /** The `bulk_marker_valid_scope_shape` constraint. */
  predicate ShapeAllowed(m: RawMarker) {
    || (m.scope.FeedScope? && m.feed.Some? && m.first.None? && m.last.None?)
    || (!m.scope.FeedScope? && m.feed.None? && m.first.Some? && m.last.Some? && m.first.value <= m.last.value)
  }

  /** The key an allowed marker is stored under. */
  function KeyOf(m: RawMarker): MarkerKey
    requires ShapeAllowed(m)
  {
    match m.scope
    case FeedScope => FeedKey(m.feed.value)
    case DayScope => PeriodKey(Day, m.first.value, m.last.value)
    case WeekScope => PeriodKey(Week, m.first.value, m.last.value)
    case MonthScope => PeriodKey(Month, m.first.value, m.last.value)
  }

  /** `BulkReadMarker.clean`: the errors it collects are empty exactly for the markers the
      database constraint admits. */
  method Clean(m: RawMarker) returns (errors: map<string, string>)
    ensures errors == map[] <==> ShapeAllowed(m)
  {
    errors := map[];
    if m.scope.FeedScope? {
      if m.feed.None? { errors := errors["feed" := "Feed markers require a feed."]; }
      if m.first.Some? { errors := errors["period_start" := "Feed markers cannot have period dates."]; }
      if m.last.Some? { errors := errors["period_end" := "Feed markers cannot have period dates."]; }
      assert m.last.Some? ==> "period_end" in errors;
      assert m.first.Some? ==> "period_start" in errors;
      assert m.feed.None? ==> "feed" in errors;
    } else {
      if m.feed.Some? { errors := errors["feed" := "Period markers cannot have a feed."]; }
      if m.first.None? { errors := errors["period_start" := "Period markers require both dates."]; }
      if m.last.None? { errors := errors["period_end" := "Period markers require both dates."]; }
      if m.first.Some? && m.last.Some? && m.first.value > m.last.value {
        errors := errors["period_end" := "Period end must not precede period start."];
      }
      assert m.last.None? || (m.first.Some? && m.first.value > m.last.value) ==> "period_end" in errors;
      assert m.first.None? ==> "period_start" in errors;
      assert m.feed.Some? ==> "feed" in errors;
    }
  }

  /** The reader's rows as the commands change them. */
  class Reader {
    var articles: map<nat, Article>
    var states: map<nat, bool>
    var markers: map<MarkerKey, int>

    function State(): Store
      reads this
    {
      Store(articles, states, markers)
    }

    method MarkArticleRead(id: nat, isRead: bool)
      requires id in articles
      modifies this`states
      ensures State() == MarkArticle(old(State()), id, isRead)
    {
      states := states[id := isRead];
    }

    /** `mark_articles_read`: the upserts, row by row. */
    method MarkArticlesRead(ids: set<nat>)
      modifies this`states
      ensures states == MarkedRead(old(states), ids)
    {
      var pending := ids;
      while pending != {}
        invariant pending <= ids
        invariant states == MarkedRead(old(states), ids - pending)
        decreases |pending|
      {
        var id :| id in pending;
        states := states[id := true];
        pending := pending - {id};
      }
      assert ids - {} == ids;
    }

    /** `update_or_create` of the marker row. */
    method UpsertMarker(key: MarkerKey, now: int, stamp: int) returns (created: bool)
      modifies this`markers
      ensures created <==> key !in old(markers)
      ensures markers == old(markers)[key := StoredTime(old(State()), key, now, stamp)]
    {
      created := key !in markers;
      if created {
        markers := markers[key := stamp];
      } else {
        markers := markers[key := now];
      }
    }

    /** `mark_period_read` and `mark_feed_read`: a marker that is not well shaped changes
        nothing; otherwise states and marker change together. */
    method MarkBulkRead(date: LocalDate, marker: RawMarker, now: int, stamp: int) returns (accepted: bool)
      modifies this`states, this`markers
      ensures accepted <==> ShapeAllowed(marker)
      ensures State() == if accepted then MarkBulk(date, old(State()), KeyOf(marker), now, stamp) else old(State())
    {
      var errors := Clean(marker);
      if errors != map[] {
        return false;
      }
      var key := KeyOf(marker);
      MarkArticlesRead(Window(date, articles, key, now));
      var _ := UpsertMarker(key, now, stamp);
      return true;
    }
  }
}
