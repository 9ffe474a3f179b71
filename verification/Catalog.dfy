/** The catalog of categories and feeds, changed in place by an import and read by an export. */
module Catalog {
  import opened Common
  import opened Opml
  import opened OpmlExport
  import opened OpmlImport
  import Slugs

  predicate PlannedBefore(p: Planned, q: Planned) {
    StringLess(p.categoryName, q.categoryName) ||
    (p.categoryName == q.categoryName &&
     (StringLess(p.feedUrl, q.feedUrl) ||
      (p.feedUrl == q.feedUrl &&
       (StringLess(p.title, q.title) || (p.title == q.title && StringLess(p.siteUrl, q.siteUrl))))))
  }

  /** The feed urls of `planned` that no feed of `db` has. */
  function NewUrls(db: Database, planned: seq<Planned>): set<string> {
    if planned == [] then {}
    else
      var p := planned[|planned| - 1];
      NewUrls(db, planned[..|planned| - 1]) +
      if exists pk :: pk in db.feeds && db.feeds[pk].feedUrl == p.feedUrl then {} else {p.feedUrl}
  }

  lemma {:induction false} NewUrlsAre(db: Database, planned: seq<Planned>)
    ensures forall u :: u in NewUrls(db, planned) <==> Mentions(planned, u) && !HasUrl(db, u)
  {
    if planned != [] {
      NewUrlsAre(db, planned[..|planned| - 1]);
      assert forall p :: p in planned <==> p in planned[..|planned| - 1] || p == planned[|planned| - 1];
    }
  }

  function UsedSlugs(categories: map<nat, Category>): set<string> { set k | k in categories :: categories[k].slug }

  /** Categories stay, and new ones bear names of `names` that were missing. */
  ghost predicate OnlyNamedAdded(before: Database, after: Database, names: set<string>) {
    && (forall k :: k in before.categories ==> k in after.categories && after.categories[k] == before.categories[k])
    && (forall k :: k in after.categories && k !in before.categories ==>
          after.categories[k].name in names && !HasName(before, after.categories[k].name))
  }

  lemma OneCategoryMore(before: Database, between: Database, after: Database, names: set<string>, name: string, pk: nat)
    requires OnlyNamedAdded(before, between, names) && name in names
    requires pk in after.categories && after.categories[pk].name == name
    requires forall k :: k in between.categories ==>
        k in after.categories && after.categories[k] == between.categories[k]
    requires forall k :: k in after.categories && k !in between.categories ==> k == pk && !HasName(between, name)
    ensures OnlyNamedAdded(before, after, names)
  {
    if k :| k in before.categories && before.categories[k].name == name {
      assert between.categories[k].name == name;
    }
  }

  lemma FeedWriteKeepsValid(feeds: map<nat, FeedRow>, categories: map<nat, Category>, pk: nat, row: FeedRow)
    requires ValidFeeds(feeds, categories)
    requires row.category.Some? ==> row.category.value in categories
    requires forall q :: q in feeds && q != pk ==> feeds[q].feedUrl != row.feedUrl
    ensures ValidFeeds(feeds[pk := row], categories)
  {
  }

  class Feeds {
    var categories: map<nat, Category>
    var feeds: map<nat, FeedRow>
    var nextCategory: nat
    var nextFeed: nat

    ghost function State(): Database
      reads this
    {
      Database(categories, feeds, nextCategory, nextFeed)
    }

    constructor ()
      ensures OpmlImport.Valid(State()) && categories == map[] && feeds == map[]
    {
      categories, feeds, nextCategory, nextFeed := map[], map[], 0, 0;
    }

    /** The category of that name, made under the first free slug if there is none. */
    method CategoryFromName(slugBase: string, name: string) returns (pk: nat)
      requires OpmlImport.Valid(State()) && name != ""
      modifies this`categories, this`nextCategory
      ensures OpmlImport.Valid(State())
      ensures pk in categories && categories[pk].name == name
      ensures forall k :: k in old(categories) ==> k in categories && categories[k] == old(categories)[k]
      ensures forall k :: k in categories && k !in old(categories) ==> k == pk && !HasName(old(State()), name)
      ensures pk !in old(categories) ==>
                pk == old(nextCategory) && Slugs.FirstFree(slugBase, UsedSlugs(old(categories)), categories[pk].slug)
    {
      if found :| found in categories && categories[found].name == name {
        return found;
      }
      var slug := Slugs.FreeSlug(slugBase, UsedSlugs(categories));
      pk := nextCategory;
      categories, nextCategory := categories[pk := Category(name, slug)], nextCategory + 1;
    }

    /** `update_or_create` by feed url. */
    method UpdateOrCreate(p: Planned, category: Option<nat>) returns (created: bool)
      requires OpmlImport.Valid(State())
      requires category.Some? ==> category.value in categories && p.categoryName != ""
      requires NameOf(State(), category) == p.categoryName
      modifies this`feeds, this`nextFeed
      ensures OpmlImport.Valid(State())
      ensures created <==> !HasUrl(old(State()), p.feedUrl)
      ensures Upserted(old(State()), State(), p)
    {
      if pk :| pk in feeds && feeds[pk].feedUrl == p.feedUrl {
        var row := FeedRow(p.title, p.feedUrl, p.siteUrl, category, true, feeds[pk].history);
        FeedWriteKeepsValid(feeds, categories, pk, row);
        feeds := feeds[pk := row];
        created := false;
        assert Shows(State(), pk, p);
      } else {
        var row := FeedRow(p.title, p.feedUrl, p.siteUrl, category, true, 0);
        FeedWriteKeepsValid(feeds, categories, nextFeed, row);
        feeds, nextFeed := feeds[nextFeed := row], nextFeed + 1;
        assert Shows(State(), nextFeed - 1, p);
        created := true;
      }
    }

    /** The categories of the plan, by name; taken in an arbitrary order of names. */
    method ResolveCategories(names: set<string>, slugBase: string -> string) returns (byName: map<string, nat>)
      requires OpmlImport.Valid(State()) && "" !in names
      modifies this`categories, this`nextCategory
      ensures OpmlImport.Valid(State())
      ensures OnlyNamedAdded(old(State()), State(), names)
      ensures byName.Keys == names
      ensures forall n :: n in names ==> byName[n] in categories && categories[byName[n]].name == n
    {
      ghost var before := State();
      byName := map[];
      var pending := names;
      while pending != {}
        invariant pending <= names && byName.Keys == names - pending
        invariant OpmlImport.Valid(State())
        invariant OnlyNamedAdded(before, State(), names)
        invariant forall n :: n in byName ==> byName[n] in categories && categories[byName[n]].name == n
        decreases pending
      {
        var name :| name in pending;
        ghost var between := State();
        var pk := CategoryFromName(slugBase(name), name);
        OneCategoryMore(before, between, State(), names, name, pk);
        byName := byName[name := pk];
        pending := pending - {name};
      }
    }

    /** The feeds one by one, each under the category already found for its name. */
    method WriteFeeds(ordered: seq<Planned>, byName: map<string, nat>) returns (created: nat, updated: nat)
      requires OpmlImport.Valid(State())
      requires forall i, j :: 0 <= i < j < |ordered| ==> ordered[i].feedUrl != ordered[j].feedUrl
      requires forall p :: p in ordered && p.categoryName != "" ==> p.categoryName in byName
      requires forall n :: n in byName ==> n != "" && byName[n] in categories && categories[byName[n]].name == n
      modifies this`feeds, this`nextFeed
      ensures OpmlImport.Valid(State()) && FeedsFollow(old(State()), State(), ordered)
      ensures created == |NewUrls(old(State()), ordered)| && created + updated == |ordered|
    {
      ghost var before := State();
      created, updated := 0, 0;
      for i := 0 to |ordered|
        invariant OpmlImport.Valid(State())
        invariant FeedsFollow(before, State(), ordered[..i])
        invariant created == |NewUrls(before, ordered[..i])| && created + updated == i
      {
        var p := ordered[i];
        ghost var between := State();
        var category := if p.categoryName in byName then Some(byName[p.categoryName]) else None;
        var wasCreated := UpdateOrCreate(p, category);
        OneFeedMore(before, between, State(), ordered, i);
        if wasCreated {
          created := created + 1;
        } else {
          updated := updated + 1;
        }
      }
      assert ordered[..|ordered|] == ordered;
    }

    /** The whole import of a parsed document, whose feeds have distinct urls. */
    method ImportOpml(planned: seq<Planned>, slugBase: string -> string) returns (created: nat, updated: nat)
      requires OpmlImport.Valid(State())
      requires forall i, j :: 0 <= i < j < |planned| ==> planned[i].feedUrl != planned[j].feedUrl
      modifies this
      ensures Imported(old(State()), State(), planned)
      ensures created == |NewUrls(old(State()), planned)| && created + updated == |planned|
    {
      ghost var before := State();
      CategoryNamesAre(planned);
      var byName := ResolveCategories(CategoryNames(planned), slugBase);
      ghost var resolved := State();
      var ordered := Sort(PlannedBefore, planned);
      OrderedPlan(planned, ordered);
      created, updated := WriteFeeds(ordered, byName);
      FollowsInAnyOrder(resolved, State(), planned, ordered);
      SameFeeds(before, resolved, State(), planned);
    }
  }

  /** Resolving categories first touches no feed, so what follows is measured from the start. */
  lemma SameFeeds(before: Database, resolved: Database, after: Database, planned: seq<Planned>)
    requires resolved.feeds == before.feeds && FeedsFollow(resolved, after, planned)
    ensures FeedsFollow(before, after, planned)
    ensures NewUrls(resolved, planned) == NewUrls(before, planned)
  {
    assert forall u :: HasUrl(before, u) <==> HasUrl(resolved, u);
    NewUrlsAre(before, planned);
    NewUrlsAre(resolved, planned);
    assert forall u :: u in NewUrls(before, planned) <==> u in NewUrls(resolved, planned);
  }

  function CategoryNames(planned: seq<Planned>): set<string> {
    if planned == [] then {}
    else
      var name := planned[|planned| - 1].categoryName;
      CategoryNames(planned[..|planned| - 1]) + if name == "" then {} else {name}
  }

  lemma {:induction false} CategoryNamesAre(planned: seq<Planned>)
    ensures forall n :: n in CategoryNames(planned) <==> n != "" && NamesCategory(planned, n)
  {
    if planned != [] {
      CategoryNamesAre(planned[..|planned| - 1]);
      assert forall p :: p in planned <==> p in planned[..|planned| - 1] || p == planned[|planned| - 1];
    }
  }

  lemma OrderedPlan(planned: seq<Planned>, ordered: seq<Planned>)
    requires ordered == Sort(PlannedBefore, planned)
    requires forall i, j :: 0 <= i < j < |planned| ==> planned[i].feedUrl != planned[j].feedUrl
    ensures |ordered| == |planned| && forall p :: p in ordered <==> p in planned
    ensures forall i, j :: 0 <= i < j < |ordered| ==> ordered[i].feedUrl != ordered[j].feedUrl
  {
    SortPermutes(PlannedBefore, planned);
    assert |ordered| == |multiset(ordered)| == |multiset(planned)| == |planned|;
    PairwiseInAnyOrder((p: Planned, q: Planned) => p.feedUrl != q.feedUrl, planned, ordered);
    forall p ensures p in ordered <==> p in planned {
      assert p in ordered <==> p in multiset(ordered);
      assert p in planned <==> p in multiset(planned);
    }
  }

  lemma NotYetMentioned(ordered: seq<Planned>, i: nat)
    requires i < |ordered|
    requires forall j, k :: 0 <= j < k < |ordered| ==> ordered[j].feedUrl != ordered[k].feedUrl
    ensures !Mentions(ordered[..i], ordered[i].feedUrl)
  {
    forall p | p in ordered[..i] ensures p.feedUrl != ordered[i].feedUrl {
      var j :| 0 <= j < i && ordered[..i][j] == p;
      assert ordered[j].feedUrl != ordered[i].feedUrl;
    }
  }

  lemma NewUrlsGrow(db: Database, done: seq<Planned>, p: Planned)
    requires !Mentions(done, p.feedUrl)
    ensures |NewUrls(db, done + [p])| == |NewUrls(db, done)| + if HasUrl(db, p.feedUrl) then 0 else 1
  {
    NewUrlsAre(db, done);
    assert (done + [p])[..|done|] == done;
  }

  lemma OneFeedMore(before: Database, between: Database, after: Database, ordered: seq<Planned>, i: nat)
    requires i < |ordered|
    requires forall j, k :: 0 <= j < k < |ordered| ==> ordered[j].feedUrl != ordered[k].feedUrl
    requires FeedsFollow(before, between, ordered[..i]) && Upserted(between, after, ordered[i])
    ensures FeedsFollow(before, after, ordered[..i + 1])
    ensures |NewUrls(before, ordered[..i + 1])| ==
        |NewUrls(before, ordered[..i])| + if HasUrl(between, ordered[i].feedUrl) then 0 else 1
  {
    assert ordered[..i + 1] == ordered[..i] + [ordered[i]];
    NotYetMentioned(ordered, i);
    UpsertExtends(before, between, after, ordered[..i], ordered[i]);
    NewUrlsGrow(before, ordered[..i], ordered[i]);
  }

  lemma FollowsInAnyOrder(before: Database, after: Database, planned: seq<Planned>, ordered: seq<Planned>)
    requires FeedsFollow(before, after, ordered) && forall p :: p in ordered <==> p in planned
    ensures FeedsFollow(before, after, planned)
    ensures NewUrls(before, ordered) == NewUrls(before, planned)
  {
    assert forall u :: Mentions(ordered, u) <==> Mentions(planned, u);
    NewUrlsAre(before, ordered);
    NewUrlsAre(before, planned);
    assert forall u :: u in NewUrls(before, ordered) <==> u in NewUrls(before, planned);
  }
}
