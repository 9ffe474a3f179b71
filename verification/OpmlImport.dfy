/** Parsing a document in place, and importing the parsed feeds into the catalog of categories
    and feeds. */
module OpmlImport {
  import opened Common
  import opened Opml

  // ----- the document -----

  function Bodies(children: seq<Element>): seq<Element> {
    if children == [] then []
    else (if children[0].tag == "body" then [children[0]] else []) + Bodies(children[1..])
  }

  /** The document's one body, wherever among the root's children. */
  lemma {:induction false} OneBodyIff(children: seq<Element>)
    ensures |Bodies(children)| == 0 <==> forall i :: 0 <= i < |children| ==> children[i].tag != "body"
    ensures |Bodies(children)| == 1 <==> exists i :: 0 <= i < |children| && OnlyBody(children, i)
    ensures forall i :: 0 <= i < |children| && OnlyBody(children, i) ==> Bodies(children) == [children[i]]
  {
    if children != [] {
      var rest := children[1..];
      OneBodyIff(rest);
      assert forall i :: 0 <= i < |rest| ==> rest[i] == children[i + 1];
      if i :| 0 <= i < |rest| && OnlyBody(rest, i) {
        assert children[0].tag != "body" ==> OnlyBody(children, i + 1);
      }
      if i :| 0 <= i < |children| && OnlyBody(children, i) {
        assert i > 0 ==> OnlyBody(rest, i - 1);
      }
      forall i | 0 <= i < |children| && OnlyBody(children, i) ensures Bodies(children) == [children[i]] {
        assert i > 0 ==> OnlyBody(rest, i - 1);
      }
      if children[0].tag == "body" && |Bodies(rest)| == 0 {
        assert OnlyBody(children, 0);
      }
    }
  }

  predicate OnlyBody(children: seq<Element>, i: int)
    requires 0 <= i < |children|
  {
    children[i].tag == "body" && forall j :: 0 <= j < |children| && j != i ==> children[j].tag != "body"
  }

  /** The visit's closure variables, changed by every outline it meets. */
  class OpmlParser {
    const checks: Checks
    var feeds: seq<Planned>
    var byUrl: map<string, Planned>
    var duplicates: nat
    var outlines: nat

    ghost function State(): Progress
      reads this
    {
      Progress(feeds, byUrl, duplicates, outlines)
    }

    constructor (checks: Checks)
      ensures this.checks == checks && State() == NOTHING
    {
      this.checks, feeds, byUrl, duplicates, outlines := checks, [], map[], 0, 0;
    }

    /** `ok` is false when the source raises. */
    method VisitParent(children: seq<Element>, category: string, depth: nat) returns (ok: bool)
      modifies this
      ensures ok <==> Visit(checks, children, category, depth, old(State())).Some?
      ensures ok ==> Visit(checks, children, category, depth, old(State())) == Some(State())
      decreases children, 1
    {
      if depth > OPML_MAX_DEPTH {
        return false;
      }
      ghost var start := State();
      assert children[0..] == children;
      for i := 0 to |children|
        invariant VisitAll(checks, children, category, depth, start) ==
            VisitAll(checks, children[i..], category, depth, State())
      {
        assert children[i..][0] == children[i] && children[i..][1..] == children[i + 1..];
        ok := VisitChild(children[i], category, depth);
        if !ok {
          return;
        }
      }
      ok := true;
    }

    method VisitChild(child: Element, category: string, depth: nat) returns (ok: bool)
      modifies this
      ensures ok <==> VisitOne(checks, child, category, depth, old(State())).Some?
      ensures ok ==> VisitOne(checks, child, category, depth, old(State())) == Some(State())
      decreases child, 2
    {
      if child.tag != OUTLINE {
        return false;
      }
      outlines := outlines + 1;
      if outlines > OPML_MAX_OUTLINES {
        return false;
      }
      if Strip(child.xmlUrl) != "" {
        var parsed := PlannedFeed(child, category);
        if child.children != [] || !checks.feed(parsed) {
          return false;
        }
        if parsed.feedUrl in byUrl {
          if byUrl[parsed.feedUrl] != parsed {
            return false;
          }
          duplicates := duplicates + 1;
          return true;
        }
        byUrl := byUrl[parsed.feedUrl := parsed];
        feeds := feeds + [parsed];
        return true;
      }
      var name := Or(child.title, child.text);
      if Strip(name) == "" || child.children == [] || !checks.category(name) {
        return false;
      }
      ok := VisitParent(child.children, name, depth + 1);
    }
  }

  method ParseOpml(checks: Checks, root: Element) returns (parsed: Option<(seq<Planned>, nat)>)
    ensures parsed.Some? <==>
            root.tag == "opml" && |Bodies(root.children)| == 1 &&
            Visit(checks, Bodies(root.children)[0].children, "", 1, NOTHING).Some?
    ensures parsed.Some? ==>
              var end := Visit(checks, Bodies(root.children)[0].children, "", 1, NOTHING).value;
              parsed.value == (end.feeds, end.duplicates)
  {
    var bodies := Bodies(root.children);
    if root.tag != "opml" || |bodies| != 1 {
      return None;
    }
    var parser := new OpmlParser(checks);
    var ok := parser.VisitParent(bodies[0].children, "", 1);
    parsed := if ok then Some((parser.feeds, parser.duplicates)) else None;
  }

  // ----- the catalog -----

  datatype Category = Category(name: string, slug: string)

  /** A feed; `history` stands for the columns an import never touches. */
  datatype FeedRow = FeedRow(title: string, feedUrl: string, siteUrl: string, category: Option<nat>, active: bool,
                             history: int)

  datatype Database = Database(categories: map<nat, Category>, feeds: map<nat, FeedRow>, nextCategory: nat,
                               nextFeed: nat)

  ghost predicate ValidCategories(categories: map<nat, Category>) {
    && (forall p, q :: p in categories && q in categories && categories[p].name == categories[q].name ==> p == q)
    && (forall p, q :: p in categories && q in categories && categories[p].slug == categories[q].slug ==> p == q)
    && (forall p :: p in categories ==> categories[p].name != "")
  }

  ghost predicate ValidFeeds(feeds: map<nat, FeedRow>, categories: map<nat, Category>) {
    && (forall p, q :: p in feeds && q in feeds && feeds[p].feedUrl == feeds[q].feedUrl ==> p == q)
    && (forall p :: p in feeds && feeds[p].category.Some? ==> feeds[p].category.value in categories)
  }

  /** The unique columns, the foreign key, and fresh keys being fresh. */
  ghost predicate Valid(db: Database) {
    && ValidCategories(db.categories)
    && ValidFeeds(db.feeds, db.categories)
    && (forall p :: p in db.categories ==> p < db.nextCategory)
    && (forall p :: p in db.feeds ==> p < db.nextFeed)
  }

  function NameOf(db: Database, category: Option<nat>): string {
    if category.Some? && category.value in db.categories then db.categories[category.value].name else ""
  }

  /** Feed `pk` is what `p` asks for. */
  predicate Shows(db: Database, pk: nat, p: Planned) {
    && pk in db.feeds
    && db.feeds[pk].title == p.title && db.feeds[pk].feedUrl == p.feedUrl && db.feeds[pk].siteUrl == p.siteUrl
    && db.feeds[pk].active && NameOf(db, db.feeds[pk].category) == p.categoryName
    && (db.feeds[pk].category.Some? ==> p.categoryName != "")
  }

  ghost predicate Mentions(planned: seq<Planned>, url: string) { exists p :: p in planned && p.feedUrl == url }

  ghost predicate HasUrl(db: Database, url: string) { exists pk :: pk in db.feeds && db.feeds[pk].feedUrl == url }

  ghost predicate HasName(db: Database, name: string) {
    exists pk :: pk in db.categories && db.categories[pk].name == name
  }

  ghost predicate NamesCategory(planned: seq<Planned>, name: string) {
    exists p :: p in planned && p.categoryName == name
  }

  /** Categories only ever get added, and only named ones that were missing. */
  ghost predicate CategoriesGrow(before: Database, after: Database, planned: seq<Planned>) {
    && (forall pk :: pk in before.categories ==>
        pk in after.categories && after.categories[pk] == before.categories[pk])
    && (forall pk :: pk in after.categories && pk !in before.categories ==>
          NamesCategory(planned, after.categories[pk].name) && !HasName(before, after.categories[pk].name))
  }

  ghost predicate AllShown(after: Database, planned: seq<Planned>) {
    forall p :: p in planned ==> exists pk :: Shows(after, pk, p)
  }

  ghost predicate OthersKept(before: Database, after: Database, planned: seq<Planned>) {
    forall pk :: pk in before.feeds ==>
      && pk in after.feeds && after.feeds[pk].feedUrl == before.feeds[pk].feedUrl
      && after.feeds[pk].history == before.feeds[pk].history
      && (!Mentions(planned, before.feeds[pk].feedUrl) ==> after.feeds[pk] == before.feeds[pk])
  }

  ghost predicate NothingElse(before: Database, after: Database, planned: seq<Planned>) {
    forall pk :: pk in after.feeds && pk !in before.feeds ==>
      Mentions(planned, after.feeds[pk].feedUrl) && !HasUrl(before, after.feeds[pk].feedUrl)
  }

  /** What importing `planned` does to the feeds: every one of them ends up as planned, the
      others and every untouched column stay, and nothing else appears. */
  ghost predicate FeedsFollow(before: Database, after: Database, planned: seq<Planned>) {
    AllShown(after, planned) && OthersKept(before, after, planned) && NothingElse(before, after, planned)
  }

  /** What one `update_or_create` does. */
  ghost predicate Upserted(before: Database, after: Database, p: Planned) {
    && after.categories == before.categories
    && (exists pk :: Shows(after, pk, p))
    && (forall k :: k in before.feeds ==>
          && k in after.feeds && after.feeds[k].feedUrl == before.feeds[k].feedUrl
          && after.feeds[k].history == before.feeds[k].history
          && (before.feeds[k].feedUrl != p.feedUrl ==> after.feeds[k] == before.feeds[k]))
    && (forall k :: k in after.feeds && k !in before.feeds ==>
        after.feeds[k].feedUrl == p.feedUrl && !HasUrl(before, p.feedUrl))
  }

  lemma MentionsMore(done: seq<Planned>, p: Planned)
    ensures forall u :: Mentions(done + [p], u) <==> Mentions(done, u) || u == p.feedUrl
  {
    assert forall q :: q in done + [p] <==> q in done || q == p;
    assert p in done + [p];
  }

  lemma UpsertShows(between: Database, after: Database, done: seq<Planned>, p: Planned)
    requires AllShown(between, done) && Upserted(between, after, p) && !Mentions(done, p.feedUrl)
    ensures AllShown(after, done + [p])
  {
    forall q | q in done + [p] ensures exists pk :: Shows(after, pk, q) {
      if q in done {
        var pk :| Shows(between, pk, q);
        assert Shows(after, pk, q);
      }
    }
  }

  lemma UpsertExtends(before: Database, between: Database, after: Database, done: seq<Planned>, p: Planned)
    requires FeedsFollow(before, between, done) && Upserted(between, after, p) && !Mentions(done, p.feedUrl)
    ensures FeedsFollow(before, after, done + [p])
    ensures HasUrl(between, p.feedUrl) <==> HasUrl(before, p.feedUrl)
  {
    MentionsMore(done, p);
    UpsertShows(between, after, done, p);
    SameUrlKnown(before, between, done, p.feedUrl);
    assert OthersKept(before, after, done + [p]);
    assert NothingElse(before, after, done + [p]);
  }

  lemma SameUrlKnown(before: Database, between: Database, done: seq<Planned>, url: string)
    requires FeedsFollow(before, between, done) && !Mentions(done, url)
    ensures HasUrl(between, url) <==> HasUrl(before, url)
  {
    if k :| k in before.feeds && before.feeds[k].feedUrl == url {
      assert between.feeds[k].feedUrl == url;
    }
    if k :| k in between.feeds && between.feeds[k].feedUrl == url {
      assert k in before.feeds && before.feeds[k].feedUrl == url;
    }
  }

  ghost predicate Imported(before: Database, after: Database, planned: seq<Planned>) {
    Valid(after) && CategoriesGrow(before, after, planned) && FeedsFollow(before, after, planned)
  }

  /** A database that already shows everything planned does not change at all. */
  lemma ImportOfWhatIsShown(before: Database, after: Database, planned: seq<Planned>)
    requires Valid(before) && Imported(before, after, planned)
    requires forall p :: p in planned ==> exists pk :: Shows(before, pk, p)
    ensures after.feeds == before.feeds && after.categories == before.categories
    ensures forall p :: p in planned ==> HasUrl(before, p.feedUrl)
  {
    forall p | p in planned
      ensures HasUrl(before, p.feedUrl) && (p.categoryName != "" ==> HasName(before, p.categoryName))
    {
      var pk :| Shows(before, pk, p);
      assert before.feeds[pk].feedUrl == p.feedUrl;
    }
    forall pk | pk in after.categories ensures pk in before.categories {
      assert after.categories[pk].name != "";
    }
    assert after.categories.Keys == before.categories.Keys;
    assert after.categories == before.categories;
    forall pk | pk in after.feeds ensures pk in before.feeds {
    }
    assert after.feeds.Keys == before.feeds.Keys;
    forall pk | pk in before.feeds ensures after.feeds[pk] == before.feeds[pk] {
      if Mentions(planned, before.feeds[pk].feedUrl) {
        var p :| p in planned && p.feedUrl == before.feeds[pk].feedUrl;
        var was :| Shows(before, was, p);
        var now :| Shows(after, now, p);
        SameShown(before, after, p, pk, was, now);
      }
    }
  }

  lemma SameShown(before: Database, after: Database, p: Planned, pk: nat, was: nat, now: nat)
    requires Valid(before) && Valid(after) && after.categories == before.categories
    requires pk in before.feeds && pk in after.feeds && before.feeds[pk].feedUrl == p.feedUrl == after.feeds[pk].feedUrl
    requires after.feeds[pk].history == before.feeds[pk].history
    requires Shows(before, was, p) && Shows(after, now, p)
    ensures after.feeds[pk] == before.feeds[pk]
  {
    assert was == pk && now == pk;
    var c, d := before.feeds[pk].category, after.feeds[pk].category;
    assert NameOf(before, c) == NameOf(after, d);
    assert c.Some? <==> d.Some?;
  }

  /** Main result on import: importing the same feeds again changes nothing and creates none. */
  lemma ImportingTwiceIsImportingOnce(first: Database, second: Database, third: Database, planned: seq<Planned>)
    requires Imported(first, second, planned) && Imported(second, third, planned)
    ensures third.feeds == second.feeds && third.categories == second.categories
    ensures forall p :: p in planned ==> HasUrl(second, p.feedUrl)
  {
    ImportOfWhatIsShown(second, third, planned);
  }
}
