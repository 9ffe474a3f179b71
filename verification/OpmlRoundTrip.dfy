/** Exporting the catalog and importing the document again. */
module OpmlRoundTrip {
  import opened Common
  import opened Opml
  import opened OpmlExport
  import opened OpmlImport
  import Catalog

  function RowOf(db: Database, f: FeedRow): Row {
    Row(f.title, f.feedUrl, f.siteUrl,
        if f.category.Some? && f.category.value in db.categories
        then Some(Label(f.category.value, db.categories[f.category.value].name)) else None)
  }

  /** The active feeds, each once; the source orders them by category, title and url, and the
      results below hold for every order. */
  ghost predicate ListsActive(db: Database, pks: seq<nat>) {
    && (forall i, j :: 0 <= i < j < |pks| ==> pks[i] != pks[j])
    && (forall pk :: pk in pks <==> pk in db.feeds && db.feeds[pk].active)
  }

  function Listing(db: Database, pks: seq<nat>): (rows: seq<Row>)
    requires forall pk :: pk in pks ==> pk in db.feeds
    ensures |rows| == |pks| && forall i :: 0 <= i < |pks| ==> rows[i] == RowOf(db, db.feeds[pks[i]])
  {
    seq(|pks|, i requires 0 <= i < |pks| => RowOf(db, db.feeds[pks[i]]))
  }

  lemma ListingIsFromDatabase(db: Database, pks: seq<nat>)
    requires OpmlImport.Valid(db) && ListsActive(db, pks)
    ensures FromDatabase(Listing(db, pks))
  {
    var rows := Listing(db, pks);
    forall i, j | 0 <= i < j < |rows| ensures rows[i].feedUrl != rows[j].feedUrl && SameLabel(rows[i], rows[j]) {
      assert pks[i] in pks && pks[j] in pks;
    }
  }

  /** Every parsed feed is already in the catalog, exactly as parsed. */
  lemma ParsedIsShown(c: Checks, db: Database, pks: seq<nat>, feeds: seq<Planned>)
    requires OpmlImport.Valid(db) && ListsActive(db, pks) && AllPortable(c, Listing(db, pks))
    requires multiset(feeds) == multiset(Entries(Listing(db, pks)))
    ensures forall p :: p in feeds ==> exists pk :: Shows(db, pk, p)
  {
    var rows := Listing(db, pks);
    forall p | p in feeds ensures exists pk :: Shows(db, pk, p) {
      assert p in multiset(Entries(rows));
      var i :| 0 <= i < |rows| && Entries(rows)[i] == p;
      EntryAt(rows, i);
      assert pks[i] in pks && Portable(c, rows[i]);
      assert Strip("") == "";
      assert Shows(db, pks[i], p);
    }
  }

  /** Main result on OPML: for every catalog whose active feeds are portable and, with their
      categories, number at most 1000, importing what was exported reads every active feed back,
      creates none, skips none, and leaves every category and feed as it was. */
  lemma ExportThenImportChangesNothing(c: Checks, db: Database, pks: seq<nat>, after: Database)
    requires OpmlImport.Valid(db) && ListsActive(db, pks)
    requires var rows := Listing(db, pks); AllPortable(c, rows) && |rows| + |Names(rows)| <= OPML_MAX_OUTLINES
    ensures var rows := Listing(db, pks);
      var parsed := Visit(c, Drafted(rows).body, "", 1, NOTHING);
      && parsed.Some? && parsed.value.duplicates == 0
      && multiset(parsed.value.feeds) == multiset(Entries(rows))
      && Catalog.NewUrls(db, parsed.value.feeds) == {}
      && (Imported(db, after, parsed.value.feeds) ==> after.feeds == db.feeds && after.categories == db.categories)
  {
    var rows := Listing(db, pks);
    ListingIsFromDatabase(db, pks);
    ReadsBackIff(c, rows);
    var feeds := Visit(c, Drafted(rows).body, "", 1, NOTHING).value.feeds;
    ParsedIsShown(c, db, pks, feeds);
    Catalog.NewUrlsAre(db, feeds);
    forall u | Mentions(feeds, u) ensures HasUrl(db, u) {
      var p :| p in feeds && p.feedUrl == u;
      var pk :| Shows(db, pk, p);
    }
    assert Catalog.NewUrls(db, feeds) == {};
    if Imported(db, after, feeds) {
      ImportOfWhatIsShown(db, after, feeds);
    }
  }

  /** The parser hands the import distinct urls, which is what the import relies on. */
  lemma ParsedUrlsDiffer(c: Checks, children: seq<Element>)
    requires Visit(c, children, "", 1, NOTHING).Some?
    ensures var feeds := Visit(c, children, "", 1, NOTHING).value.feeds;
      forall i, j :: 0 <= i < j < |feeds| ==> feeds[i].feedUrl != feeds[j].feedUrl
  {
    var listed := Flat(children, "");
    ParseIff(c, children);
    FirstCopiesKeepsEach(listed);
    var feeds := FirstCopies(listed);
    forall i, j | 0 <= i < j < |feeds| ensures feeds[i].feedUrl != feeds[j].feedUrl {
      assert feeds[i] in listed && feeds[j] in listed;
      var k :| 0 <= k < |listed| && listed[k] == feeds[i];
      var l :| 0 <= l < |listed| && listed[l] == feeds[j];
      assert k < l || l < k;
    }
  }

  /** A whole upload: parse, and only then write. A refused document changes nothing. */
  method ImportDocument(catalog: Catalog.Feeds, checks: Checks, root: Element, slugBase: string -> string)
    returns (result: Option<(nat, nat, nat)>)
    requires OpmlImport.Valid(catalog.State())
    modifies catalog
    ensures OpmlImport.Valid(catalog.State())
    ensures result.None? ==> catalog.State() == old(catalog.State())
    ensures result.Some? ==>
              && |Bodies(root.children)| == 1
              && var parsed := Visit(checks, Bodies(root.children)[0].children, "", 1, NOTHING);
              && parsed.Some?
              && Imported(old(catalog.State()), catalog.State(), parsed.value.feeds)
              && result.value.0 == |Catalog.NewUrls(old(catalog.State()), parsed.value.feeds)|
              && result.value.0 + result.value.1 == |parsed.value.feeds|
              && result.value.2 == parsed.value.duplicates
  {
    var parsed := ParseOpml(checks, root);
    if parsed.None? {
      return None;
    }
    ParsedUrlsDiffer(checks, Bodies(root.children)[0].children);
    var created, updated := catalog.ImportOpml(parsed.value.0, slugBase);
    result := Some((created, updated, parsed.value.1));
  }

  /** The exported document: a head, and one body holding the grouped feeds. */
  method ExportDocument(catalog: Catalog.Feeds, pks: seq<nat>) returns (root: Element)
    requires OpmlImport.Valid(catalog.State()) && ListsActive(catalog.State(), pks)
    ensures root.tag == "opml" && |Bodies(root.children)| == 1
    ensures Bodies(root.children)[0].children == Drafted(Listing(catalog.State(), pks)).body
  {
    var db := Database(catalog.categories, catalog.feeds, catalog.nextCategory, catalog.nextFeed);
    ListingIsFromDatabase(db, pks);
    var outlines := ExportBody(Listing(db, pks));
    var head := Element("head", "", "", "", "", []);
    var body := Element("body", "", "", "", "", outlines);
    root := Element("opml", "", "", "", "", [head, body]);
    assert Bodies([body][1..]) == [];
    assert Bodies([body]) == [body];
    assert [head, body][1..] == [body];
  }
}
