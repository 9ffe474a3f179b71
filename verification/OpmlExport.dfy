/** The exported tree, and reading it back. */
module OpmlExport {
  import opened Common
  import opened Opml

  datatype Label = Label(pk: nat, name: string)

  /** An active feed joined with its category. */
  datatype Row = Row(title: string, feedUrl: string, siteUrl: string, category: Option<Label>)

  function CategoryName(r: Row): string { if r.category.None? then "" else r.category.value.name }

  function Entry(r: Row): Planned { Planned(r.title, r.feedUrl, r.siteUrl, CategoryName(r)) }

  function Entries(listed: seq<Row>): (entries: seq<Planned>)
    ensures |entries| == |listed|
  {
    if listed == [] then [] else Entries(listed[..|listed| - 1]) + [Entry(listed[|listed| - 1])]
  }

  function Leaf(r: Row): Element { Element(OUTLINE, r.title, r.title, r.feedUrl, r.siteUrl, []) }

  function Group(l: Label, children: seq<Element>): Element { Element(OUTLINE, l.name, l.name, "", "", children) }

  /** The body so far and where each category's outline is in it. */
  datatype Draft = Draft(body: seq<Element>, outlines: map<nat, nat>)

  function WithChild(e: Element, child: Element): Element { e.(children := e.children + [child]) }

  function AddRow(d: Draft, r: Row): Draft {
    if r.category.None? then d.(body := d.body + [Leaf(r)])
    else
      var l := r.category.value;
      if l.pk !in d.outlines then Draft(d.body + [Group(l, [Leaf(r)])], d.outlines[l.pk := |d.body|])
      else if d.outlines[l.pk] < |d.body| then
        var k := d.outlines[l.pk];
        d.(body := d.body[k := WithChild(d.body[k], Leaf(r))])
      else d
  }

  function Drafted(listed: seq<Row>): Draft {
    if listed == [] then Draft([], map[]) else AddRow(Drafted(listed[..|listed| - 1]), listed[|listed| - 1])
  }

  function WithName(names: map<nat, string>, r: Row): map<nat, string> {
    if r.category.None? then names else names[r.category.value.pk := r.category.value.name]
  }

  /** The categories the listed feeds belong to. */
  function Names(listed: seq<Row>): map<nat, string> {
    if listed == [] then map[] else WithName(Names(listed[..|listed| - 1]), listed[|listed| - 1])
  }

  predicate SameLabel(r: Row, s: Row) {
    r.category.Some? && s.category.Some? && r.category.value.pk == s.category.value.pk ==> r.category == s.category
  }

  /** What the two unique constraints give: no feed url twice, and one name per category. */
  ghost predicate FromDatabase(listed: seq<Row>) {
    && (forall i, j :: 0 <= i < j < |listed| ==> listed[i].feedUrl != listed[j].feedUrl)
    && (forall i, j :: 0 <= i < j < |listed| ==> SameLabel(listed[i], listed[j]))
  }

  lemma {:induction false} NamesComeFromRows(listed: seq<Row>, pk: nat)
    requires pk in Names(listed)
    ensures exists i :: 0 <= i < |listed| && listed[i].category == Some(Label(pk, Names(listed)[pk]))
  {
    var last := |listed| - 1;
    var r := listed[last];
    if r.category.Some? && r.category.value.pk == pk {
      assert r.category == Some(Label(pk, Names(listed)[pk]));
    } else {
      NamesComeFromRows(listed[..last], pk);
      var i :| 0 <= i < last && listed[..last][i].category == Some(Label(pk, Names(listed[..last])[pk]));
      assert listed[i] == listed[..last][i];
    }
  }

  /** A row agrees with the category names so far. */
  predicate Agrees(names: map<nat, string>, r: Row) {
    r.category.Some? && r.category.value.pk in names ==> names[r.category.value.pk] == r.category.value.name
  }

  lemma RowsAgree(listed: seq<Row>)
    requires FromDatabase(listed) && listed != []
    ensures FromDatabase(listed[..|listed| - 1]) && Agrees(Names(listed[..|listed| - 1]), listed[|listed| - 1])
  {
    var rest, r := listed[..|listed| - 1], listed[|listed| - 1];
    if r.category.Some? && r.category.value.pk in Names(rest) {
      NamesComeFromRows(rest, r.category.value.pk);
      var i :| 0 <= i < |rest| &&
        rest[i].category == Some(Label(r.category.value.pk, Names(rest)[r.category.value.pk]));
      assert SameLabel(listed[i], listed[|rest|]);
    }
  }

  /** A category outline is where the table says, under the category's name, and has a child. */
  ghost predicate IndexedAt(d: Draft, pk: nat, name: string)
    requires pk in d.outlines
  {
    var k := d.outlines[pk];
    k < |d.body| && d.body[k].children != [] && d.body[k] == Group(Label(pk, name), d.body[k].children)
  }

  ghost predicate Indexed(d: Draft, names: map<nat, string>) {
    && d.outlines.Keys == names.Keys
    && (forall pk :: pk in d.outlines ==> IndexedAt(d, pk, names[pk]))
    && OnePlaceEach(d)
  }

  ghost predicate OnePlaceEach(d: Draft) {
    forall p, q :: p in d.outlines && q in d.outlines && d.outlines[p] == d.outlines[q] ==> p == q
  }

  lemma AddRowKeepsPlaces(d: Draft, r: Row)
    requires OnePlaceEach(d) && forall pk :: pk in d.outlines ==> d.outlines[pk] < |d.body|
    ensures OnePlaceEach(AddRow(d, r))
  {
  }

  lemma AddRowKeepsIndex(d: Draft, names: map<nat, string>, r: Row)
    requires Indexed(d, names) && Agrees(names, r)
    ensures Indexed(AddRow(d, r), WithName(names, r))
  {
    var e, known := AddRow(d, r), WithName(names, r);
    forall q | q in e.outlines ensures IndexedAt(e, q, known[q]) {
      AddRowKeepsIndexAt(d, names, r, q);
    }
    assert forall q :: q in d.outlines ==> IndexedAt(d, q, names[q]);
    AddRowKeepsPlaces(d, r);
  }

  lemma AddRowKeepsIndexAt(d: Draft, names: map<nat, string>, r: Row, q: nat)
    requires Indexed(d, names) && Agrees(names, r) && q in AddRow(d, r).outlines
    ensures q in WithName(names, r) && IndexedAt(AddRow(d, r), q, WithName(names, r)[q])
  {
    if q in d.outlines {
      assert IndexedAt(d, q, names[q]);
    }
  }

  lemma {:induction false} DraftedIsIndexed(listed: seq<Row>)
    requires FromDatabase(listed)
    ensures Indexed(Drafted(listed), Names(listed))
  {
    if listed != [] {
      RowsAgree(listed);
      DraftedIsIndexed(listed[..|listed| - 1]);
      AddRowKeepsIndex(Drafted(listed[..|listed| - 1]), Names(listed[..|listed| - 1]), listed[|listed| - 1]);
    }
  }

  // ----- measures of a body, split -----

  lemma {:induction false} FlatSplits(a: seq<Element>, b: seq<Element>, category: string)
    ensures Flat(a + b, category) == Flat(a, category) + Flat(b, category)
  {
    if a == [] {
      assert a + b == b;
    } else {
      assert (a + b)[1..] == a[1..] + b;
      FlatSplits(a[1..], b, category);
    }
  }

  lemma {:induction false} OutlinesSplit(a: seq<Element>, b: seq<Element>)
    ensures Outlines(a + b) == Outlines(a) + Outlines(b)
  {
    if a == [] {
      assert a + b == b;
    } else {
      assert (a + b)[1..] == a[1..] + b;
      OutlinesSplit(a[1..], b);
    }
  }

  lemma {:induction false} ShapeSplits(c: Checks, a: seq<Element>, b: seq<Element>, category: string, depth: nat)
    ensures Shape(c, a + b, category, depth) <==> Shape(c, a, category, depth) && Shape(c, b, category, depth)
  {
    if a == [] {
      assert a + b == b;
    } else {
      assert (a + b)[1..] == a[1..] + b;
      ShapeSplits(c, a[1..], b, category, depth);
    }
  }

  /** One element of a body singled out. */
  lemma BodyAround(c: Checks, body: seq<Element>, k: nat)
    requires k < |body|
    ensures Flat(body, "") == Flat(body[..k], "") + FlatOne(body[k], "") + Flat(body[k + 1..], "")
    ensures Outlines(body) == Outlines(body[..k]) + OutlinesOne(body[k]) + Outlines(body[k + 1..])
    ensures Shape(c, body, "", 1) <==>
            Shape(c, body[..k], "", 1) && ShapeOne(c, body[k], "", 1) && Shape(c, body[k + 1..], "", 1)
  {
    var tail := body[k..];
    assert body == body[..k] + tail && tail[0] == body[k] && tail[1..] == body[k + 1..];
    FlatSplits(body[..k], tail, "");
    OutlinesSplit(body[..k], tail);
    ShapeSplits(c, body[..k], tail, "", 1);
  }

  // ----- a row's leaf -----

  /** The leaf of a row as the import reads it. */
  function Read(r: Row): seq<Planned> {
    if Strip(r.feedUrl) == "" then [] else [PlannedFeed(Leaf(r), CategoryName(r))]
  }

  function ReadAll(listed: seq<Row>): seq<Planned> {
    if listed == [] then [] else ReadAll(listed[..|listed| - 1]) + Read(listed[|listed| - 1])
  }

  predicate LeafShape(c: Checks, r: Row) {
    Strip(r.feedUrl) != "" && c.feed(PlannedFeed(Leaf(r), CategoryName(r)))
  }

  predicate GroupShape(c: Checks, r: Row) {
    r.category.Some? ==> Strip(r.category.value.name) != "" && c.category(r.category.value.name)
  }

  lemma LeafMeasuresUp(c: Checks, r: Row, category: string, depth: nat)
    requires category == CategoryName(r)
    ensures FlatOne(Leaf(r), category) == Read(r) == Flat([Leaf(r)], category)
    ensures OutlinesOne(Leaf(r)) == 1 == Outlines([Leaf(r)])
    ensures ShapeOne(c, Leaf(r), category, depth) <==> LeafShape(c, r)
    ensures Shape(c, [Leaf(r)], category, depth) <==> LeafShape(c, r)
  {
    assert Flat([], r.title) == [];
    assert Flat([Leaf(r)][1..], category) == [] && Outlines([Leaf(r)][1..]) == 0 &&
        Shape(c, [Leaf(r)][1..], category, depth);
    assert Outlines(Leaf(r).children) == 0;
  }

  lemma GroupMeasures(c: Checks, l: Label, children: seq<Element>)
    ensures FlatOne(Group(l, children), "") == Flat(children, l.name)
    ensures OutlinesOne(Group(l, children)) == 1 + Outlines(children)
    ensures ShapeOne(c, Group(l, children), "", 1) <==>
            Strip(l.name) != "" && children != [] && c.category(l.name) && Shape(c, children, l.name, 2)
  {
    assert Strip("") == "";
  }

  // ----- what one row adds -----

  predicate OpensGroup(names: map<nat, string>, r: Row) { r.category.Some? && r.category.value.pk !in names }

  /** A row adds its leaf, and its category's outline when it is the first of its category. */
  lemma AddRowMeasures(c: Checks, d: Draft, names: map<nat, string>, r: Row)
    requires Indexed(d, names) && Agrees(names, r)
    ensures multiset(Flat(AddRow(d, r).body, "")) == multiset(Flat(d.body, "")) + multiset(Read(r))
    ensures Outlines(AddRow(d, r).body) == Outlines(d.body) + if OpensGroup(names, r) then 2 else 1
    ensures Shape(c, AddRow(d, r).body, "", 1) <==>
            Shape(c, d.body, "", 1) && LeafShape(c, r) && (OpensGroup(names, r) ==> GroupShape(c, r))
  {
    LeafMeasuresUp(c, r, CategoryName(r), if r.category.None? then 1 else 2);
    if r.category.None? {
      AppendMeasures(c, d.body, Leaf(r));
    } else if r.category.value.pk !in d.outlines {
      AppendMeasures(c, d.body, Group(r.category.value, [Leaf(r)]));
      GroupMeasures(c, r.category.value, [Leaf(r)]);
    } else {
      ChildMeasures(c, d, names, r);
    }
  }

  lemma AppendMeasures(c: Checks, body: seq<Element>, e: Element)
    ensures Flat(body + [e], "") == Flat(body, "") + FlatOne(e, "")
    ensures Outlines(body + [e]) == Outlines(body) + OutlinesOne(e)
    ensures Shape(c, body + [e], "", 1) <==> Shape(c, body, "", 1) && ShapeOne(c, e, "", 1)
  {
    var more := body + [e];
    BodyAround(c, more, |body|);
    assert more[..|body|] == body && more[|body| + 1..] == [];
  }

  lemma ChildMeasures(c: Checks, d: Draft, names: map<nat, string>, r: Row)
    requires Indexed(d, names) && r.category.Some? && r.category.value.pk in names && Agrees(names, r)
    ensures multiset(Flat(AddRow(d, r).body, "")) == multiset(Flat(d.body, "")) + multiset(Read(r))
    ensures Outlines(AddRow(d, r).body) == Outlines(d.body) + 1
    ensures Shape(c, AddRow(d, r).body, "", 1) <==> Shape(c, d.body, "", 1) && LeafShape(c, r)
  {
    var l, k := r.category.value, d.outlines[r.category.value.pk];
    assert IndexedAt(d, l.pk, names[l.pk]);
    var children := d.body[k].children;
    assert d.body[k] == Group(l, children) && WithChild(d.body[k], Leaf(r)) == Group(l, children + [Leaf(r)]);
    GroupMeasures(c, l, children);
    GroupMeasures(c, l, children + [Leaf(r)]);
    LeafMeasuresUp(c, r, l.name, 2);
    FlatSplits(children, [Leaf(r)], l.name);
    OutlinesSplit(children, [Leaf(r)]);
    ShapeSplits(c, children, [Leaf(r)], l.name, 2);
    BodyAround(c, d.body, k);
    var body := AddRow(d, r).body;
    BodyAround(c, body, k);
    assert body[..k] == d.body[..k] && body[k + 1..] == d.body[k + 1..];
  }

  // ----- the whole export -----

  predicate RowShape(c: Checks, r: Row) { LeafShape(c, r) && GroupShape(c, r) }

  predicate AllShaped(c: Checks, listed: seq<Row>) { forall i :: 0 <= i < |listed| ==> RowShape(c, listed[i]) }

  /** A category already checked for an earlier row needs no second check. */
  lemma GroupAlreadyChecked(c: Checks, rest: seq<Row>, r: Row)
    requires AllShaped(c, rest) && Agrees(Names(rest), r) && !OpensGroup(Names(rest), r)
    ensures GroupShape(c, r)
  {
    if r.category.Some? {
      NamesComeFromRows(rest, r.category.value.pk);
      var i :| 0 <= i < |rest| &&
        rest[i].category == Some(Label(r.category.value.pk, Names(rest)[r.category.value.pk]));
      assert RowShape(c, rest[i]);
    }
  }

  /** The exported body, whatever the order of the feeds: its feeds are the rows, its outlines
      one per feed and one per category, and it is well formed when every row is. */
  lemma {:induction false} DraftedMeasures(c: Checks, listed: seq<Row>)
    requires FromDatabase(listed)
    ensures multiset(Flat(Drafted(listed).body, "")) == multiset(ReadAll(listed))
    ensures Outlines(Drafted(listed).body) == |listed| + |Names(listed)|
    ensures Shape(c, Drafted(listed).body, "", 1) <==> AllShaped(c, listed)
  {
    if listed != [] {
      var rest, r := listed[..|listed| - 1], listed[|listed| - 1];
      RowsAgree(listed);
      DraftedMeasures(c, rest);
      DraftedIsIndexed(rest);
      AddRowMeasures(c, Drafted(rest), Names(rest), r);
      SizeOfNames(Names(rest), r);
      LastRowShaped(c, listed);
      assert Drafted(listed) == AddRow(Drafted(rest), r);
      assert Names(listed) == WithName(Names(rest), r);
      assert ReadAll(listed) == ReadAll(rest) + Read(r);
    }
  }

  lemma AllShapedSplits(c: Checks, rest: seq<Row>, r: Row)
    ensures AllShaped(c, rest + [r]) <==> AllShaped(c, rest) && RowShape(c, r)
  {
    var more := rest + [r];
    if AllShaped(c, more) {
      assert RowShape(c, more[|rest|]);
      forall i | 0 <= i < |rest| ensures RowShape(c, rest[i]) {
        assert RowShape(c, more[i]);
      }
    }
  }

  lemma LastRowShaped(c: Checks, listed: seq<Row>)
    requires FromDatabase(listed) && listed != []
    ensures var rest, r := listed[..|listed| - 1], listed[|listed| - 1];
      AllShaped(c, listed) <==>
        AllShaped(c, rest) && LeafShape(c, r) && (OpensGroup(Names(rest), r) ==> GroupShape(c, r))
  {
    var rest, r := listed[..|listed| - 1], listed[|listed| - 1];
    RowsAgree(listed);
    assert listed == rest + [r];
    AllShapedSplits(c, rest, r);
    if AllShaped(c, rest) && !OpensGroup(Names(rest), r) {
      GroupAlreadyChecked(c, rest, r);
    }
  }

  lemma SizeOfNames(names: map<nat, string>, r: Row)
    ensures |WithName(names, r)| == |names| + if OpensGroup(names, r) then 1 else 0
  {
    if r.category.Some? {
      assert WithName(names, r).Keys == names.Keys + {r.category.value.pk};
    }
  }

  // ----- the round trip -----

  lemma {:induction false} StripIsStable(s: string)
    ensures Strip(Strip(s)) == Strip(s)
    decreases |s|
  {
    if s != "" && IsSpace(s[0]) {
      StripIsStable(s[1..]);
    } else if s != "" && IsSpace(s[|s| - 1]) {
      StripIsStable(s[..|s| - 1]);
    }
  }

  /** A row whose text survives a trip through attributes and which the validators accept. */
  predicate Portable(c: Checks, r: Row) {
    && r.title != "" && r.feedUrl != "" && Strip(r.feedUrl) == r.feedUrl && Strip(r.siteUrl) == r.siteUrl
    && c.feed(Entry(r)) && GroupShape(c, r)
  }

  predicate AllPortable(c: Checks, listed: seq<Row>) { forall i :: 0 <= i < |listed| ==> Portable(c, listed[i]) }

  lemma PortableReads(c: Checks, r: Row)
    ensures Portable(c, r) ==> Read(r) == [Entry(r)] && RowShape(c, r)
  {
  }

  lemma {:induction false} PortableReadsAll(c: Checks, listed: seq<Row>)
    requires AllPortable(c, listed)
    ensures ReadAll(listed) == Entries(listed) && AllShaped(c, listed)
  {
    if listed != [] {
      PortableReadsAll(c, listed[..|listed| - 1]);
      PortableReads(c, listed[|listed| - 1]);
    }
    forall i | 0 <= i < |listed| ensures RowShape(c, listed[i]) {
      PortableReads(c, listed[i]);
    }
  }

  lemma {:induction false} EntryAt(listed: seq<Row>, i: nat)
    requires i < |listed|
    ensures |Entries(listed)| == |listed| && Entries(listed)[i] == Entry(listed[i])
  {
    var last := |listed| - 1;
    if last > 0 {
      EntryAt(listed[..last], if i < last then i else 0);
    }
  }

  lemma {:induction false} WhatWasRead(listed: seq<Row>, p: Planned)
    requires p in ReadAll(listed)
    ensures exists r :: r in listed && Read(r) == [p]
  {
    var last := |listed| - 1;
    if p in Read(listed[last]) {
      assert Read(listed[last]) == [p];
    } else {
      WhatWasRead(listed[..last], p);
      var r :| r in listed[..last] && Read(r) == [p];
      assert r in listed;
    }
  }

  /** An imported feed always has stripped, nonempty text. */
  lemma ReadIsStripped(r: Row)
    ensures forall p :: p in Read(r) ==>
              p.title != "" && p.feedUrl != "" && Strip(p.feedUrl) == p.feedUrl && Strip(p.siteUrl) == p.siteUrl
  {
    StripIsStable(r.feedUrl);
    StripIsStable(r.siteUrl);
  }

  /** The exported document reads back as exactly the exported feeds. */
  ghost predicate ReadsBack(c: Checks, listed: seq<Row>) {
    var parsed := Visit(c, Drafted(listed).body, "", 1, NOTHING);
    parsed.Some? && multiset(parsed.value.feeds) == multiset(Entries(listed)) && parsed.value.duplicates == 0
  }

  /** Main result on export: reading an exported document back gives the same title, url, site
      url and category name for every active feed, with nothing skipped, exactly when every row
      is portable and the feeds and their categories number at most 1000. */
  lemma ReadsBackIff(c: Checks, listed: seq<Row>)
    requires FromDatabase(listed)
    ensures ReadsBack(c, listed) <==> AllPortable(c, listed) && |listed| + |Names(listed)| <= OPML_MAX_OUTLINES
  {
    var body := Drafted(listed).body;
    DraftedMeasures(c, listed);
    ParseIff(c, body);
    if AllPortable(c, listed) {
      PortableReadsAll(c, listed);
      EntriesAreDistinct(listed, Flat(body, ""));
    }
    if ReadsBack(c, listed) {
      OnlyPortableReadsBack(c, listed);
    }
  }

  lemma EntriesAreDistinct(listed: seq<Row>, flat: seq<Planned>)
    requires FromDatabase(listed) && multiset(flat) == multiset(Entries(listed))
    ensures Consistent(flat) && FirstCopies(flat) == flat
  {
    var entries := Entries(listed);
    forall i, j | 0 <= i < j < |entries| ensures entries[i].feedUrl != entries[j].feedUrl {
      EntryAt(listed, i);
      EntryAt(listed, j);
    }
    PairwiseInAnyOrder((p: Planned, q: Planned) => p.feedUrl != q.feedUrl, entries, flat);
    DistinctKeepsAll(flat);
  }

  lemma {:induction false} DistinctKeepsAll(flat: seq<Planned>)
    requires forall i, j :: 0 <= i < j < |flat| ==> flat[i].feedUrl != flat[j].feedUrl
    ensures FirstCopies(flat) == flat
  {
    if flat != [] {
      var rest, p := flat[..|flat| - 1], flat[|flat| - 1];
      DistinctKeepsAll(rest);
      assert p !in rest;
      assert flat == rest + [p];
    }
  }

  lemma OnlyPortableReadsBack(c: Checks, listed: seq<Row>)
    requires FromDatabase(listed) && ReadsBack(c, listed)
    ensures AllPortable(c, listed)
  {
    var body := Drafted(listed).body;
    DraftedMeasures(c, listed);
    ParseIff(c, body);
    FirstCopiesKeepsEach(Flat(body, ""));
    forall i | 0 <= i < |listed| ensures Portable(c, listed[i]) {
      EntryAt(listed, i);
      var p := Entry(listed[i]);
      assert p in multiset(Entries(listed));
      assert p in FirstCopies(Flat(body, ""));
      assert p in multiset(Flat(body, ""));
      WhatWasRead(listed, p);
      var r :| r in listed && Read(r) == [p];
      ReadIsStripped(r);
      var k :| 0 <= k < |listed| && listed[k] == r;
      assert RowShape(c, listed[k]) && RowShape(c, listed[i]);
    }
  }

  // ----- the loop -----

  method ExportBody(listed: seq<Row>) returns (body: seq<Element>)
    requires FromDatabase(listed)
    ensures body == Drafted(listed).body
  {
    body := [];
    var outlines: map<nat, nat> := map[];
    for i := 0 to |listed|
      invariant Draft(body, outlines) == Drafted(listed[..i])
      invariant forall pk :: pk in outlines ==> outlines[pk] < |body|
    {
      var r := listed[i];
      ghost var before := Draft(body, outlines);
      assert listed[..i + 1][..i] == listed[..i];
      if r.category.None? {
        body := body + [Leaf(r)];
      } else {
        var l := r.category.value;
        if l.pk !in outlines {
          outlines := outlines[l.pk := |body|];
          body := body + [Group(l, [])];
          assert [] + [Leaf(r)] == [Leaf(r)];
          assert body[|before.body| := WithChild(Group(l, []), Leaf(r))] == before.body + [Group(l, [Leaf(r)])];
        }
        var k := outlines[l.pk];
        body := body[k := WithChild(body[k], Leaf(r))];
      }
      assert Draft(body, outlines) == AddRow(before, r);
    }
    assert listed[..|listed|] == listed;
  }
}
