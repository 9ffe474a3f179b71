/** OPML documents outline by outline, each reached by a path. */
module OpmlPaths {
  import opened Common
  import opened Opml
  import opened OpmlExport

  // ----- white space -----

  lemma SpacesAre(c: char)
    ensures IsSpace(c) <==>
            c in "\t\n\U{b}\U{c}\r\U{1c}\U{1d}\U{1e}\U{1f} \U{85}\U{a0}\U{1680}" ||
            c in "\U{2000}\U{2001}\U{2002}\U{2003}\U{2004}\U{2005}\U{2006}\U{2007}\U{2008}\U{2009}\U{200a}" ||
            c in "\U{2028}\U{2029}\U{202f}\U{205f}\U{3000}"
  {
  }

  predicate Blank(s: string) { forall i :: 0 <= i < |s| ==> IsSpace(s[i]) }

  lemma BlankGrows(c: char, s: string)
    requires IsSpace(c) && Blank(s)
    ensures Blank([c] + s) && Blank(s + [c])
  {
  }

  lemma PutBack(s: string, before: string, middle: string, after: string)
    requires s != "" && s[1..] == before + middle + after
    ensures s == [s[0]] + before + middle + after
  {
    assert s == [s[0]] + s[1..];
  }

  lemma PutBackLast(s: string, before: string, middle: string, after: string)
    requires s != "" && s[..|s| - 1] == before + middle + after
    ensures s == before + middle + (after + [s[|s| - 1]])
  {
    assert s == s[..|s| - 1] + [s[|s| - 1]];
  }

  /** Stripping takes white space off both ends, all of it, and nothing else. */
  lemma {:induction false} StripTrims(s: string) returns (before: string, after: string)
    ensures s == before + Strip(s) + after && Blank(before) && Blank(after)
    ensures Strip(s) != "" ==> !IsSpace(Strip(s)[0]) && !IsSpace(Strip(s)[|Strip(s)| - 1])
    decreases |s|
  {
    before, after := "", "";
    if s != "" && IsSpace(s[0]) {
      before, after := StripTrims(s[1..]);
      BlankGrows(s[0], before);
      PutBack(s, before, Strip(s[1..]), after);
      before := [s[0]] + before;
    } else if s != "" && IsSpace(s[|s| - 1]) {
      before, after := StripTrims(s[..|s| - 1]);
      BlankGrows(s[|s| - 1], after);
      PutBackLast(s, before, Strip(s[..|s| - 1]), after);
      after := after + [s[|s| - 1]];
    } else {
      assert s == "" + s + "";
    }
  }

  // ----- paths -----

  predicate Leads(children: seq<Element>, path: seq<nat>)
    decreases |path|
  {
    path != [] && path[0] < |children| && (|path| == 1 || Leads(children[path[0]].children, path[1..]))
  }

  function At(children: seq<Element>, path: seq<nat>): Element
    requires Leads(children, path)
    decreases |path|
  {
    if |path| == 1 then children[path[0]] else At(children[path[0]].children, path[1..])
  }

  function NameOf(e: Element): string { if e.title != "" then e.title else e.text }

  /** The name of the innermost category around an outline. */
  function Around(children: seq<Element>, category: string, path: seq<nat>): string
    requires Leads(children, path)
    decreases |path|
  {
    if |path| == 1 then category else Around(children[path[0]].children, NameOf(children[path[0]]), path[1..])
  }

  predicate IsFeed(e: Element) { Strip(e.xmlUrl) != "" }

  /** What a feed outline asks for: its title, or else its text, or else its url. */
  function Asked(e: Element, category: string): Planned {
    Planned(if e.title != "" then e.title else if e.text != "" then e.text else Strip(e.xmlUrl),
            Strip(e.xmlUrl), Strip(e.htmlUrl), category)
  }

  /** A feed outline has no children and a category outline has some and a name; none is nested deeper
      than 32. */
  predicate GoodOutline(c: Checks, e: Element, category: string, level: nat) {
    && e.tag == "outline" && level <= 32
    && if IsFeed(e) then e.children == [] && c.feed(Asked(e, category))
       else !Blank(NameOf(e)) && e.children != [] && c.category(NameOf(e))
  }

  ghost predicate AllGood(c: Checks, children: seq<Element>, category: string, above: nat) {
    forall path :: Leads(children, path) ==>
                     GoodOutline(c, At(children, path), Around(children, category, path), above + |path|)
  }

  lemma BlankIff(s: string)
    ensures Strip(s) == "" <==> Blank(s)
  {
    var before, after := StripTrims(s);
    if Strip(s) == "" {
      assert s == before + after;
    } else {
      var i := |before|;
      assert s[i] == Strip(s)[0];
    }
  }

  lemma Below(children: seq<Element>, category: string, path: seq<nat>)
    requires children != [] && Leads(children[0].children, path)
    ensures Leads(children, [0] + path)
    ensures At(children, [0] + path) == At(children[0].children, path)
    ensures Around(children, category, [0] + path) == Around(children[0].children, NameOf(children[0]), path)
  {
    assert ([0] + path)[1..] == path;
  }

  lemma Beside(children: seq<Element>, category: string, path: seq<nat>)
    requires children != [] && path != []
    ensures Leads(children[1..], path) <==> Leads(children, [path[0] + 1] + path[1..])
    ensures Leads(children[1..], path) ==>
              && At(children, [path[0] + 1] + path[1..]) == At(children[1..], path)
              && Around(children, category, [path[0] + 1] + path[1..]) == Around(children[1..], category, path)
  {
    var there := [path[0] + 1] + path[1..];
    assert there[1..] == path[1..];
  }

  lemma FirstOutlineGood(c: Checks, children: seq<Element>, category: string, above: nat)
    requires children != [] && AllGood(c, children, category, above)
    ensures GoodOutline(c, children[0], category, above + 1)
    ensures AllGood(c, children[0].children, NameOf(children[0]), above + 1)
    ensures AllGood(c, children[1..], category, above)
  {
    assert Leads(children, [0]);
    forall path | Leads(children[0].children, path)
      ensures GoodOutline(c, At(children[0].children, path), Around(children[0].children, NameOf(children[0]), path),
                          above + 1 + |path|)
    {
      Below(children, category, path);
    }
    forall path | Leads(children[1..], path)
      ensures GoodOutline(c, At(children[1..], path), Around(children[1..], category, path), above + |path|)
    {
      Beside(children, category, path);
      assert |[path[0] + 1] + path[1..]| == |path|;
    }
  }

  lemma GoodFromParts(c: Checks, children: seq<Element>, category: string, above: nat)
    requires children != [] && GoodOutline(c, children[0], category, above + 1)
    requires AllGood(c, children[0].children, NameOf(children[0]), above + 1)
    requires AllGood(c, children[1..], category, above)
    ensures AllGood(c, children, category, above)
  {
    forall path | Leads(children, path)
      ensures GoodOutline(c, At(children, path), Around(children, category, path), above + |path|)
    {
      if path[0] > 0 {
        GoodBeside(c, children, category, above, path);
      } else if |path| > 1 {
        GoodBelow(c, children, category, above, path);
      }
    }
  }

  lemma GoodBeside(c: Checks, children: seq<Element>, category: string, above: nat, path: seq<nat>)
    requires Leads(children, path) && path[0] > 0 && AllGood(c, children[1..], category, above)
    ensures GoodOutline(c, At(children, path), Around(children, category, path), above + |path|)
  {
    var beside := [path[0] - 1] + path[1..];
    assert [beside[0] + 1] + beside[1..] == path;
    Beside(children, category, beside);
    assert |beside| == |path|;
  }

  lemma GoodBelow(c: Checks, children: seq<Element>, category: string, above: nat, path: seq<nat>)
    requires Leads(children, path) && path[0] == 0 && |path| > 1
    requires AllGood(c, children[0].children, NameOf(children[0]), above + 1)
    ensures GoodOutline(c, At(children, path), Around(children, category, path), above + |path|)
  {
    var below := path[1..];
    assert Leads(children[0].children, below) && |below| == |path| - 1;
  }

  lemma AllGoodSplits(c: Checks, children: seq<Element>, category: string, above: nat)
    requires children != []
    ensures AllGood(c, children, category, above) <==>
            && GoodOutline(c, children[0], category, above + 1)
            && AllGood(c, children[0].children, NameOf(children[0]), above + 1)
            && AllGood(c, children[1..], category, above)
  {
    if AllGood(c, children, category, above) {
      FirstOutlineGood(c, children, category, above);
    } else if GoodOutline(c, children[0], category, above + 1)
              && AllGood(c, children[0].children, NameOf(children[0]), above + 1)
              && AllGood(c, children[1..], category, above)
    {
      GoodFromParts(c, children, category, above);
    }
  }

  lemma ShapeOneIff(c: Checks, e: Element, category: string, depth: nat)
    requires 1 <= depth <= 32
    requires depth < 32 && !IsFeed(e) ==>
        (Shape(c, e.children, NameOf(e), depth + 1) <==> AllGood(c, e.children, NameOf(e), depth))
    ensures ShapeOne(c, e, category, depth) <==>
            GoodOutline(c, e, category, depth) && AllGood(c, e.children, NameOf(e), depth)
  {
    if IsFeed(e) {
      FeedShape(c, e, category, depth);
    } else {
      BlankIff(NameOf(e));
      if depth == 32 && e.children != [] && AllGood(c, e.children, NameOf(e), depth) {
        FirstOutlineGood(c, e.children, NameOf(e), depth);
      }
    }
  }

  lemma {:induction false} ShapeIsAllGood(c: Checks, children: seq<Element>, category: string, depth: nat)
    requires 1 <= depth <= 32
    ensures Shape(c, children, category, depth) <==> AllGood(c, children, category, depth - 1)
    decreases children
  {
    if children != [] {
      var e := children[0];
      ShapeIsAllGood(c, children[1..], category, depth);
      if depth < 32 {
        ShapeIsAllGood(c, e.children, NameOf(e), depth + 1);
      }
      ShapeOneIff(c, e, category, depth);
      AllGoodSplits(c, children, category, depth - 1);
    }
  }

  lemma FeedShape(c: Checks, e: Element, category: string, depth: nat)
    requires IsFeed(e) && depth <= 32
    ensures ShapeOne(c, e, category, depth) <==> GoodOutline(c, e, category, depth)
    ensures e.children == [] ==> AllGood(c, e.children, NameOf(e), depth)
  {
  }

  /** Some feed outline of the document asks for this. */
  ghost predicate Listed(children: seq<Element>, category: string, p: Planned) {
    exists path :: Leads(children, path) && IsFeed(At(children, path)) &&
                   p == Asked(At(children, path), Around(children, category, path))
  }

  lemma ListedSplits(children: seq<Element>, category: string, p: Planned)
    requires children != []
    ensures Listed(children, category, p) <==>
            || (IsFeed(children[0]) && p == Asked(children[0], category))
            || Listed(children[0].children, NameOf(children[0]), p)
            || Listed(children[1..], category, p)
  {
    if path :| Leads(children, path) && IsFeed(At(children, path)) &&
               p == Asked(At(children, path), Around(children, category, path))
    {
      if path[0] > 0 {
        var beside := [path[0] - 1] + path[1..];
        assert [beside[0] + 1] + beside[1..] == path;
        Beside(children, category, beside);
      } else if |path| > 1 {
        assert Leads(children[0].children, path[1..]);
      }
    }
    ListedInParts(children, category, p);
  }

  lemma ListedInParts(children: seq<Element>, category: string, p: Planned)
    requires children != []
    ensures IsFeed(children[0]) && p == Asked(children[0], category) ==> Listed(children, category, p)
    ensures Listed(children[0].children, NameOf(children[0]), p) ==> Listed(children, category, p)
    ensures Listed(children[1..], category, p) ==> Listed(children, category, p)
  {
    assert Leads(children, [0]) && At(children, [0]) == children[0];
    if path :| Leads(children[0].children, path) && IsFeed(At(children[0].children, path)) &&
               p == Asked(At(children[0].children, path), Around(children[0].children, NameOf(children[0]), path))
    {
      Below(children, category, path);
    }
    if path :| Leads(children[1..], path) && IsFeed(At(children[1..], path)) &&
               p == Asked(At(children[1..], path), Around(children[1..], category, path))
    {
      Beside(children, category, path);
    }
  }

  lemma {:induction false} FlatIsListed(c: Checks, children: seq<Element>, category: string, depth: nat, p: Planned)
    requires Shape(c, children, category, depth)
    ensures p in Flat(children, category) <==> Listed(children, category, p)
    decreases children
  {
    if children != [] {
      var e := children[0];
      ListedSplits(children, category, p);
      FlatIsListed(c, children[1..], category, depth, p);
      if IsFeed(e) {
        assert !Listed([], NameOf(e), p);
      } else {
        FlatIsListed(c, e.children, NameOf(e), depth + 1, p);
      }
    }
  }

  /** No two feed outlines give one url and anything else that differs. */
  ghost predicate Agreeing(children: seq<Element>) {
    forall p, q :: Listed(children, "", p) && Listed(children, "", q) && p.feedUrl == q.feedUrl ==> p == q
  }

  lemma ConsistentIff(listed: seq<Planned>)
    ensures Consistent(listed) <==>
            forall p, q :: p in listed && q in listed && p.feedUrl == q.feedUrl ==> p == q
  {
    if Consistent(listed) {
      forall p, q | p in listed && q in listed && p.feedUrl == q.feedUrl ensures p == q {
        SameUrlSameFeed(listed, p, q);
      }
    }
  }

  /** Main result on documents: a body is accepted exactly when every outline in it is good, there are
      at most 1000, and feed outlines of one url agree; and then exactly what the feed outlines ask for
      is found, each thing once, under the innermost category. */
  lemma DocumentIsReadIff(c: Checks, children: seq<Element>)
    ensures var parsed := Visit(c, children, "", 1, NOTHING);
      && (parsed.Some? <==> AllGood(c, children, "", 0) && Outlines(children) <= 1000 && Agreeing(children))
      && (parsed.Some? ==>
            && (forall p :: p in parsed.value.feeds <==> Listed(children, "", p))
            && (forall i, j :: 0 <= i < j < |parsed.value.feeds| ==> parsed.value.feeds[i] != parsed.value.feeds[j]))
  {
    var listed := Flat(children, "");
    ParseIff(c, children);
    ShapeIsAllGood(c, children, "", 1);
    ConsistentIff(listed);
    FirstCopiesKeepsEach(listed);
    if Shape(c, children, "", 1) {
      forall p ensures p in listed <==> Listed(children, "", p) {
        FlatIsListed(c, children, "", 1, p);
      }
    }
  }

  // ----- what is exported -----

  /** A feed's outline carries its title twice, as readers disagree on which to show. */
  predicate LeafOf(e: Element, r: Row) {
    && e.tag == "outline" && e.title == r.title && e.text == r.title && e.xmlUrl == r.feedUrl && e.htmlUrl == r.siteUrl
    && e.children == []
  }

  ghost predicate HasLeaf(children: seq<Element>, r: Row) { exists e :: e in children && LeafOf(e, r) }

  ghost predicate LeafUnder(child: Element, name: string, listed: seq<Row>) {
    exists r :: r in listed && r.category.Some? && r.category.value.name == name && LeafOf(child, r)
  }

  /** A category's outline carries its name twice and holds outlines of feeds of that category. */
  ghost predicate GroupOf(e: Element, listed: seq<Row>) {
    && e.tag == "outline" && e.title == e.text && e.xmlUrl == "" && e.htmlUrl == "" && e.children != []
    && forall child :: child in e.children ==> LeafUnder(child, e.title, listed)
  }

  ghost predicate LooseLeaf(e: Element, listed: seq<Row>) {
    exists r :: r in listed && r.category.None? && LeafOf(e, r)
  }

  /** The row's outline is in the body, under its category's if it has one. */
  ghost predicate Placed(body: seq<Element>, r: Row) {
    if r.category.None? then HasLeaf(body, r)
    else exists e :: e in body && e.title == r.category.value.name && e.xmlUrl == "" && HasLeaf(e.children, r)
  }

  ghost predicate Mirrors(body: seq<Element>, listed: seq<Row>) {
    && (forall e :: e in body ==> LooseLeaf(e, listed) || GroupOf(e, listed))
    && (forall r :: r in listed ==> Placed(body, r))
  }

  lemma MoreRows(e: Element, rest: seq<Row>, r: Row)
    ensures LooseLeaf(e, rest) ==> LooseLeaf(e, rest + [r])
    ensures GroupOf(e, rest) ==> GroupOf(e, rest + [r])
  {
    if q :| q in rest && q.category.None? && LeafOf(e, q) {
      assert q in rest + [r];
    }
    if GroupOf(e, rest) {
      forall child | child in e.children
        ensures LeafUnder(child, e.title, rest + [r])
      {
        var q :| q in rest && q.category.Some? && q.category.value.name == e.title && LeafOf(child, q);
        assert q in rest + [r];
      }
    }
  }

  /** An element more, or a child more in one element, leaves every row where it was. */
  lemma StillPlaced(body: seq<Element>, q: Row, k: nat, e: Element)
    requires Placed(body, q) && k <= |body|
    requires k < |body| ==> e == body[k].(children := e.children)
    requires k < |body| ==> body[k].children <= e.children && body[k].children != []
    ensures Placed(if k < |body| then body[k := e] else body + [e], q)
  {
    var after := if k < |body| then body[k := e] else body + [e];
    if q.category.None? {
      var leaf :| leaf in body && LeafOf(leaf, q);
      var i :| 0 <= i < |body| && body[i] == leaf;
      assert i != k && after[i] == leaf;
    } else {
      var g :| g in body && g.title == q.category.value.name && g.xmlUrl == "" && HasLeaf(g.children, q);
      var i :| 0 <= i < |body| && body[i] == g;
      var leaf :| leaf in g.children && LeafOf(leaf, q);
      assert leaf in after[i].children;
      assert after[i] in after;
    }
  }

  lemma RowIsPlaced(d: Draft, names: map<nat, string>, r: Row)
    requires Indexed(d, names) && Agrees(names, r)
    ensures Placed(AddRow(d, r).body, r)
  {
    var body := AddRow(d, r).body;
    assert LeafOf(Leaf(r), r);
    if r.category.None? {
      assert body[|d.body|] == Leaf(r);
    } else if r.category.value.pk !in d.outlines {
      var g := Group(r.category.value, [Leaf(r)]);
      assert body[|d.body|] == g && Leaf(r) in g.children;
    } else {
      var k := d.outlines[r.category.value.pk];
      assert IndexedAt(d, r.category.value.pk, names[r.category.value.pk]);
      assert body[k].children[|d.body[k].children|] == Leaf(r);
      assert body[k] in body;
    }
  }

  lemma OthersStayPlaced(d: Draft, names: map<nat, string>, r: Row, q: Row)
    requires Indexed(d, names) && Agrees(names, r) && Placed(d.body, q)
    ensures Placed(AddRow(d, r).body, q)
  {
    if r.category.None? {
      StillPlaced(d.body, q, |d.body|, Leaf(r));
    } else if r.category.value.pk !in d.outlines {
      StillPlaced(d.body, q, |d.body|, Group(r.category.value, [Leaf(r)]));
    } else {
      var k := d.outlines[r.category.value.pk];
      assert IndexedAt(d, r.category.value.pk, names[r.category.value.pk]);
      StillPlaced(d.body, q, k, WithChild(d.body[k], Leaf(r)));
    }
  }

  lemma AddedIsRightful(d: Draft, names: map<nat, string>, rest: seq<Row>, r: Row, e: Element)
    requires Indexed(d, names) && Agrees(names, r) && e in AddRow(d, r).body
    requires forall f :: f in d.body ==> LooseLeaf(f, rest) || GroupOf(f, rest)
    ensures LooseLeaf(e, rest + [r]) || GroupOf(e, rest + [r])
  {
    assert r in rest + [r] && LeafOf(Leaf(r), r);
    MoreRows(e, rest, r);
    if e !in d.body && r.category.Some? {
      var l := r.category.value;
      if l.pk in d.outlines {
        var k := d.outlines[l.pk];
        var was := d.body[k];
        assert IndexedAt(d, l.pk, names[l.pk]);
        assert was in d.body && !LooseLeaf(was, rest);
        assert e == WithChild(was, Leaf(r));
        MoreRows(was, rest, r);
        forall child | child in e.children
          ensures LeafUnder(child, e.title, rest + [r])
        {
          assert child in was.children || child == Leaf(r);
        }
      }
    }
  }

  /** Main result on the exported body: every outline in it is a feed's or a category's, each named in
      both attributes, and every listed feed has its own, under its category's outline if it has a
      category and on its own otherwise. */
  lemma {:induction false} ExportMirrorsRows(listed: seq<Row>)
    requires FromDatabase(listed)
    ensures Mirrors(Drafted(listed).body, listed)
  {
    if listed != [] {
      var rest, r := listed[..|listed| - 1], listed[|listed| - 1];
      assert listed == rest + [r];
      RowsAgree(listed);
      ExportMirrorsRows(rest);
      DraftedIsIndexed(rest);
      var d, names := Drafted(rest), Names(rest);
      forall e | e in AddRow(d, r).body ensures LooseLeaf(e, listed) || GroupOf(e, listed) {
        AddedIsRightful(d, names, rest, r, e);
      }
      RowIsPlaced(d, names, r);
      forall q | q in rest ensures Placed(AddRow(d, r).body, q) {
        OthersStayPlaced(d, names, r, q);
      }
    }
  }
}
