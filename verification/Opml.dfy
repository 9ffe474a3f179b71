/** OPML documents as trees: what the recursive import visit accepts, and what export writes. */
module Opml {
  import opened Common

  /** An element with its local name in lower case and the four attributes that are read;
      an absent attribute is the empty string. */
  datatype Element = Element(tag: string, title: string, text: string, xmlUrl: string, htmlUrl: string,
                             children: seq<Element>)

  datatype Planned = Planned(title: string, feedUrl: string, siteUrl: string, categoryName: string)

  /** The model validators for one feed and one category name. */
  datatype Checks = Checks(feed: Planned -> bool, category: string -> bool)

  const OPML_MAX_OUTLINES := 1000
  const OPML_MAX_DEPTH := 32
  const OUTLINE := "outline"

  // ----- text -----

  /** The characters `str.strip` removes. */
  predicate IsSpace(c: char) {
    var n := c as int;
    9 <= n <= 13 || 28 <= n <= 32 || n == 0x85 || n == 0xA0 || n == 0x1680 || 0x2000 <= n <= 0x200A ||
    n == 0x2028 || n == 0x2029 || n == 0x202F || n == 0x205F || n == 0x3000
  }

  function Strip(s: string): string
    decreases |s|
  {
    if s == "" then ""
    else if IsSpace(s[0]) then Strip(s[1..])
    else if IsSpace(s[|s| - 1]) then Strip(s[..|s| - 1])
    else s
  }

  // ----- the visit -----

  /** What the visit keeps: the feeds in order, the same by url, and the two counters. */
  datatype Progress = Progress(feeds: seq<Planned>, byUrl: map<string, Planned>, duplicates: nat, outlines: nat)

  function PlannedFeed(e: Element, category: string): Planned {
    var url := Strip(e.xmlUrl);
    Planned(Or(Or(e.title, e.text), url), url, Strip(e.htmlUrl), category)
  }

  function AddFeed(p: Planned, a: Progress): Option<Progress> {
    if p.feedUrl !in a.byUrl then Some(a.(feeds := a.feeds + [p], byUrl := a.byUrl[p.feedUrl := p]))
    else if a.byUrl[p.feedUrl] != p then None
    else Some(a.(duplicates := a.duplicates + 1))
  }

  function Visit(c: Checks, children: seq<Element>, category: string, depth: nat, a: Progress): Option<Progress>
    decreases children, 1
  {
    if depth > OPML_MAX_DEPTH then None else VisitAll(c, children, category, depth, a)
  }

  function VisitAll(c: Checks, children: seq<Element>, category: string, depth: nat, a: Progress): Option<Progress>
    decreases children, 0
  {
    if children == [] then Some(a)
    else
      var next := VisitOne(c, children[0], category, depth, a);
      if next.None? then None else VisitAll(c, children[1..], category, depth, next.value)
  }

  function VisitOne(c: Checks, e: Element, category: string, depth: nat, a: Progress): Option<Progress>
    decreases e, 2
  {
    if e.tag != OUTLINE || a.outlines + 1 > OPML_MAX_OUTLINES then None
    else
      var b := a.(outlines := a.outlines + 1);
      if Strip(e.xmlUrl) != "" then
        if e.children != [] || !c.feed(PlannedFeed(e, category)) then None else AddFeed(PlannedFeed(e, category), b)
      else
        var name := Or(e.title, e.text);
        if Strip(name) == "" || e.children == [] || !c.category(name) then None
        else Visit(c, e.children, name, depth + 1, b)
  }

  const NOTHING := Progress([], map[], 0, 0)

  // ----- what a document says, independently of the visit -----

  /** Every feed outline in document order, under its nearest category. */
  function Flat(children: seq<Element>, category: string): seq<Planned>
    decreases children, 0
  {
    if children == [] then [] else FlatOne(children[0], category) + Flat(children[1..], category)
  }

  function FlatOne(e: Element, category: string): seq<Planned>
    decreases e, 1
  {
    if Strip(e.xmlUrl) != "" then [PlannedFeed(e, category)] else Flat(e.children, Or(e.title, e.text))
  }

  function Outlines(children: seq<Element>): nat
    decreases children, 0
  {
    if children == [] then 0 else OutlinesOne(children[0]) + Outlines(children[1..])
  }

  function OutlinesOne(e: Element): nat
    decreases e, 1
  {
    1 + Outlines(e.children)
  }

  /** Every element is a leaf feed or a named, nonempty category, nested no deeper than allowed. */
  predicate Shape(c: Checks, children: seq<Element>, category: string, depth: nat)
    decreases children, 0
  {
    children == [] || (ShapeOne(c, children[0], category, depth) && Shape(c, children[1..], category, depth))
  }

  predicate ShapeOne(c: Checks, e: Element, category: string, depth: nat)
    decreases e, 1
  {
    && e.tag == OUTLINE
    && if Strip(e.xmlUrl) != "" then e.children == [] && c.feed(PlannedFeed(e, category))
       else
         var name := Or(e.title, e.text);
         && Strip(name) != "" && e.children != [] && c.category(name)
         && depth + 1 <= OPML_MAX_DEPTH && Shape(c, e.children, name, depth + 1)
  }

  /** Feeds listed twice must be listed identically. */
  ghost predicate Consistent(listed: seq<Planned>) {
    forall i, j :: 0 <= i < j < |listed| && listed[i].feedUrl == listed[j].feedUrl ==> listed[i] == listed[j]
  }

  function FirstCopies(listed: seq<Planned>): seq<Planned> {
    if listed == [] then []
    else
      var kept, p := FirstCopies(listed[..|listed| - 1]), listed[|listed| - 1];
      if p in kept then kept else kept + [p]
  }

  lemma {:induction false} FirstCopiesKeepsEach(listed: seq<Planned>)
    ensures |FirstCopies(listed)| <= |listed|
    ensures forall p :: p in FirstCopies(listed) <==> p in listed
    ensures forall i, j :: 0 <= i < j < |FirstCopies(listed)| ==> FirstCopies(listed)[i] != FirstCopies(listed)[j]
  {
    if listed != [] {
      FirstCopiesKeepsEach(listed[..|listed| - 1]);
      assert listed == listed[..|listed| - 1] + [listed[|listed| - 1]];
    }
  }

  /** The feeds by url. */
  function ByUrl(listed: seq<Planned>): map<string, Planned> {
    if listed == [] then map[] else ByUrl(listed[..|listed| - 1])[listed[|listed| - 1].feedUrl := listed[|listed| - 1]]
  }

  lemma {:induction false} ByUrlHoldsEach(listed: seq<Planned>)
    ensures forall u :: u in ByUrl(listed) ==> ByUrl(listed)[u] in listed && ByUrl(listed)[u].feedUrl == u
    ensures forall p :: p in listed ==> p.feedUrl in ByUrl(listed)
  {
    if listed != [] {
      ByUrlHoldsEach(listed[..|listed| - 1]);
      assert listed == listed[..|listed| - 1] + [listed[|listed| - 1]];
    }
  }

  /** The visit's state after the feeds `listed` and `n` outlines. */
  ghost predicate Stands(a: Progress, listed: seq<Planned>, n: nat) {
    && Consistent(listed)
    && a.feeds == FirstCopies(listed)
    && a.byUrl == ByUrl(listed)
    && a.duplicates == |listed| - |a.feeds|
    && a.outlines == n
  }

  lemma SameUrlSameFeed(listed: seq<Planned>, p: Planned, q: Planned)
    requires Consistent(listed) && p in listed && q in listed && p.feedUrl == q.feedUrl
    ensures p == q
  {
    var i :| 0 <= i < |listed| && listed[i] == p;
    var j :| 0 <= j < |listed| && listed[j] == q;
    assert i < j || j < i || i == j;
  }

  /** The new feed agrees with whatever was listed under its url. */
  lemma ConsistentWithOneMore(listed: seq<Planned>, p: Planned)
    requires Consistent(listed)
    ensures Consistent(listed + [p]) <==> (p.feedUrl in ByUrl(listed) ==> ByUrl(listed)[p.feedUrl] == p)
    ensures p.feedUrl in ByUrl(listed) && ByUrl(listed)[p.feedUrl] == p <==> p in listed
  {
    var more := listed + [p];
    ByUrlHoldsEach(listed);
    if p.feedUrl in ByUrl(listed) {
      var q := ByUrl(listed)[p.feedUrl];
      if p in listed {
        SameUrlSameFeed(listed, p, q);
      }
      if Consistent(more) {
        assert q in more && p in more;
        SameUrlSameFeed(more, p, q);
      }
    }
    if p.feedUrl in ByUrl(listed) ==> ByUrl(listed)[p.feedUrl] == p {
      forall i | 0 <= i < |listed| && listed[i].feedUrl == p.feedUrl ensures listed[i] == p {
        assert listed[i] in listed;
        SameUrlSameFeed(listed, listed[i], ByUrl(listed)[p.feedUrl]);
      }
    }
  }

  lemma AddFeedStands(p: Planned, a: Progress, listed: seq<Planned>, n: nat)
    requires Stands(a, listed, n)
    ensures AddFeed(p, a).Some? <==> Consistent(listed + [p])
    ensures AddFeed(p, a).Some? ==> Stands(AddFeed(p, a).value, listed + [p], n)
  {
    ConsistentWithOneMore(listed, p);
    FirstCopiesKeepsEach(listed);
    assert (listed + [p])[..|listed|] == listed;
  }

  lemma ConsistentPrefix(a: seq<Planned>, b: seq<Planned>)
    requires Consistent(a + b)
    ensures Consistent(a)
  {
    forall i, j | 0 <= i < j < |a| && a[i].feedUrl == a[j].feedUrl ensures a[i] == a[j] {
      assert (a + b)[i] == a[i] && (a + b)[j] == a[j];
    }
  }

  /** The condition under which the visit gets through `children` from a given state. */
  ghost predicate Passes(c: Checks, children: seq<Element>, category: string, depth: nat, listed: seq<Planned>,
                         n: nat) {
    && Shape(c, children, category, depth)
    && n + Outlines(children) <= OPML_MAX_OUTLINES
    && Consistent(listed + Flat(children, category))
  }

  ghost predicate PassesOne(c: Checks, e: Element, category: string, depth: nat, listed: seq<Planned>, n: nat) {
    && ShapeOne(c, e, category, depth)
    && n + OutlinesOne(e) <= OPML_MAX_OUTLINES
    && Consistent(listed + FlatOne(e, category))
  }

  lemma {:induction false} VisitAllIff(c: Checks, children: seq<Element>, category: string, depth: nat, a: Progress,
                                       listed: seq<Planned>, n: nat)
    requires Stands(a, listed, n) && n <= OPML_MAX_OUTLINES
    ensures VisitAll(c, children, category, depth, a).Some? <==> Passes(c, children, category, depth, listed, n)
    ensures VisitAll(c, children, category, depth, a).Some? ==>
              Stands(VisitAll(c, children, category, depth, a).value, listed + Flat(children, category),
                     n + Outlines(children))
    decreases children, 0
  {
    if children == [] {
      assert listed + Flat(children, category) == listed;
    } else {
      var head, tail := FlatOne(children[0], category), Flat(children[1..], category);
      assert listed + Flat(children, category) == (listed + head) + tail;
      VisitOneIff(c, children[0], category, depth, a, listed, n);
      var next := VisitOne(c, children[0], category, depth, a);
      if next.Some? {
        VisitAllIff(c, children[1..], category, depth, next.value, listed + head, n + OutlinesOne(children[0]));
      } else if Passes(c, children, category, depth, listed, n) {
        ConsistentPrefix(listed + head, tail);
        assert false;
      }
    }
  }

  lemma {:induction false} VisitOneIff(c: Checks, e: Element, category: string, depth: nat, a: Progress,
                                       listed: seq<Planned>, n: nat)
    requires Stands(a, listed, n) && n <= OPML_MAX_OUTLINES
    ensures VisitOne(c, e, category, depth, a).Some? <==> PassesOne(c, e, category, depth, listed, n)
    ensures VisitOne(c, e, category, depth, a).Some? ==>
              Stands(VisitOne(c, e, category, depth, a).value, listed + FlatOne(e, category), n + OutlinesOne(e))
    decreases e, 2
  {
    if n + 1 <= OPML_MAX_OUTLINES {
      CountedStands(a, listed, n);
      var b := a.(outlines := a.outlines + 1);
      if Strip(e.xmlUrl) != "" {
        LeafMeasures(e, category);
        AddFeedStands(PlannedFeed(e, category), b, listed, n + 1);
        VisitLeafIff(c, e, category, depth, a, listed, n);
      } else {
        VisitAllIff(c, e.children, Or(e.title, e.text), depth + 1, b, listed, n + 1);
        VisitCategoryIff(c, e, category, depth, a, listed, n);
      }
    }
  }

  lemma CountedStands(a: Progress, listed: seq<Planned>, n: nat)
    requires Stands(a, listed, n)
    ensures a.outlines == n && Stands(a.(outlines := a.outlines + 1), listed, n + 1)
  {
  }

  lemma LeafMeasures(e: Element, category: string)
    requires Strip(e.xmlUrl) != ""
    ensures FlatOne(e, category) == [PlannedFeed(e, category)]
    ensures e.children == [] ==> OutlinesOne(e) == 1
  {
    assert e.children == [] ==> Outlines(e.children) == 0;
  }

  lemma VisitLeafIff(c: Checks, e: Element, category: string, depth: nat, a: Progress, listed: seq<Planned>, n: nat)
    requires a.outlines == n && n + 1 <= OPML_MAX_OUTLINES && Strip(e.xmlUrl) != ""
    requires var p := PlannedFeed(e, category); AddFeed(p, a.(outlines := a.outlines + 1)).Some? <==>
        Consistent(listed + [p])
    ensures VisitOne(c, e, category, depth, a).Some? <==> PassesOne(c, e, category, depth, listed, n)
    ensures VisitOne(c, e, category, depth, a).Some? ==>
              VisitOne(c, e, category, depth, a) ==
                  AddFeed(PlannedFeed(e, category), a.(outlines := a.outlines + 1)) && OutlinesOne(e) == 1
  {
    LeafMeasures(e, category);
  }

  lemma VisitCategoryIff(c: Checks, e: Element, category: string, depth: nat, a: Progress, listed: seq<Planned>, n: nat)
    requires a.outlines == n && n + 1 <= OPML_MAX_OUTLINES && Strip(e.xmlUrl) == ""
    requires var name := Or(e.title, e.text);
      VisitAll(c, e.children, name, depth + 1, a.(outlines := a.outlines + 1)).Some? <==>
          Passes(c, e.children, name, depth + 1, listed, n + 1)
    ensures VisitOne(c, e, category, depth, a).Some? <==> PassesOne(c, e, category, depth, listed, n)
    ensures VisitOne(c, e, category, depth, a).Some? ==>
              VisitOne(c, e, category, depth, a) ==
                  VisitAll(c, e.children, Or(e.title, e.text), depth + 1, a.(outlines := a.outlines + 1))
  {
  }

  /** Main result on parsing: the recursive visit accepts a document exactly when every element
      is well formed, there are at most 1000 of them, and repeated feeds agree; and then it
      finds every feed of the document once and counts the repeats. */
  lemma ParseIff(c: Checks, children: seq<Element>)
    ensures var listed, parsed := Flat(children, ""), Visit(c, children, "", 1, NOTHING);
      && (parsed.Some? <==> Shape(c, children, "", 1) && Outlines(children) <= OPML_MAX_OUTLINES && Consistent(listed))
      && (parsed.Some? ==>
            parsed.value.feeds == FirstCopies(listed) && parsed.value.duplicates == |listed| - |FirstCopies(listed)|)
  {
    VisitAllIff(c, children, "", 1, NOTHING, [], 0);
    assert [] + Flat(children, "") == Flat(children, "");
  }
}
