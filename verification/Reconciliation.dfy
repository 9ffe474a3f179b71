/** Article reconciliation: one feed's document is planned against a snapshot of its articles,
    then written row by row under two immediate unique constraints. */
module Reconciliation {
  import opened Common

  datatype Link = Link(href: string, rel: string, mediaType: string)

  /** The fields the writer keeps besides identity and times. */
  datatype Content = Content(title: string, author: string, summary: string)

  /** One parsed entry. `publishedAt` is None when it gives no readable date. */
  datatype Entry = Entry(id: string, link: string, links: seq<Link>,
                         title: string, author: string, summary: string, publishedAt: Option<int>)

  datatype Article = Article(guid: string, url: string, content: Content, publishedAt: int, fetchedAt: int)

  type Rows = map<nat, Article>

  /** One feed's articles by primary key, and the key the database hands out next. */
  datatype Table = Table(rows: Rows, nextPk: nat)

  datatype Write = Write(position: nat, target: Option<nat>, guid: string, url: string, content: Content,
                         published: Option<int>)

  // ----- identity of an entry -----

  function AlternateHref(links: seq<Link>): string {
    if links == [] then ""
    else if links[0].href != "" && links[0].rel == "alternate" && links[0].mediaType == "text/html"
    then links[0].href
    else AlternateHref(links[1..])
  }

  function Url(e: Entry): string {
    var alternate := AlternateHref(e.links);
    if alternate != "" then alternate else if e.link != "" then e.link else e.id
  }

  function Guid(e: Entry): string { if e.id != "" then e.id else Url(e) }

  predicate Usable(e: Entry) { Url(e) != "" }

  function ContentOf(e: Entry): Content {
    Content(if e.title != "" then e.title else Url(e), e.author, e.summary)
  }

  // ----- the database constraints -----

  ghost predicate Unique(rows: Rows) {
    forall p, q :: p in rows && q in rows && p != q ==>
                     rows[p].guid != rows[q].guid && rows[p].url != rows[q].url
  }

  ghost predicate Valid(t: Table) {
    && Unique(t.rows)
    && forall p :: p in t.rows ==> p < t.nextPk
  }

  // ----- when a document conflicts, stated without any order of entries -----

  /** Row `pk` already carries this guid or this url. */
  predicate Touches(rows: Rows, guid: string, url: string, pk: nat) {
    pk in rows && (rows[pk].guid == guid || rows[pk].url == url)
  }

  /** The guid names one stored article and the url another. */
  ghost predicate Split(rows: Rows, e: Entry) {
    exists p, q :: p != q && Touches(rows, Guid(e), Url(e), p) && Touches(rows, Guid(e), Url(e), q)
  }

  /** Two entries compete for a guid, a url or a stored article. */
  ghost predicate Clash(rows: Rows, e: Entry, f: Entry) {
    || Guid(e) == Guid(f)
    || Url(e) == Url(f)
    || exists p :: Touches(rows, Guid(e), Url(e), p) && Touches(rows, Guid(f), Url(f), p)
  }

  ghost predicate SplitFree(rows: Rows, entries: seq<Entry>) {
    forall i :: 0 <= i < |entries| && Usable(entries[i]) ==> !Split(rows, entries[i])
  }

  ghost predicate ClashFree(rows: Rows, entries: seq<Entry>) {
    forall i, j :: 0 <= i < j < |entries| && Usable(entries[i]) && Usable(entries[j]) ==>
                     !Clash(rows, entries[i], entries[j])
  }

  ghost predicate Conflict(rows: Rows, entries: seq<Entry>) {
    !SplitFree(rows, entries) || !ClashFree(rows, entries)
  }

  // ----- the plan -----

  /** The stored article an entry is matched with. */
  ghost function Target(rows: Rows, guid: string, url: string): (t: Option<nat>)
    ensures t.Some? ==> Touches(rows, guid, url, t.value)
    ensures t.None? ==> forall p :: !Touches(rows, guid, url, p)
  {
    if exists p :: Touches(rows, guid, url, p) then
      var p :| Touches(rows, guid, url, p);
      Some(p)
    else None
  }

  ghost function WriteFor(rows: Rows, position: nat, e: Entry): Write {
    Write(position, Target(rows, Guid(e), Url(e)), Guid(e), Url(e), ContentOf(e), e.publishedAt)
  }

  /** The writes of the first `n` entries, in document order. */
  ghost function Drafts(rows: Rows, entries: seq<Entry>, n: nat): seq<Write>
    requires n <= |entries|
  {
    if n == 0 then []
    else if Usable(entries[n - 1])
    then Drafts(rows, entries, n - 1) + [WriteFor(rows, n - 1, entries[n - 1])]
    else Drafts(rows, entries, n - 1)
  }

  /** The sort key: updates before creations, updates by primary key, creations by
      guid, then url, then position. */
  predicate Before(a: Write, b: Write) {
    if a.target.None? != b.target.None? then a.target.Some?
    else if a.target.Some? && b.target.Some? && a.target.value != b.target.value
    then a.target.value < b.target.value
    else if a.target.None? && a.guid != b.guid then StringLess(a.guid, b.guid)
    else if a.url != b.url then StringLess(a.url, b.url)
    else a.position < b.position
  }

  ghost function Plan(rows: Rows, entries: seq<Entry>): seq<Write> {
    Sort(Before, Drafts(rows, entries, |entries|))
  }

  lemma BeforeIsWeakOrder()
    ensures WeakOrder(Before)
  {
    forall a, b | Before(a, b) ensures !Before(b, a) {
      StringLessIsStrict(a.guid, b.guid);
      StringLessIsStrict(a.url, b.url);
    }
    forall a, b, c | !Before(b, a) && !Before(c, b) ensures !Before(c, a) {
      BeforeComposes(a, b, c);
    }
  }

  lemma StringNotLessComposes(a: string, b: string, c: string)
    requires !StringLess(b, a) && !StringLess(c, b)
    ensures !StringLess(c, a)
    ensures a == c ==> a == b
  {
    StringLessIsStrict(a, b);
    StringLessIsStrict(b, c);
    StringLessIsStrict(a, c);
    if a != b && b != c {
      StringLessIsTransitive(a, b, c);
    }
  }

  lemma BeforeComposes(a: Write, b: Write, c: Write)
    requires !Before(b, a) && !Before(c, b)
    ensures !Before(c, a)
  {
    if a.target.None? && b.target.None? && c.target.None? {
      StringLessIsStrict(a.guid, b.guid);
      StringLessIsStrict(b.guid, c.guid);
      if !StringLess(b.guid, a.guid) && !StringLess(c.guid, b.guid) {
        StringNotLessComposes(a.guid, b.guid, c.guid);
      }
    }
    StringLessIsStrict(a.url, b.url);
    StringLessIsStrict(b.url, c.url);
    if !StringLess(b.url, a.url) && !StringLess(c.url, b.url) {
      StringNotLessComposes(a.url, b.url, c.url);
    }
  }

  // ----- what a plan promises the writer -----

  /** A write whose identity is free in `rows` except at its own target. */
  ghost predicate Fits(rows: Rows, w: Write) {
    && (w.target.Some? ==> w.target.value in rows)
    && forall p: nat :: Touches(rows, w.guid, w.url, p) ==> w.target == Some(p)
  }

  ghost predicate Apart(v: Write, w: Write) {
    && v.guid != w.guid
    && v.url != w.url
    && (v.target.Some? ==> v.target != w.target)
  }

  /** Every write fits and no two compete: the reason no order of the writes can
      violate a constraint. */
  ghost predicate Compatible(rows: Rows, ws: seq<Write>) {
    && (forall i :: 0 <= i < |ws| ==> Fits(rows, ws[i]))
    && (forall i, j :: 0 <= i < j < |ws| ==> Apart(ws[i], ws[j]))
  }

  // ----- applying writes -----

  /** `_aware_datetime`: an undated entry is published now. */
  function When(published: Option<int>, now: int): int { if published.Some? then published.value else now }

  function ApplyOne(t: Table, w: Write, now: int): Table {
    match w.target
    case None =>
      Table(t.rows[t.nextPk := Article(w.guid, w.url, w.content, When(w.published, now), now)], t.nextPk + 1)
    case Some(pk) =>
      if pk !in t.rows then t
      else t.(rows := t.rows[pk := Article(w.guid, w.url, w.content, When(w.published, now), t.rows[pk].fetchedAt)])
  }

  function ApplyAll(t: Table, ws: seq<Write>, now: int): Table
    decreases |ws|
  {
    if ws == [] then t else ApplyAll(ApplyOne(t, ws[0], now), ws[1..], now)
  }

  function Creations(ws: seq<Write>): nat {
    if ws == [] then 0 else (if ws[0].target.None? then 1 else 0) + Creations(ws[1..])
  }

  /** The effect of a whole document, or None when it conflicts. */
  ghost function Reconcile(t: Table, entries: seq<Entry>, now: int): Option<Table> {
    if Conflict(t.rows, entries) then None else Some(ApplyAll(t, Plan(t.rows, entries), now))
  }

  // ----- facts about drafts and plans -----

  lemma {:induction false} DraftComesFromEntry(rows: Rows, entries: seq<Entry>, n: nat, k: nat)
    requires n <= |entries|
    requires k < |Drafts(rows, entries, n)|
    ensures var w := Drafts(rows, entries, n)[k];
            w.position < n && Usable(entries[w.position]) && w == WriteFor(rows, w.position, entries[w.position])
    ensures forall j :: 0 <= j < k ==>
                          Drafts(rows, entries, n)[j].position < Drafts(rows, entries, n)[k].position
  {
    var shorter := if n == 0 then [] else Drafts(rows, entries, n - 1);
    if k < |shorter| {
      DraftComesFromEntry(rows, entries, n - 1, k);
    } else {
      forall j | 0 <= j < k ensures Drafts(rows, entries, n)[j].position < n - 1 {
        DraftComesFromEntry(rows, entries, n - 1, j);
      }
    }
  }

  lemma {:induction false} EntryHasDraft(rows: Rows, entries: seq<Entry>, n: nat, i: nat)
    requires i < n <= |entries| && Usable(entries[i])
    ensures WriteFor(rows, i, entries[i]) in Drafts(rows, entries, n)
  {
    if i < n - 1 {
      EntryHasDraft(rows, entries, n - 1, i);
    }
  }

  lemma DraftFits(rows: Rows, e: Entry, position: nat)
    requires !Split(rows, e)
    ensures Fits(rows, WriteFor(rows, position, e))
  {
    var w := WriteFor(rows, position, e);
    forall p: nat | Touches(rows, w.guid, w.url, p) ensures w.target == Some(p) {
      assert Touches(rows, w.guid, w.url, w.target.value);
    }
  }

  lemma DraftsAreApart(rows: Rows, e: Entry, f: Entry, i: nat, j: nat)
    requires !Clash(rows, e, f)
    ensures Apart(WriteFor(rows, i, e), WriteFor(rows, j, f))
  {
    var v, w := WriteFor(rows, i, e), WriteFor(rows, j, f);
    assert v.target.Some? ==> Touches(rows, Guid(e), Url(e), v.target.value);
    assert w.target.Some? ==> Touches(rows, Guid(f), Url(f), w.target.value);
  }

  lemma DraftsAreCompatible(rows: Rows, entries: seq<Entry>)
    requires !Conflict(rows, entries)
    ensures Compatible(rows, Drafts(rows, entries, |entries|))
  {
    var ws := Drafts(rows, entries, |entries|);
    forall i | 0 <= i < |ws| ensures Fits(rows, ws[i]) {
      DraftComesFromEntry(rows, entries, |entries|, i);
      DraftFits(rows, entries[ws[i].position], ws[i].position);
    }
    forall i, j | 0 <= i < j < |ws| ensures Apart(ws[i], ws[j]) {
      DraftComesFromEntry(rows, entries, |entries|, i);
      DraftComesFromEntry(rows, entries, |entries|, j);
      var p, q := ws[i].position, ws[j].position;
      assert p < q;
      DraftsAreApart(rows, entries[p], entries[q], p, q);
    }
  }

  /** Compatibility is about the collection of writes, not their order. */
  lemma CompatibleInAnyOrder(rows: Rows, ws: seq<Write>, vs: seq<Write>)
    requires Compatible(rows, ws)
    requires multiset(vs) == multiset(ws)
    ensures Compatible(rows, vs)
  {
    forall i | 0 <= i < |vs| ensures Fits(rows, vs[i]) {
      assert vs[i] in multiset(vs);
      assert vs[i] in ws;
    }
    PairwiseInAnyOrder((v, w) => Apart(v, w), ws, vs);
  }

  lemma PlanIsCompatible(rows: Rows, entries: seq<Entry>)
    requires !Conflict(rows, entries)
    ensures Compatible(rows, Plan(rows, entries))
    ensures multiset(Plan(rows, entries)) == multiset(Drafts(rows, entries, |entries|))
  {
    BeforeIsWeakOrder();
    SortSorts(Before, Drafts(rows, entries, |entries|));
    DraftsAreCompatible(rows, entries);
    CompatibleInAnyOrder(rows, Drafts(rows, entries, |entries|), Plan(rows, entries));
  }

  // ----- writing row by row -----

  lemma ElsewhereFree(rows: Rows, w: Write, p: nat)
    requires Fits(rows, w) && p in rows && w.target != Some(p)
    ensures rows[p].guid != w.guid && rows[p].url != w.url
  {
    assert !Touches(rows, w.guid, w.url, p);
  }

  lemma FittingWriteIsSafe(t: Table, w: Write, now: int)
    requires Valid(t) && Fits(t.rows, w)
    ensures Valid(ApplyOne(t, w, now))
  {
    var rows' := ApplyOne(t, w, now).rows;
    forall p, q | p in rows' && q in rows' && p != q
      ensures rows'[p].guid != rows'[q].guid && rows'[p].url != rows'[q].url
    {
      var written := if w.target.Some? then w.target.value else t.nextPk;
      if p == written {
        ElsewhereFree(t.rows, w, q);
      } else if q == written {
        ElsewhereFree(t.rows, w, p);
      }
    }
  }

  lemma WriteKeepsRows(t: Table, w: Write, now: int)
    requires Valid(t) && Fits(t.rows, w)
    ensures t.rows.Keys <= ApplyOne(t, w, now).rows.Keys
    ensures |ApplyOne(t, w, now).rows| == |t.rows| + (if w.target.None? then 1 else 0)
  {
    var rows' := ApplyOne(t, w, now).rows;
    if w.target.None? {
      assert rows'.Keys == t.rows.Keys + {t.nextPk};
    } else {
      assert rows'.Keys == t.rows.Keys;
    }
    assert |rows'| == |rows'.Keys| && |t.rows| == |t.rows.Keys|;
  }

  lemma RemainingWriteStillFits(t: Table, w: Write, v: Write, now: int)
    requires Valid(t) && Fits(t.rows, w) && Fits(t.rows, v) && Apart(w, v)
    ensures Fits(ApplyOne(t, w, now).rows, v)
  {
    var t' := ApplyOne(t, w, now);
    forall p: nat | Touches(t'.rows, v.guid, v.url, p) ensures v.target == Some(p) {
      assert Touches(t.rows, v.guid, v.url, p);
    }
  }

  /** One write keeps both constraints and leaves the remaining writes compatible
      with the table as it now stands. */
  lemma WriteKeepsConstraints(t: Table, ws: seq<Write>, now: int)
    requires Valid(t) && ws != [] && Compatible(t.rows, ws)
    ensures Valid(ApplyOne(t, ws[0], now))
    ensures Compatible(ApplyOne(t, ws[0], now).rows, ws[1..])
  {
    FittingWriteIsSafe(t, ws[0], now);
    forall i | 0 <= i < |ws[1..]| ensures Fits(ApplyOne(t, ws[0], now).rows, ws[1..][i]) {
      assert Apart(ws[0], ws[i + 1]) && Fits(t.rows, ws[i + 1]);
      RemainingWriteStillFits(t, ws[0], ws[i + 1], now);
    }
    forall i, j | 0 <= i < j < |ws[1..]| ensures Apart(ws[1..][i], ws[1..][j]) {
      assert Apart(ws[i + 1], ws[j + 1]);
    }
  }

  lemma {:induction false} CompatibleWritesKeepConstraints(t: Table, ws: seq<Write>, now: int, k: nat)
    requires Valid(t) && Compatible(t.rows, ws)
    requires k <= |ws|
    ensures Valid(ApplyAll(t, ws[..k], now))
    ensures t.rows.Keys <= ApplyAll(t, ws[..k], now).rows.Keys
    ensures |ApplyAll(t, ws[..k], now).rows| == |t.rows| + Creations(ws[..k])
    ensures Compatible(ApplyAll(t, ws[..k], now).rows, ws[k..])
    decreases |ws|
  {
    if k == 0 {
      assert ws[..0] == [] && ws[0..] == ws;
    } else {
      WriteKeepsConstraints(t, ws, now);
      WriteKeepsRows(t, ws[0], now);
      CompatibleWritesKeepConstraints(ApplyOne(t, ws[0], now), ws[1..], now, k - 1);
      assert ws[..k][1..] == ws[1..][..k - 1];
      assert ws[1..][k - 1..] == ws[k..];
    }
  }

  /** Main result on writing: whenever planning succeeds, the planned writes can be
      applied in any order and both constraints hold after every single write; no
      stored article is lost and exactly the creations are added. */
  lemma AnyWriteOrderIsSafe(t: Table, entries: seq<Entry>, ws: seq<Write>, now: int, k: nat)
    requires Valid(t) && !Conflict(t.rows, entries)
    requires multiset(ws) == multiset(Plan(t.rows, entries))
    requires k <= |ws|
    ensures Unique(ApplyAll(t, ws[..k], now).rows)
    ensures t.rows.Keys <= ApplyAll(t, ws[..k], now).rows.Keys
    ensures |ApplyAll(t, ws[..k], now).rows| == |t.rows| + Creations(ws[..k])
  {
    PlanIsCompatible(t.rows, entries);
    CompatibleInAnyOrder(t.rows, Plan(t.rows, entries), ws);
    CompatibleWritesKeepConstraints(t, ws, now, k);
  }

  // ----- planning does not depend on the order of entries -----

  function Unplaced(w: Write): Write { w.(position := 0) }

  function UnplacedAll(ws: seq<Write>): (r: seq<Write>)
    ensures |r| == |ws| && forall i :: 0 <= i < |ws| ==> r[i] == Unplaced(ws[i])
  {
    if ws == [] then [] else [Unplaced(ws[0])] + UnplacedAll(ws[1..])
  }

  lemma ConflictInAnyOrder(rows: Rows, entries: seq<Entry>, others: seq<Entry>)
    requires multiset(entries) == multiset(others)
    requires !Conflict(rows, entries)
    ensures !Conflict(rows, others)
  {
    forall i | 0 <= i < |others| && Usable(others[i]) ensures !Split(rows, others[i]) {
      assert others[i] in multiset(others);
      assert others[i] in entries;
    }
    PairwiseInAnyOrder((e, f) => Usable(e) && Usable(f) ==> !Clash(rows, e, f), entries, others);
  }

  ghost predicate FromEntry(rows: Rows, entries: seq<Entry>, w: Write) {
    exists e :: e in entries && Usable(e) && w == WriteFor(rows, 0, e)
  }

  lemma PlannedComesFromEntry(rows: Rows, entries: seq<Entry>, w: Write)
    requires !Conflict(rows, entries)
    requires w in UnplacedAll(Plan(rows, entries))
    ensures FromEntry(rows, entries, w)
  {
    var drafts, plan := Drafts(rows, entries, |entries|), Plan(rows, entries);
    PlanIsCompatible(rows, entries);
    var i :| 0 <= i < |plan| && UnplacedAll(plan)[i] == w;
    assert plan[i] in multiset(plan);
    assert plan[i] in drafts;
    var k :| 0 <= k < |drafts| && drafts[k] == plan[i];
    DraftComesFromEntry(rows, entries, |entries|, k);
    var e := entries[plan[i].position];
    assert e in entries && w == WriteFor(rows, 0, e);
  }

  lemma EntryIsPlanned(rows: Rows, entries: seq<Entry>, w: Write)
    requires !Conflict(rows, entries)
    requires FromEntry(rows, entries, w)
    ensures w in UnplacedAll(Plan(rows, entries))
  {
    var drafts, plan := Drafts(rows, entries, |entries|), Plan(rows, entries);
    PlanIsCompatible(rows, entries);
    var e :| e in entries && Usable(e) && w == WriteFor(rows, 0, e);
    var i :| 0 <= i < |entries| && entries[i] == e;
    EntryHasDraft(rows, entries, |entries|, i);
    assert WriteFor(rows, i, e) in multiset(drafts);
    assert WriteFor(rows, i, e) in plan;
    var k :| 0 <= k < |plan| && plan[k] == WriteFor(rows, i, e);
    assert UnplacedAll(plan)[k] == w;
  }

  lemma ApartWritesAreStrictlyOrdered(v: Write, w: Write)
    requires Apart(v, w) && !Before(w, v)
    ensures Before(Unplaced(v), Unplaced(w))
  {
    StringLessIsStrict(v.guid, w.guid);
  }

  lemma PlanIsStrictlyOrdered(rows: Rows, entries: seq<Entry>)
    requires !Conflict(rows, entries)
    ensures forall i, j :: 0 <= i < j < |Plan(rows, entries)| ==>
              Before(UnplacedAll(Plan(rows, entries))[i], UnplacedAll(Plan(rows, entries))[j])
  {
    var plan := Plan(rows, entries);
    PlanIsCompatible(rows, entries);
    BeforeIsWeakOrder();
    SortSorts(Before, Drafts(rows, entries, |entries|));
    forall i, j | 0 <= i < j < |plan| ensures Before(UnplacedAll(plan)[i], UnplacedAll(plan)[j]) {
      assert Apart(plan[i], plan[j]);
      ApartWritesAreStrictlyOrdered(plan[i], plan[j]);
    }
  }

  lemma {:induction false} PositionsDoNotMatter(t: Table, ws: seq<Write>, now: int)
    ensures ApplyAll(t, UnplacedAll(ws), now) == ApplyAll(t, ws, now)
    decreases |ws|
  {
    if ws != [] {
      PositionsDoNotMatter(ApplyOne(t, ws[0], now), ws[1..], now);
      assert UnplacedAll(ws)[1..] == UnplacedAll(ws[1..]);
    }
  }

  /** Main result on planning: any permutation of a document fails or succeeds alike,
      yields the same sorted writes up to position, and has the same effect. */
  lemma PlanningIgnoresEntryOrder(t: Table, entries: seq<Entry>, others: seq<Entry>, now: int)
    requires multiset(entries) == multiset(others)
    ensures Conflict(t.rows, entries) <==> Conflict(t.rows, others)
    ensures !Conflict(t.rows, entries) ==>
              UnplacedAll(Plan(t.rows, entries)) == UnplacedAll(Plan(t.rows, others))
    ensures Reconcile(t, entries, now) == Reconcile(t, others, now)
  {
    if !Conflict(t.rows, entries) {
      ConflictInAnyOrder(t.rows, entries, others);
    }
    if !Conflict(t.rows, others) {
      ConflictInAnyOrder(t.rows, others, entries);
      var a, b := UnplacedAll(Plan(t.rows, entries)), UnplacedAll(Plan(t.rows, others));
      assert forall e :: e in entries <==> e in multiset(entries);
      assert forall e :: e in others <==> e in multiset(others);
      forall w ensures w in a <==> w in b {
        if w in a {
          PlannedComesFromEntry(t.rows, entries, w);
          EntryIsPlanned(t.rows, others, w);
        }
        if w in b {
          PlannedComesFromEntry(t.rows, others, w);
          EntryIsPlanned(t.rows, entries, w);
        }
      }
      PlanIsStrictlyOrdered(t.rows, entries);
      PlanIsStrictlyOrdered(t.rows, others);
      BeforeIsWeakOrder();
      StrictOrderIsUnique(Before, a, b);
      PositionsDoNotMatter(t, Plan(t.rows, entries), now);
      PositionsDoNotMatter(t, Plan(t.rows, others), now);
    }
  }

  // ----- replaying an applied document -----

  predicate Carries(a: Article, w: Write) {
    a.guid == w.guid && a.url == w.url && a.content == w.content &&
        (w.published.Some? ==> a.publishedAt == w.published.value)
  }

  lemma {:induction false} UntouchedRowStays(t: Table, ws: seq<Write>, now: int, pk: nat)
    requires Valid(t) && Compatible(t.rows, ws)
    requires pk in t.rows && forall i :: 0 <= i < |ws| ==> ws[i].target != Some(pk)
    ensures pk in ApplyAll(t, ws, now).rows && ApplyAll(t, ws, now).rows[pk] == t.rows[pk]
    decreases |ws|
  {
    if ws != [] {
      WriteKeepsConstraints(t, ws, now);
      UntouchedRowStays(ApplyOne(t, ws[0], now), ws[1..], now, pk);
    }
  }

  lemma {:induction false} WriteLands(t: Table, ws: seq<Write>, now: int, k: nat) returns (pk: nat)
    requires Valid(t) && Compatible(t.rows, ws) && k < |ws|
    ensures pk in ApplyAll(t, ws, now).rows && Carries(ApplyAll(t, ws, now).rows[pk], ws[k])
    ensures ApplyAll(t, ws, now).rows[pk].publishedAt == When(ws[k].published, now)
    decreases |ws|
  {
    WriteKeepsConstraints(t, ws, now);
    var t' := ApplyOne(t, ws[0], now);
    if k > 0 {
      pk := WriteLands(t', ws[1..], now, k - 1);
    } else {
      assert Fits(t.rows, ws[0]);
      pk := if ws[0].target.Some? then ws[0].target.value else t.nextPk;
      forall i | 0 <= i < |ws[1..]| ensures ws[1..][i].target != Some(pk) {
        assert Apart(ws[0], ws[i + 1]) && Fits(t.rows, ws[i + 1]);
      }
      UntouchedRowStays(t', ws[1..], now, pk);
    }
  }

  /** After a document is applied, each usable entry has its own row. */
  lemma EntryIsStored(t: Table, entries: seq<Entry>, now: int, e: Entry) returns (pk: nat)
    requires Valid(t) && !Conflict(t.rows, entries)
    requires e in entries && Usable(e)
    ensures var rows' := ApplyAll(t, Plan(t.rows, entries), now).rows;
            pk in rows' && Carries(rows'[pk], WriteFor(rows', 0, e)) &&
                rows'[pk].publishedAt == When(e.publishedAt, now)
  {
    var plan := Plan(t.rows, entries);
    PlanIsCompatible(t.rows, entries);
    var i :| 0 <= i < |entries| && entries[i] == e;
    EntryHasDraft(t.rows, entries, |entries|, i);
    assert WriteFor(t.rows, i, e) in multiset(plan);
    assert WriteFor(t.rows, i, e) in plan;
    var k :| 0 <= k < |plan| && plan[k] == WriteFor(t.rows, i, e);
    pk := WriteLands(t, plan, now, k);
  }

  /** A write that finds its own content in place. */
  ghost predicate Idle(rows: Rows, w: Write) {
    w.target.Some? && w.target.value in rows && Carries(rows[w.target.value], w)
  }

  /** Some undated write is for row `pk`. */
  ghost predicate RedatedBy(ws: seq<Write>, pk: nat) {
    exists i :: 0 <= i < |ws| && ws[i].target == Some(pk) && ws[i].published.None?
  }

  ghost function Redated(rows: Rows, ws: seq<Write>, now: int): Rows {
    map pk | pk in rows :: if RedatedBy(ws, pk) then rows[pk].(publishedAt := now) else rows[pk]
  }

  /** Writes that find their content in place, each on its own row, set the publication time of
      undated ones and change nothing else. */
  lemma {:induction false} IdleWritesOnlyRedate(t: Table, ws: seq<Write>, now: int)
    requires forall i :: 0 <= i < |ws| ==> Idle(t.rows, ws[i])
    requires forall i, j :: 0 <= i < j < |ws| ==> ws[i].target != ws[j].target
    ensures ApplyAll(t, ws, now) == t.(rows := Redated(t.rows, ws, now)) && Creations(ws) == 0
    decreases |ws|
  {
    if ws == [] {
      assert Redated(t.rows, ws, now) == t.rows;
    } else {
      var w, rest, t' := ws[0], ws[1..], ApplyOne(t, ws[0], now);
      assert Idle(t.rows, w);
      forall i | 0 <= i < |rest| ensures Idle(t'.rows, rest[i]) && rest[i].target != w.target {
        assert rest[i] == ws[i + 1] && Idle(t.rows, ws[i + 1]);
      }
      IdleWritesOnlyRedate(t', rest, now);
      forall pk: nat ensures RedatedBy(ws, pk) <==> (w.target == Some(pk) && w.published.None?) || RedatedBy(rest, pk) {
        RedatedByFirstOrRest(ws, pk);
      }
      assert Redated(t'.rows, rest, now) == Redated(t.rows, ws, now);
    }
  }

  lemma RedatedByFirstOrRest(ws: seq<Write>, pk: nat)
    requires ws != []
    ensures RedatedBy(ws, pk) <==> (ws[0].target == Some(pk) && ws[0].published.None?) || RedatedBy(ws[1..], pk)
  {
    if i :| 0 <= i < |ws[1..]| && ws[1..][i].target == Some(pk) && ws[1..][i].published.None? {
      assert ws[i + 1] == ws[1..][i];
    }
    if i :| 0 <= i < |ws| && ws[i].target == Some(pk) && ws[i].published.None? {
      assert i > 0 ==> ws[1..][i - 1] == ws[i];
    }
  }

  ghost predicate StoredAt(rows: Rows, e: Entry, pk: nat) {
    pk in rows && Carries(rows[pk], WriteFor(rows, 0, e))
  }

  ghost predicate Stored(rows: Rows, e: Entry) { exists pk: nat :: StoredAt(rows, e, pk) }

  lemma StoredRowIsItsOnlyMatch(rows: Rows, e: Entry, pk: nat, p: nat)
    requires Unique(rows) && StoredAt(rows, e, pk) && Touches(rows, Guid(e), Url(e), p)
    ensures p == pk
  {
  }

  lemma StoredEntryIsIdle(rows: Rows, e: Entry, position: nat)
    requires Unique(rows) && Stored(rows, e)
    ensures !Split(rows, e)
    ensures Idle(rows, WriteFor(rows, position, e))
  {
    var pk: nat :| StoredAt(rows, e, pk);
    assert Touches(rows, Guid(e), Url(e), pk);
    forall p: nat | Touches(rows, Guid(e), Url(e), p) ensures p == pk {
      StoredRowIsItsOnlyMatch(rows, e, pk, p);
    }
  }

  lemma StoredEntriesDoNotClash(rows: Rows, e: Entry, f: Entry)
    requires Unique(rows) && Stored(rows, e) && Stored(rows, f)
    requires Guid(e) != Guid(f) && Url(e) != Url(f)
    ensures !Clash(rows, e, f)
  {
    var pk: nat :| StoredAt(rows, e, pk);
    var qk: nat :| StoredAt(rows, f, qk);
    forall p: nat | Touches(rows, Guid(e), Url(e), p) ensures !Touches(rows, Guid(f), Url(f), p) {
      StoredRowIsItsOnlyMatch(rows, e, pk, p);
      assert rows[p].guid == Guid(e);
    }
  }

  /** Entries that each own a stored row plan without conflict, and every planned
      write is an update of that row with what it already holds. */
  lemma StoredEntriesPlanIdly(rows: Rows, entries: seq<Entry>)
    requires Unique(rows)
    requires forall i :: 0 <= i < |entries| && Usable(entries[i]) ==> Stored(rows, entries[i])
    requires forall i, j :: 0 <= i < j < |entries| && Usable(entries[i]) && Usable(entries[j]) ==>
               Guid(entries[i]) != Guid(entries[j]) && Url(entries[i]) != Url(entries[j])
    ensures !Conflict(rows, entries)
    ensures forall i :: 0 <= i < |Plan(rows, entries)| ==> Idle(rows, Plan(rows, entries)[i])
  {
    forall i | 0 <= i < |entries| && Usable(entries[i]) ensures !Split(rows, entries[i]) {
      StoredEntryIsIdle(rows, entries[i], i);
    }
    forall i, j | 0 <= i < j < |entries| && Usable(entries[i]) && Usable(entries[j])
      ensures !Clash(rows, entries[i], entries[j])
    {
      StoredEntriesDoNotClash(rows, entries[i], entries[j]);
    }
    forall i | 0 <= i < |Plan(rows, entries)| ensures Idle(rows, Plan(rows, entries)[i]) {
      PlannedWriteIsIdle(rows, entries, i);
    }
  }

  lemma PlannedWriteIsIdle(rows: Rows, entries: seq<Entry>, i: nat)
    requires Unique(rows) && !Conflict(rows, entries) && i < |Plan(rows, entries)|
    requires forall j :: 0 <= j < |entries| && Usable(entries[j]) ==> Stored(rows, entries[j])
    ensures Idle(rows, Plan(rows, entries)[i])
  {
    var w, drafts := Plan(rows, entries)[i], Drafts(rows, entries, |entries|);
    PlannedAreDrafts(rows, entries, w);
    var k :| 0 <= k < |drafts| && drafts[k] == w;
    DraftComesFromEntry(rows, entries, |entries|, k);
    StoredEntryIsIdle(rows, entries[w.position], w.position);
  }

  /** Row `pk` holds a usable entry that gives no date. */
  ghost predicate HoldsUndated(rows: Rows, entries: seq<Entry>, pk: nat) {
    exists i :: 0 <= i < |entries| && Usable(entries[i]) && entries[i].publishedAt.None? &&
        StoredAt(rows, entries[i], pk)
  }

  lemma PlannedAreDrafts(rows: Rows, entries: seq<Entry>, w: Write)
    requires !Conflict(rows, entries)
    ensures w in Plan(rows, entries) <==> w in Drafts(rows, entries, |entries|)
  {
    PlanIsCompatible(rows, entries);
    assert w in Plan(rows, entries) <==> w in multiset(Plan(rows, entries));
    assert w in Drafts(rows, entries, |entries|) <==> w in multiset(Drafts(rows, entries, |entries|));
  }

  lemma RedatedRowHoldsUndated(rows: Rows, entries: seq<Entry>, pk: nat)
    requires !Conflict(rows, entries) && RedatedBy(Plan(rows, entries), pk)
    requires forall i :: 0 <= i < |Plan(rows, entries)| ==> Idle(rows, Plan(rows, entries)[i])
    ensures HoldsUndated(rows, entries, pk)
  {
    var plan, drafts := Plan(rows, entries), Drafts(rows, entries, |entries|);
    var i :| 0 <= i < |plan| && plan[i].target == Some(pk) && plan[i].published.None?;
    PlannedAreDrafts(rows, entries, plan[i]);
    var k :| 0 <= k < |drafts| && drafts[k] == plan[i];
    DraftComesFromEntry(rows, entries, |entries|, k);
    assert Idle(rows, plan[i]);
    assert StoredAt(rows, entries[plan[i].position], pk);
  }

  lemma UndatedRowIsRedated(rows: Rows, entries: seq<Entry>, pk: nat)
    requires Unique(rows) && !Conflict(rows, entries) && HoldsUndated(rows, entries, pk)
    requires forall i :: 0 <= i < |Plan(rows, entries)| ==> Idle(rows, Plan(rows, entries)[i])
    ensures RedatedBy(Plan(rows, entries), pk)
  {
    var plan := Plan(rows, entries);
    var i :| 0 <= i < |entries| && Usable(entries[i]) && entries[i].publishedAt.None? && StoredAt(rows, entries[i], pk);
    var w := WriteFor(rows, i, entries[i]);
    EntryHasDraft(rows, entries, |entries|, i);
    PlannedAreDrafts(rows, entries, w);
    var k :| 0 <= k < |plan| && plan[k] == w;
    assert Idle(rows, plan[k]);
    StoredRowIsItsOnlyMatch(rows, entries[i], pk, w.target.value);
    assert plan[k].target == Some(pk);
  }

  lemma AppliedEntriesAreStored(t: Table, entries: seq<Entry>, now: int, once: Table)
    requires Valid(t) && Reconcile(t, entries, now) == Some(once)
    ensures Valid(once) && !Conflict(once.rows, entries)
    ensures forall i :: 0 <= i < |Plan(once.rows, entries)| ==> Idle(once.rows, Plan(once.rows, entries)[i])
    ensures |Plan(once.rows, entries)| == |Plan(t.rows, entries)|
  {
    var plan := Plan(t.rows, entries);
    PlanIsCompatible(t.rows, entries);
    CompatibleWritesKeepConstraints(t, plan, now, |plan|);
    assert plan[..|plan|] == plan;
    forall i | 0 <= i < |entries| && Usable(entries[i]) ensures Stored(once.rows, entries[i]) {
      var pk := EntryIsStored(t, entries, now, entries[i]);
      assert StoredAt(once.rows, entries[i], pk);
    }
    forall i, j | 0 <= i < j < |entries| && Usable(entries[i]) && Usable(entries[j])
      ensures Guid(entries[i]) != Guid(entries[j]) && Url(entries[i]) != Url(entries[j])
    {
      assert !Clash(t.rows, entries[i], entries[j]);
    }
    StoredEntriesPlanIdly(once.rows, entries);
    PlanIsCompatible(once.rows, entries);
    SameDraftCount(t.rows, once.rows, entries, |entries|);
    assert |multiset(plan)| == |plan|;
    assert |multiset(Plan(once.rows, entries))| == |Plan(once.rows, entries)|;
    assert |multiset(Drafts(t.rows, entries, |entries|))| == |Drafts(t.rows, entries, |entries|)|;
    assert |multiset(Drafts(once.rows, entries, |entries|))| == |Drafts(once.rows, entries, |entries|)|;
  }

  /** The rows of undated entries are dated `later`, and nothing else differs. */
  ghost predicate OnlyRedated(once: Table, again: Table, entries: seq<Entry>, later: int) {
    && again.nextPk == once.nextPk
    && again.rows.Keys == once.rows.Keys
    && forall pk :: pk in once.rows ==>
                      again.rows[pk] == (if HoldsUndated(once.rows, entries, pk)
                                         then once.rows[pk].(publishedAt := later)
                                         else once.rows[pk])
  }

  /** Main result on replays: applying a document that was just applied succeeds, creates nothing
      and updates every usable entry in place; the rows of undated entries move to the new time of
      publication, and nothing else changes. */
  lemma ReplayOnlyRedates(t: Table, entries: seq<Entry>, now: int, once: Table, later: int)
    requires Valid(t) && Reconcile(t, entries, now) == Some(once)
    ensures Reconcile(once, entries, later).Some?
    ensures OnlyRedated(once, Reconcile(once, entries, later).value, entries, later)
    ensures Creations(Plan(once.rows, entries)) == 0
    ensures |Plan(once.rows, entries)| == |Plan(t.rows, entries)|
  {
    var plan := Plan(once.rows, entries);
    AppliedEntriesAreStored(t, entries, now, once);
    PlanIsCompatible(once.rows, entries);
    forall i, j | 0 <= i < j < |plan| ensures plan[i].target != plan[j].target {
      assert Apart(plan[i], plan[j]) && Idle(once.rows, plan[i]);
    }
    IdleWritesOnlyRedate(once, plan, later);
    forall pk | pk in once.rows ensures RedatedBy(plan, pk) <==> HoldsUndated(once.rows, entries, pk) {
      if RedatedBy(plan, pk) {
        RedatedRowHoldsUndated(once.rows, entries, pk);
      }
      if HoldsUndated(once.rows, entries, pk) {
        UndatedRowIsRedated(once.rows, entries, pk);
      }
    }
  }

  /** A document whose usable entries all give dates replays to the identity. */
  lemma DatedReplayIsIdentity(t: Table, entries: seq<Entry>, now: int, once: Table, later: int)
    requires Valid(t) && Reconcile(t, entries, now) == Some(once)
    requires forall i :: 0 <= i < |entries| && Usable(entries[i]) ==> entries[i].publishedAt.Some?
    ensures Reconcile(once, entries, later) == Some(once)
  {
    ReplayOnlyRedates(t, entries, now, once, later);
    assert Reconcile(once, entries, later).value.rows == once.rows;
  }

  lemma {:induction false} SameDraftCount(rows: Rows, rows': Rows, entries: seq<Entry>, n: nat)
    requires n <= |entries|
    ensures |Drafts(rows, entries, n)| == |Drafts(rows', entries, n)|
  {
    if n > 0 {
      SameDraftCount(rows, rows', entries, n - 1);
    }
  }
}
