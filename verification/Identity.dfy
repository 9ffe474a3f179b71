/** Which stored article an entry stands for, by the fields its feed gives. */
module Identity {
  import opened Common
  import opened Reconciliation

  predicate HtmlAlternate(l: Link) { l.href != "" && l.rel == "alternate" && l.mediaType == "text/html" }

  predicate FirstAlternate(links: seq<Link>, k: nat) {
    k < |links| && HtmlAlternate(links[k]) && forall j :: 0 <= j < k ==> !HtmlAlternate(links[j])
  }

  /** An entry's address is its first HTML alternate, or else its link, or else its id. */
  ghost predicate AddressIs(e: Entry, address: string) {
    if exists k :: 0 <= k < |e.links| && HtmlAlternate(e.links[k])
    then exists k: nat :: FirstAlternate(e.links, k) && address == e.links[k].href
    else address == if e.link != "" then e.link else e.id
  }

  /** An entry is known by its id, or by its address when it gives no id. Entries with no address
      have no identity. */
  ghost predicate Identifies(e: Entry, guid: string, address: string) {
    AddressIs(e, address) && address != "" && guid == if e.id != "" then e.id else address
  }

  lemma {:induction false} AlternateIsFirst(links: seq<Link>)
    ensures if exists k :: 0 <= k < |links| && HtmlAlternate(links[k])
            then exists k: nat :: FirstAlternate(links, k) && AlternateHref(links) == links[k].href
            else AlternateHref(links) == ""
  {
    if links != [] {
      if HtmlAlternate(links[0]) {
        assert FirstAlternate(links, 0);
      } else {
        var rest := links[1..];
        AlternateIsFirst(rest);
        if k :| 0 <= k < |links| && HtmlAlternate(links[k]) {
          assert HtmlAlternate(rest[k - 1]);
          var j: nat :| FirstAlternate(rest, j) && AlternateHref(rest) == rest[j].href;
          forall i | 0 <= i < j + 1 ensures !HtmlAlternate(links[i]) {
            assert i > 0 ==> links[i] == rest[i - 1];
          }
          assert FirstAlternate(links, j + 1);
        } else {
          assert forall k :: 0 <= k < |rest| ==> rest[k] == links[k + 1];
        }
      }
    }
  }

  lemma IdentityIsGuidAndUrl(e: Entry, guid: string, address: string)
    ensures AddressIs(e, address) <==> address == Url(e)
    ensures Identifies(e, guid, address) <==> Usable(e) && guid == Guid(e) && address == Url(e)
  {
    AlternateIsFirst(e.links);
    forall j: nat, k: nat | FirstAlternate(e.links, j) && FirstAlternate(e.links, k) ensures j == k {
      assert j < k || k < j || j == k;
    }
  }

  /** Row `a` is what the entry asks for, under this identity and these two times. */
  predicate Reads(a: Article, e: Entry, guid: string, address: string, now: int, fetchedAt: int) {
    && a.guid == guid && a.url == address
    && a.content == Content(if e.title != "" then e.title else address, e.author, e.summary)
    && a.publishedAt == (if e.publishedAt.Some? then e.publishedAt.value else now)
    && a.fetchedAt == fetchedAt
  }

  /** A stored article with this id or this address. */
  predicate Bears(rows: Rows, pk: nat, guid: string, address: string) {
    pk in rows && (rows[pk].guid == guid || rows[pk].url == address)
  }

  // ----- where each write lands -----

  lemma {:induction false} UpdateLandsOnTarget(t: Table, ws: seq<Write>, now: int, k: nat)
    requires Valid(t) && Compatible(t.rows, ws) && k < |ws| && ws[k].target.Some?
    ensures ws[k].target.value in t.rows && ws[k].target.value in ApplyAll(t, ws, now).rows
    ensures var w, pk := ws[k], ws[k].target.value;
      ApplyAll(t, ws, now).rows[pk] ==
      Article(w.guid, w.url, w.content, When(w.published, now), t.rows[pk].fetchedAt)
    decreases |ws|
  {
    WriteKeepsConstraints(t, ws, now);
    assert Fits(t.rows, ws[k]);
    if k > 0 {
      assert Apart(ws[0], ws[k]);
      UpdateLandsOnTarget(ApplyOne(t, ws[0], now), ws[1..], now, k - 1);
    } else {
      OthersTargetElsewhere(ws);
      UntouchedRowStays(ApplyOne(t, ws[0], now), ws[1..], now, ws[0].target.value);
    }
  }

  lemma OthersTargetElsewhere(ws: seq<Write>)
    requires ws != [] && ws[0].target.Some? && forall i, j :: 0 <= i < j < |ws| ==> Apart(ws[i], ws[j])
    ensures forall i :: 0 <= i < |ws[1..]| ==> ws[1..][i].target != ws[0].target
  {
    forall i | 0 <= i < |ws[1..]| ensures ws[1..][i].target != ws[0].target {
      assert Apart(ws[0], ws[i + 1]);
    }
  }

  predicate Creates(w: Write, a: Article, now: int) {
    w.target.None? && a == Article(w.guid, w.url, w.content, When(w.published, now), now)
  }

  lemma {:induction false} CreationLandsOnNewKey(t: Table, ws: seq<Write>, now: int, k: nat) returns (pk: nat)
    requires Valid(t) && Compatible(t.rows, ws) && k < |ws| && ws[k].target.None?
    ensures pk !in t.rows && pk in ApplyAll(t, ws, now).rows
    ensures Creates(ws[k], ApplyAll(t, ws, now).rows[pk], now)
    decreases |ws|
  {
    WriteKeepsConstraints(t, ws, now);
    var t' := ApplyOne(t, ws[0], now);
    assert Fits(t.rows, ws[0]);
    if k > 0 {
      pk := CreationLandsOnNewKey(t', ws[1..], now, k - 1);
    } else {
      pk := t.nextPk;
      forall i | 0 <= i < |ws[1..]| ensures ws[1..][i].target != Some(pk) {
        assert Fits(t.rows, ws[i + 1]);
      }
      UntouchedRowStays(t', ws[1..], now, pk);
    }
  }

  lemma {:induction false} NewRowsAreCreations(t: Table, ws: seq<Write>, now: int, pk: nat)
    requires Valid(t) && Compatible(t.rows, ws)
    requires pk in ApplyAll(t, ws, now).rows && pk !in t.rows
    ensures exists k :: 0 <= k < |ws| && Creates(ws[k], ApplyAll(t, ws, now).rows[pk], now)
    decreases |ws|
  {
    WriteKeepsConstraints(t, ws, now);
    var t' := ApplyOne(t, ws[0], now);
    assert Fits(t.rows, ws[0]);
    if pk in t'.rows {
      forall i | 0 <= i < |ws[1..]| ensures ws[1..][i].target != Some(pk) {
        assert Fits(t.rows, ws[i + 1]);
      }
      UntouchedRowStays(t', ws[1..], now, pk);
    } else {
      NewRowsAreCreations(t', ws[1..], now, pk);
      var k :| 0 <= k < |ws[1..]| && Creates(ws[1..][k], ApplyAll(t, ws, now).rows[pk], now);
      assert ws[k + 1] == ws[1..][k];
    }
  }

  /** The write planned for an entry, and its place in the plan. */
  lemma EntryHasPlannedWrite(t: Table, entries: seq<Entry>, e: Entry) returns (k: nat)
    requires Valid(t) && !Conflict(t.rows, entries) && e in entries && Usable(e)
    ensures k < |Plan(t.rows, entries)|
    ensures var w := Plan(t.rows, entries)[k];
      && w.target == Target(t.rows, Guid(e), Url(e)) && w.guid == Guid(e) && w.url == Url(e)
      && w.content == ContentOf(e) && w.published == e.publishedAt
  {
    var plan := Plan(t.rows, entries);
    PlanIsCompatible(t.rows, entries);
    var i :| 0 <= i < |entries| && entries[i] == e;
    EntryHasDraft(t.rows, entries, |entries|, i);
    assert WriteFor(t.rows, i, e) in multiset(plan);
    k :| 0 <= k < |plan| && plan[k] == WriteFor(t.rows, i, e);
  }

  lemma PlannedWriteHasEntry(t: Table, entries: seq<Entry>, k: nat) returns (e: Entry)
    requires Valid(t) && !Conflict(t.rows, entries) && k < |Plan(t.rows, entries)|
    ensures e in entries && Usable(e)
    ensures var w := Plan(t.rows, entries)[k];
      && w.target == Target(t.rows, Guid(e), Url(e)) && w.guid == Guid(e) && w.url == Url(e)
      && w.content == ContentOf(e) && w.published == e.publishedAt
  {
    var drafts, w := Drafts(t.rows, entries, |entries|), Plan(t.rows, entries)[k];
    PlanIsCompatible(t.rows, entries);
    assert w in multiset(Plan(t.rows, entries));
    assert w in multiset(drafts);
    var j :| 0 <= j < |drafts| && drafts[j] == w;
    DraftComesFromEntry(t.rows, entries, |entries|, j);
    e := entries[w.position];
  }

  // ----- what a document does, entry by entry -----

  /** Main result on identity: an entry known by its id or its address updates that article in
      place, however its id and address have moved, and keeps when it was fetched; afterwards no
      other article has its id or its address. */
  lemma KnownEntryUpdatesItsArticle(t: Table, entries: seq<Entry>, now: int, after: Table, e: Entry, guid: string,
                                    address: string, pk: nat)
    requires Valid(t) && Reconcile(t, entries, now) == Some(after)
    requires e in entries && Identifies(e, guid, address) && Bears(t.rows, pk, guid, address)
    ensures pk in after.rows && Reads(after.rows[pk], e, guid, address, now, t.rows[pk].fetchedAt)
    ensures forall q :: Bears(after.rows, q, guid, address) ==> q == pk
  {
    IdentityIsGuidAndUrl(e, guid, address);
    PlanIsCompatible(t.rows, entries);
    var plan := Plan(t.rows, entries);
    var k := EntryHasPlannedWrite(t, entries, e);
    assert Touches(t.rows, Guid(e), Url(e), pk);
    assert !Split(t.rows, e);
    UpdateLandsOnTarget(t, plan, now, k);
    CompatibleWritesKeepConstraints(t, plan, now, |plan|);
    assert plan[..|plan|] == plan;
  }

  /** An entry known by neither is added, with a new key and fetched now. */
  lemma UnknownEntryIsAdded(t: Table, entries: seq<Entry>, now: int, after: Table, e: Entry, guid: string,
                            address: string) returns (pk: nat)
    requires Valid(t) && Reconcile(t, entries, now) == Some(after)
    requires e in entries && Identifies(e, guid, address) && forall q :: !Bears(t.rows, q, guid, address)
    ensures pk !in t.rows && pk in after.rows && Reads(after.rows[pk], e, guid, address, now, now)
    ensures forall q :: Bears(after.rows, q, guid, address) ==> q == pk
  {
    IdentityIsGuidAndUrl(e, guid, address);
    PlanIsCompatible(t.rows, entries);
    var plan := Plan(t.rows, entries);
    var k := EntryHasPlannedWrite(t, entries, e);
    if plan[k].target.Some? {
      assert Bears(t.rows, plan[k].target.value, guid, address);
    }
    pk := CreationLandsOnNewKey(t, plan, now, k);
    CompatibleWritesKeepConstraints(t, plan, now, |plan|);
    assert plan[..|plan|] == plan;
  }

  /** A stored article that no entry identifies stays exactly as it was. */
  lemma OtherArticlesStay(t: Table, entries: seq<Entry>, now: int, after: Table, pk: nat)
    requires Valid(t) && Reconcile(t, entries, now) == Some(after) && pk in t.rows
    requires forall e, guid, address :: e in entries && Identifies(e, guid, address) ==>
                                          !Bears(t.rows, pk, guid, address)
    ensures pk in after.rows && after.rows[pk] == t.rows[pk]
  {
    var plan := Plan(t.rows, entries);
    PlanIsCompatible(t.rows, entries);
    forall k | 0 <= k < |plan| ensures plan[k].target != Some(pk) {
      var e := PlannedWriteHasEntry(t, entries, k);
      IdentityIsGuidAndUrl(e, Guid(e), Url(e));
      assert !Bears(t.rows, pk, Guid(e), Url(e));
    }
    UntouchedRowStays(t, plan, now, pk);
  }

  /** And nothing appears that no entry asked for. */
  lemma NothingElseAppears(t: Table, entries: seq<Entry>, now: int, after: Table, pk: nat)
    requires Valid(t) && Reconcile(t, entries, now) == Some(after) && pk in after.rows && pk !in t.rows
    ensures exists e, guid, address :: e in entries && Identifies(e, guid, address) &&
              Reads(after.rows[pk], e, guid, address, now, now) && forall q :: !Bears(t.rows, q, guid, address)
  {
    var plan := Plan(t.rows, entries);
    PlanIsCompatible(t.rows, entries);
    NewRowsAreCreations(t, plan, now, pk);
    var k :| 0 <= k < |plan| && Creates(plan[k], after.rows[pk], now);
    var e := PlannedWriteHasEntry(t, entries, k);
    IdentityIsGuidAndUrl(e, Guid(e), Url(e));
    forall q: nat ensures !Bears(t.rows, q, Guid(e), Url(e)) {
      assert !Touches(t.rows, Guid(e), Url(e), q);
    }
    assert Reads(after.rows[pk], e, Guid(e), Url(e), now, now);
  }

  // ----- when a document is refused -----

  /** The id and the address of an entry belong to two stored articles. */
  ghost predicate PulledApart(rows: Rows, e: Entry) {
    exists guid, address, p, q :: Identifies(e, guid, address) && p != q && Bears(rows, p, guid, address) &&
                                  Bears(rows, q, guid, address)
  }

  /** Two entries share an id, an address, or a stored article. */
  ghost predicate Compete(rows: Rows, e: Entry, f: Entry) {
    exists g, a, h, b :: Identifies(e, g, a) && Identifies(f, h, b) && Share(rows, g, a, h, b)
  }

  ghost predicate Share(rows: Rows, g: string, a: string, h: string, b: string) {
    g == h || a == b || exists p :: Bears(rows, p, g, a) && Bears(rows, p, h, b)
  }

  lemma PulledApartIsSplit(rows: Rows, e: Entry)
    ensures PulledApart(rows, e) <==> Usable(e) && Split(rows, e)
  {
    if g, a, p, q :| Identifies(e, g, a) && p != q && Bears(rows, p, g, a) && Bears(rows, q, g, a) {
      IdentityIsGuidAndUrl(e, g, a);
      assert Touches(rows, Guid(e), Url(e), p) && Touches(rows, Guid(e), Url(e), q);
    }
    if Usable(e) && Split(rows, e) {
      IdentityIsGuidAndUrl(e, Guid(e), Url(e));
      var p, q :| p != q && Touches(rows, Guid(e), Url(e), p) && Touches(rows, Guid(e), Url(e), q);
      assert Bears(rows, p, Guid(e), Url(e)) && Bears(rows, q, Guid(e), Url(e));
    }
  }

  lemma CompeteIsClash(rows: Rows, e: Entry, f: Entry)
    ensures Compete(rows, e, f) <==> Usable(e) && Usable(f) && Clash(rows, e, f)
  {
    assert forall p, g, a :: Bears(rows, p, g, a) <==> Touches(rows, g, a, p);
    if g, a, h, b :| Identifies(e, g, a) && Identifies(f, h, b) && Share(rows, g, a, h, b) {
      IdentityIsGuidAndUrl(e, g, a);
      IdentityIsGuidAndUrl(f, h, b);
    }
    if Usable(e) && Usable(f) && Clash(rows, e, f) {
      IdentityIsGuidAndUrl(e, Guid(e), Url(e));
      IdentityIsGuidAndUrl(f, Guid(f), Url(f));
      assert Share(rows, Guid(e), Url(e), Guid(f), Url(f));
    }
  }

  /** A document is refused exactly when some entry is pulled apart or two compete. */
  lemma RefusedIff(t: Table, entries: seq<Entry>, now: int)
    ensures Reconcile(t, entries, now).None? <==>
            || (exists i :: 0 <= i < |entries| && PulledApart(t.rows, entries[i]))
            || (exists i, j :: 0 <= i < j < |entries| && Compete(t.rows, entries[i], entries[j]))
  {
    forall i | 0 <= i < |entries|
      ensures PulledApart(t.rows, entries[i]) <==> Usable(entries[i]) && Split(t.rows, entries[i])
    {
      PulledApartIsSplit(t.rows, entries[i]);
    }
    forall i, j | 0 <= i < j < |entries|
      ensures Compete(t.rows, entries[i], entries[j]) <==>
              Usable(entries[i]) && Usable(entries[j]) && Clash(t.rows, entries[i], entries[j])
    {
      CompeteIsClash(t.rows, entries[i], entries[j]);
    }
  }

  // ----- the order of the writes -----

  /** A plan updates before it creates: updates by primary key, creations by id. */
  lemma PlanOrder(t: Table, entries: seq<Entry>, i: nat, j: nat)
    requires Valid(t) && !Conflict(t.rows, entries) && i < j < |Plan(t.rows, entries)|
    ensures var v, w := Plan(t.rows, entries)[i], Plan(t.rows, entries)[j];
      if w.target.Some? then v.target.Some? && v.target.value < w.target.value
      else v.target.Some? || StringLess(v.guid, w.guid)
  {
    PlanIsCompatible(t.rows, entries);
    PlanIsStrictlyOrdered(t.rows, entries);
    var plan := Plan(t.rows, entries);
    assert Apart(plan[i], plan[j]);
    assert Before(UnplacedAll(plan)[i], UnplacedAll(plan)[j]);
    assert UnplacedAll(plan)[i] == Unplaced(plan[i]) && UnplacedAll(plan)[j] == Unplaced(plan[j]);
  }
}
