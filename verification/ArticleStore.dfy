/** The reconciliation code itself: the planning loop with its reserved sets, and
    the row-by-row writer, each proved against the specification in Reconciliation. */
module ArticleStore {
  import opened Common
  import opened Reconciliation

  /** What the loop's three reserved sets hold after some drafts. */
  datatype Reserved = Reserved(guids: set<string>, urls: set<string>, articles: set<nat>)

  ghost function Reservations(ws: seq<Write>): Reserved {
    if ws == [] then Reserved({}, {}, {})
    else
      var r, w := Reservations(ws[..|ws| - 1]), ws[|ws| - 1];
      Reserved(r.guids + {w.guid}, r.urls + {w.url}, r.articles + (if w.target.Some? then {w.target.value} else {}))
  }

  lemma ReservationsGrow(ws: seq<Write>, w: Write)
    ensures var r := Reservations(ws);
            Reservations(ws + [w]) ==
            Reserved(r.guids + {w.guid}, r.urls + {w.url},
                     if w.target.Some? then r.articles + {w.target.value} else r.articles)
  {
    assert (ws + [w])[..|ws|] == ws;
    assert Reservations(ws).articles + {} == Reservations(ws).articles;
  }

  lemma {:induction false} ReservedByDraft(ws: seq<Write>, guid: string, url: string, article: Option<nat>)
    ensures (guid in Reservations(ws).guids || url in Reservations(ws).urls
             || (article.Some? && article.value in Reservations(ws).articles)) <==>
            exists k :: 0 <= k < |ws| &&
              (ws[k].guid == guid || ws[k].url == url || (article.Some? && ws[k].target == article))
  {
    if ws != [] {
      ReservedByDraft(ws[..|ws| - 1], guid, url, article);
      assert forall k :: 0 <= k < |ws| - 1 ==> ws[..|ws| - 1][k] == ws[k];
    }
  }

  ghost predicate IsGuidIndex(rows: Rows, m: map<string, nat>) {
    && (forall g :: g in m ==> m[g] in rows && rows[m[g]].guid == g)
    && (forall pk :: pk in rows ==> rows[pk].guid in m && m[rows[pk].guid] == pk)
  }

  ghost predicate IsUrlIndex(rows: Rows, m: map<string, nat>) {
    && (forall u :: u in m ==> m[u] in rows && rows[m[u]].url == u)
    && (forall pk :: pk in rows ==> rows[pk].url in m && m[rows[pk].url] == pk)
  }

  function ByGuid(rows: Rows): (m: map<string, nat>)
    requires Unique(rows)
    ensures IsGuidIndex(rows, m)
  {
    map pk | pk in rows :: rows[pk].guid := pk
  }

  function ByUrl(rows: Rows): (m: map<string, nat>)
    requires Unique(rows)
    ensures IsUrlIndex(rows, m)
  {
    map pk | pk in rows :: rows[pk].url := pk
  }

  /** The guid and url lookups of one entry. They disagree exactly when the entry is
      split, and otherwise yield the one article the entry stands for. */
  method MatchEntry(rows: Rows, byGuid: map<string, nat>, byUrl: map<string, nat>, entry: Entry)
    returns (split: bool, article: Option<nat>)
    requires IsGuidIndex(rows, byGuid) && IsUrlIndex(rows, byUrl)
    ensures split <==> Split(rows, entry)
    ensures !split ==> article == Target(rows, Guid(entry), Url(entry))
  {
    var guid, url := Guid(entry), Url(entry);
    var guidMatch: Option<nat> := if guid in byGuid then Some(byGuid[guid]) else None;
    var urlMatch: Option<nat> := if url in byUrl then Some(byUrl[url]) else None;
    forall p: nat | Touches(rows, guid, url, p) ensures guidMatch == Some(p) || urlMatch == Some(p) {
      assert rows[p].guid in byGuid && rows[p].url in byUrl;
    }
    assert guidMatch.Some? ==> Touches(rows, guid, url, guidMatch.value);
    assert urlMatch.Some? ==> Touches(rows, guid, url, urlMatch.value);
    if guidMatch.Some? && urlMatch.Some? && guidMatch.value != urlMatch.value {
      return true, None;
    }
    return false, if guidMatch.Some? then guidMatch else urlMatch;
  }

  /** `_plan_article_reconciliation`, returning None where the source raises. The plan
      is refused exactly when the document conflicts with the snapshot, a condition
      that mentions neither the loop nor its reserved sets. */
  method PlanArticleReconciliation(rows: Rows, entries: seq<Entry>) returns (plan: Option<seq<Write>>)
    requires Unique(rows)
    ensures plan.None? <==> Conflict(rows, entries)
    ensures plan.Some? ==> plan.value == Plan(rows, entries)
  {
    var byGuid, byUrl := ByGuid(rows), ByUrl(rows);
    var reservedGuids: set<string>, reservedUrls: set<string>, reservedArticles: set<nat> := {}, {}, {};
    var writes: seq<Write> := [];
    for n := 0 to |entries|
      invariant writes == Drafts(rows, entries, n)
      invariant !Conflict(rows, entries[..n])
      invariant Reserved(reservedGuids, reservedUrls, reservedArticles) == Reservations(writes)
    {
      var entry := entries[n];
      var url := Url(entry);
      if url == "" {
        UnusableEntryIsClean(rows, entries, n);
        continue;
      }
      var guid := Guid(entry);
      var split, article := MatchEntry(rows, byGuid, byUrl, entry);
      if split {
        return None;
      }
      if guid in reservedGuids || url in reservedUrls {
        ReservationConflicts(rows, entries, n);
        return None;
      }
      if article.Some? {
        var articleId := article.value;
        if articleId in reservedArticles {
          ReservationConflicts(rows, entries, n);
          return None;
        }
        reservedArticles := reservedArticles + {articleId};
      }
      NextEntryIsClean(rows, entries, n);
      reservedGuids := reservedGuids + {guid};
      reservedUrls := reservedUrls + {url};
      var write := Write(n, article, guid, url, ContentOf(entry), entry.publishedAt);
      ReservationsGrow(writes, write);
      writes := writes + [write];
    }
    assert entries[..|entries|] == entries;
    return Some(Sort(Before, writes));
  }

  /** The entry's guid, url or article was reserved by an earlier entry. */
  ghost predicate MeetsReservation(rows: Rows, entries: seq<Entry>, n: nat)
    requires n < |entries|
  {
    var reserved := Reservations(Drafts(rows, entries, n));
    var target := Target(rows, Guid(entries[n]), Url(entries[n]));
    || Guid(entries[n]) in reserved.guids
    || Url(entries[n]) in reserved.urls
    || (target.Some? && target.value in reserved.articles)
  }

  lemma ReservationConflicts(rows: Rows, entries: seq<Entry>, n: nat)
    requires n < |entries| && Usable(entries[n]) && MeetsReservation(rows, entries, n)
    ensures Conflict(rows, entries)
  {
    var drafts, target := Drafts(rows, entries, n), Target(rows, Guid(entries[n]), Url(entries[n]));
    ReservedByDraft(drafts, Guid(entries[n]), Url(entries[n]), target);
    var k :| 0 <= k < |drafts| && (drafts[k].guid == Guid(entries[n]) || drafts[k].url == Url(entries[n])
                                   || (target.Some? && drafts[k].target == target));
    DraftComesFromEntry(rows, entries, n, k);
    assert Clash(rows, entries[drafts[k].position], entries[n]);
  }

  lemma UnusableEntryIsClean(rows: Rows, entries: seq<Entry>, n: nat)
    requires n < |entries| && !Usable(entries[n])
    requires !Conflict(rows, entries[..n])
    ensures !Conflict(rows, entries[..n + 1])
  {
    assert entries[..n + 1] == entries[..n] + [entries[n]];
  }

  /** When no reservation is met, the entry clashes with none of the earlier ones. */
  lemma NextEntryIsClean(rows: Rows, entries: seq<Entry>, n: nat)
    requires n < |entries| && Usable(entries[n]) && !Split(rows, entries[n])
    requires !Conflict(rows, entries[..n])
    requires !MeetsReservation(rows, entries, n)
    ensures !Conflict(rows, entries[..n + 1])
  {
    var f := entries[n];
    assert entries[..n + 1] == entries[..n] + [f];
    ReservedByDraft(Drafts(rows, entries, n), Guid(f), Url(f), Target(rows, Guid(f), Url(f)));
    forall i | 0 <= i < n && Usable(entries[i]) ensures !Clash(rows, entries[i], f) {
      var e := entries[..n][i];
      EntryHasDraft(rows, entries, n, i);
      assert !Split(rows, e);
      forall p: nat | Touches(rows, Guid(e), Url(e), p) ensures !Touches(rows, Guid(f), Url(f), p) {
        assert Target(rows, Guid(e), Url(e)) == Some(p);
      }
    }
  }

  /** The article rows of one feed as the database holds them. `Create` and `Save`
      demand that the two unique constraints still hold after the write, so a verified
      caller never meets the database's IntegrityError. */
  class Articles {
    var rows: Rows
    var nextPk: nat

    function State(): Table
      reads this
    {
      Table(rows, nextPk)
    }

    constructor ()
      ensures State() == Table(map[], 0)
    {
      rows, nextPk := map[], 0;
    }

    method Create(guid: string, url: string, content: Content, publishedAt: int, now: int)
      requires Unique(rows[nextPk := Article(guid, url, content, publishedAt, now)])
      modifies this
      ensures State() == Table(old(rows)[old(nextPk) := Article(guid, url, content, publishedAt, now)], old(nextPk) + 1)
    {
      rows := rows[nextPk := Article(guid, url, content, publishedAt, now)];
      nextPk := nextPk + 1;
    }

    method Save(pk: nat, article: Article)
      requires pk in rows && Unique(rows[pk := article])
      modifies this`rows
      ensures rows == old(rows)[pk := article]
    {
      rows := rows[pk := article];
    }

    /** `_apply_article_reconciliation`. */
    method ApplyArticleReconciliation(writes: seq<Write>, now: int) returns (created: nat, updated: nat)
      requires Valid(State()) && Compatible(rows, writes)
      modifies this
      ensures State() == ApplyAll(old(State()), writes, now)
      ensures Valid(State())
      ensures created == Creations(writes) && updated == |writes| - Creations(writes)
    {
      created, updated := 0, 0;
      ghost var before := State();
      for n := 0 to |writes|
        invariant State() == ApplyAll(before, writes[..n], now)
        invariant Valid(State()) && Compatible(rows, writes[n..])
        invariant created == Creations(writes[..n]) && created + updated == n
      {
        var write := writes[n];
        ApplyExtends(before, writes[..n], write, now);
        assert writes[..n + 1] == writes[..n] + [write];
        assert writes[n..][0] == write && writes[n..][1..] == writes[n + 1..];
        WriteKeepsConstraints(State(), writes[n..], now);
        if write.target.None? {
          Create(write.guid, write.url, write.content, When(write.published, now), now);
          created := created + 1;
          continue;
        }
        assert Fits(rows, write);
        var article := rows[write.target.value];
        Save(write.target.value, article.(guid := write.guid, url := write.url, content := write.content,
                                          publishedAt := When(write.published, now)));
        updated := updated + 1;
      }
      assert writes[..|writes|] == writes;
    }

    /** Plan and apply one document, as the commit of a refresh does. */
    method ReconcileDocument(entries: seq<Entry>, now: int) returns (counts: Option<(nat, nat)>)
      requires Valid(State())
      modifies this
      ensures Valid(State())
      ensures counts.None? ==> Reconcile(old(State()), entries, now).None? && State() == old(State())
      ensures counts.Some? ==> Reconcile(old(State()), entries, now) == Some(State())
      ensures counts.Some? ==> counts.value.0 == |rows| - |old(rows)|
      ensures counts.Some? ==> counts.value.0 + counts.value.1 == |Plan(old(rows), entries)|
    {
      var plan := PlanArticleReconciliation(rows, entries);
      if plan.None? {
        return None;
      }
      PlanIsCompatible(rows, entries);
      CompatibleWritesKeepConstraints(State(), plan.value, now, |plan.value|);
      assert plan.value[..|plan.value|] == plan.value;
      var created, updated := ApplyArticleReconciliation(plan.value, now);
      return Some((created, updated));
    }
  }

  lemma {:induction false} ApplyExtends(t: Table, ws: seq<Write>, w: Write, now: int)
    ensures ApplyAll(t, ws + [w], now) == ApplyOne(ApplyAll(t, ws, now), w, now)
    ensures Creations(ws + [w]) == Creations(ws) + (if w.target.None? then 1 else 0)
    decreases |ws|
  {
    if ws == [] {
      assert [w][1..] == [] && [] + [w] == [w];
    } else {
      assert (ws + [w])[1..] == ws[1..] + [w];
      ApplyExtends(ApplyOne(t, ws[0], now), ws[1..], w, now);
    }
  }
}
