/** Diversified selection: rank the candidates, drop duplicates, then pick greedily against what
    is already chosen. Scores and similarities are given reals. */
module Diversify {
  import opened Common

  /** A candidate article; `url` and `title` are the canonical ones. */
  datatype Candidate = Candidate(id: int, feed: int, category: Option<int>, url: string, title: string, score: real)

  const RERANK_POOL_SIZE: nat := 500
  const LONG_TITLE := 20

  // ----- ranking -----

  predicate TieBreak(a: Candidate, b: Candidate) {
    StringLess(a.title, b.title) ||
    (a.title == b.title && (StringLess(a.url, b.url) || (a.url == b.url && a.id < b.id)))
  }

  /** The sort key `(-score, title, url, id)`. */
  predicate RanksBefore(a: Candidate, b: Candidate) {
    a.score > b.score || (a.score == b.score && TieBreak(a, b))
  }

  lemma RankIsStrict(a: Candidate, b: Candidate)
    ensures RanksBefore(a, b) ==> !RanksBefore(b, a)
    ensures a.id != b.id ==> RanksBefore(a, b) || RanksBefore(b, a)
    ensures !RanksBefore(a, b) && !RanksBefore(b, a) ==>
        a.score == b.score && a.title == b.title && a.url == b.url && a.id == b.id
  {
    StringLessIsStrict(a.title, b.title);
    StringLessIsStrict(b.title, a.title);
    StringLessIsStrict(a.url, b.url);
    StringLessIsStrict(b.url, a.url);
  }

  lemma RankIsTransitive(a: Candidate, b: Candidate, c: Candidate)
    requires RanksBefore(a, b) && RanksBefore(b, c)
    ensures RanksBefore(a, c)
  {
    if StringLess(a.title, b.title) && StringLess(b.title, c.title) {
      StringLessIsTransitive(a.title, b.title, c.title);
    }
    if StringLess(a.url, b.url) && StringLess(b.url, c.url) {
      StringLessIsTransitive(a.url, b.url, c.url);
    }
  }

  lemma RankIsWeakOrder()
    ensures WeakOrder(RanksBefore)
  {
    forall x, y ensures RanksBefore(x, y) ==> !RanksBefore(y, x) {
      RankIsStrict(x, y);
    }
    forall x, y, z | !RanksBefore(y, x) && !RanksBefore(z, y) ensures !RanksBefore(z, x) {
      RankIsStrict(x, y);
      RankIsStrict(y, z);
      RankIsStrict(x, z);
      if RanksBefore(x, y) && RanksBefore(y, z) {
        RankIsTransitive(x, y, z);
      }
    }
  }

  function Ranked(candidates: seq<Candidate>): seq<Candidate> { Sort(RanksBefore, candidates) }

  ghost predicate DistinctIds(candidates: seq<Candidate>) {
    forall i, j :: 0 <= i < j < |candidates| ==> candidates[i].id != candidates[j].id
  }

  /** The ranking is the candidates themselves, strictly best first. */
  lemma RankedIsStrict(candidates: seq<Candidate>)
    requires DistinctIds(candidates)
    ensures multiset(Ranked(candidates)) == multiset(candidates)
    ensures DistinctIds(Ranked(candidates))
    ensures forall i, j :: 0 <= i < j < |Ranked(candidates)| ==>
        RanksBefore(Ranked(candidates)[i], Ranked(candidates)[j])
  {
    var ranked := Ranked(candidates);
    RankIsWeakOrder();
    SortSorts(RanksBefore, candidates);
    PairwiseInAnyOrder((a: Candidate, b: Candidate) => a.id != b.id, candidates, ranked);
    forall i, j | 0 <= i < j < |ranked| ensures RanksBefore(ranked[i], ranked[j]) {
      RankIsStrict(ranked[i], ranked[j]);
    }
  }

  /** Better scores first; equal scores by title, then url, then id. */
  lemma RankOrder(candidates: seq<Candidate>, i: nat, j: nat)
    requires DistinctIds(candidates) && i < j < |candidates|
    ensures |Ranked(candidates)| == |candidates|
    ensures var a, b := Ranked(candidates)[i], Ranked(candidates)[j];
      if a.score != b.score then a.score > b.score
      else if a.title != b.title then StringLess(a.title, b.title)
      else if a.url != b.url then StringLess(a.url, b.url)
      else a.id < b.id
  {
    RankedIsStrict(candidates);
    assert |Ranked(candidates)| == |multiset(Ranked(candidates))| == |multiset(candidates)| == |candidates|;
    var a, b := Ranked(candidates)[i], Ranked(candidates)[j];
    StringLessIsStrict(a.title, b.title);
    StringLessIsStrict(a.url, b.url);
  }

  // ----- the pool -----

  predicate SameArticle(a: Candidate, b: Candidate) {
    a.url == b.url || (|b.title| >= LONG_TITLE && a.title == b.title)
  }

  predicate Repeats(pool: seq<Candidate>, c: Candidate) {
    exists i :: 0 <= i < |pool| && SameArticle(pool[i], c)
  }

  function PoolOf(ranked: seq<Candidate>): seq<Candidate> {
    if ranked == [] then []
    else
      var pool, c := PoolOf(ranked[..|ranked| - 1]), ranked[|ranked| - 1];
      if |pool| == RERANK_POOL_SIZE || Repeats(pool, c) then pool else pool + [c]
  }

  /** Where in the ranking each pool member comes from. */
  function Places(ranked: seq<Candidate>): (at: seq<nat>)
    ensures |at| == |PoolOf(ranked)|
  {
    if ranked == [] then []
    else
      var last := |ranked| - 1;
      var pool := PoolOf(ranked[..last]);
      if |pool| == RERANK_POOL_SIZE || Repeats(pool, ranked[last]) then Places(ranked[..last])
      else Places(ranked[..last]) + [last]
  }

  /** The pool keeps rank order, starts with the best candidate and holds no article twice. */
  lemma {:induction false} PoolHoldsEachArticleOnce(ranked: seq<Candidate>)
    ensures var pool, at := PoolOf(ranked), Places(ranked);
      && |pool| <= RERANK_POOL_SIZE
      && (forall i :: 0 <= i < |at| ==> at[i] < |ranked| && ranked[at[i]] == pool[i])
      && (forall i, j :: 0 <= i < j < |at| ==> at[i] < at[j])
      && (forall i, j :: 0 <= i < j < |pool| ==> !SameArticle(pool[i], pool[j]))
    ensures ranked != [] ==> PoolOf(ranked) != [] && PoolOf(ranked)[0] == ranked[0]
  {
    if ranked != [] {
      PoolHoldsEachArticleOnce(ranked[..|ranked| - 1]);
    }
  }

  /** No two pool members share a url, nor a title of 20 characters or more; short titles may repeat.
      The pool stops at 500. */
  lemma PoolLimits(ranked: seq<Candidate>, i: nat, j: nat)
    requires i < j < |PoolOf(ranked)|
    ensures |PoolOf(ranked)| <= 500
    ensures var a, b := PoolOf(ranked)[i], PoolOf(ranked)[j];
      a.url != b.url && (|b.title| >= 20 ==> a.title != b.title)
  {
    PoolHoldsEachArticleOnce(ranked);
  }

  /** Up to 500 candidates with urls of their own and short titles all make it into the pool. */
  lemma {:induction false} DistinctCandidatesAllFit(ranked: seq<Candidate>)
    requires |ranked| <= 500
    requires forall i, j :: 0 <= i < j < |ranked| ==>
        ranked[i].url != ranked[j].url && (ranked[i].title != ranked[j].title || |ranked[j].title| < 20)
    ensures PoolOf(ranked) == ranked
  {
    if ranked != [] {
      DistinctCandidatesAllFit(ranked[..|ranked| - 1]);
    }
  }

  /** Position `k` made it into the pool, or a better-ranked member is the same article. */
  ghost predicate Represented(ranked: seq<Candidate>, k: nat)
    requires k < |ranked|
  {
    exists i :: 0 <= i < |Places(ranked)| && RepresentedBy(ranked, k, i)
  }

  predicate RepresentedBy(ranked: seq<Candidate>, k: nat, i: nat)
    requires k < |ranked| && i < |Places(ranked)|
  {
    Places(ranked)[i] == k || (Places(ranked)[i] < k && SameArticle(PoolOf(ranked)[i], ranked[k]))
  }

  lemma StillRepresented(ranked: seq<Candidate>, k: nat)
    requires k < |ranked| - 1 && Represented(ranked[..|ranked| - 1], k)
    ensures Represented(ranked, k)
  {
    var shorter := ranked[..|ranked| - 1];
    var i :| 0 <= i < |Places(shorter)| && RepresentedBy(shorter, k, i);
    assert Places(ranked)[i] == Places(shorter)[i] && PoolOf(ranked)[i] == PoolOf(shorter)[i];
    assert RepresentedBy(ranked, k, i);
  }

  /** Until the pool is full nothing is dropped without a better copy being kept. */
  lemma {:induction false} DropsAreDuplicates(ranked: seq<Candidate>, k: nat)
    requires k < |ranked| && |PoolOf(ranked)| < RERANK_POOL_SIZE
    ensures Represented(ranked, k)
  {
    var last := |ranked| - 1;
    var pool, at := PoolOf(ranked[..last]), Places(ranked[..last]);
    PoolHoldsEachArticleOnce(ranked[..last]);
    if k < last {
      DropsAreDuplicates(ranked[..last], k);
      StillRepresented(ranked, k);
    } else if Repeats(pool, ranked[last]) {
      var i :| 0 <= i < |pool| && SameArticle(pool[i], ranked[last]);
      assert RepresentedBy(ranked, k, i);
    } else {
      assert RepresentedBy(ranked, k, |pool|);
    }
  }

  function Urls(pool: seq<Candidate>): set<string> {
    if pool == [] then {} else Urls(pool[..|pool| - 1]) + {pool[|pool| - 1].url}
  }

  function Titles(pool: seq<Candidate>): set<string> {
    if pool == [] then {} else Titles(pool[..|pool| - 1]) + {pool[|pool| - 1].title}
  }

  lemma {:induction false} SeenSetsDecideRepeats(pool: seq<Candidate>, c: Candidate)
    ensures Repeats(pool, c) <==> c.url in Urls(pool) || (|c.title| >= LONG_TITLE && c.title in Titles(pool))
  {
    if pool != [] {
      var rest := pool[..|pool| - 1];
      SeenSetsDecideRepeats(rest, c);
      if Repeats(rest, c) {
        var i :| 0 <= i < |rest| && SameArticle(rest[i], c);
        assert SameArticle(pool[i], c);
      }
      if i :| 0 <= i < |pool| && SameArticle(pool[i], c) {
        assert i < |rest| ==> SameArticle(rest[i], c);
      }
    }
  }

  method BuildPool(ranked: seq<Candidate>) returns (pool: seq<Candidate>)
    ensures pool == PoolOf(ranked)
  {
    pool := [];
    var seenUrls, seenTitles: set<string> := {}, {};
    var i := 0;
    while i < |ranked| && |pool| != RERANK_POOL_SIZE
      invariant 0 <= i <= |ranked|
      invariant pool == PoolOf(ranked[..i])
      invariant seenUrls == Urls(pool) && seenTitles == Titles(pool)
    {
      var c := ranked[i];
      assert ranked[..i + 1][..i] == ranked[..i];
      SeenSetsDecideRepeats(pool, c);
      if !(c.url in seenUrls || (|c.title| >= LONG_TITLE && c.title in seenTitles)) {
        assert (pool + [c])[..|pool|] == pool;
        seenUrls, seenTitles, pool := seenUrls + {c.url}, seenTitles + {c.title}, pool + [c];
      }
      i := i + 1;
    }
    FullPoolStays(ranked, i);
  }

  lemma {:induction false} FullPoolStays(ranked: seq<Candidate>, n: nat)
    requires n <= |ranked|
    requires n == |ranked| || |PoolOf(ranked[..n])| == RERANK_POOL_SIZE
    ensures PoolOf(ranked) == PoolOf(ranked[..n])
  {
    if n == |ranked| {
      assert ranked[..n] == ranked;
    } else {
      var last := |ranked| - 1;
      assert ranked[..last][..n] == ranked[..n];
      FullPoolStays(ranked[..last], n);
    }
  }
}
