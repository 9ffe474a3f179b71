/** The greedy selection over a deduplicated pool, one pick at a time. */
module Selection {
  import opened Common
  import opened Diversify

  /** Similarity of two articles, by id; rows of the feature matrix multiplied. */
  type Similarity = (int, int) -> real

  function RMin(a: real, b: real): real { if a <= b then a else b }

  function RMax(a: real, b: real): real { if a >= b then a else b }

  function LowScore(pool: seq<Candidate>): real
    requires pool != []
  {
    if |pool| == 1 then pool[0].score else RMin(LowScore(pool[..|pool| - 1]), pool[|pool| - 1].score)
  }

  function HighScore(pool: seq<Candidate>): real
    requires pool != []
  {
    if |pool| == 1 then pool[0].score else RMax(HighScore(pool[..|pool| - 1]), pool[|pool| - 1].score)
  }

  lemma {:induction false} ScoreRange(pool: seq<Candidate>)
    requires pool != []
    ensures forall i :: 0 <= i < |pool| ==> LowScore(pool) <= pool[i].score <= HighScore(pool)
    ensures exists i :: 0 <= i < |pool| && pool[i].score == HighScore(pool)
  {
    var last := |pool| - 1;
    if last > 0 {
      ScoreRange(pool[..last]);
      var i :| 0 <= i < last && pool[..last][i].score == HighScore(pool[..last]);
      assert pool[i].score == HighScore(pool) || pool[last].score == HighScore(pool);
    } else {
      assert pool[0].score == HighScore(pool);
    }
  }

  function Relevance(pool: seq<Candidate>, p: nat): real
    requires p < |pool|
  {
    var low, high := LowScore(pool), HighScore(pool);
    if high == low then 1.0 else (pool[p].score - low) / (high - low)
  }

  /** Relevance is the score stretched to reach from 0 to 1: the lowest score gets 0, the highest 1,
      and those between keep their proportions. */
  lemma RelevanceKeepsProportions(pool: seq<Candidate>, low: nat, high: nat, p: nat)
    requires low < |pool| && high < |pool| && p < |pool|
    requires forall i :: 0 <= i < |pool| ==> pool[low].score <= pool[i].score <= pool[high].score
    ensures Relevance(pool, p) * (pool[high].score - pool[low].score) == pool[p].score - pool[low].score
    ensures pool[low].score == pool[high].score ==> Relevance(pool, p) == 1.0
  {
    ScoreRange(pool);
    LowIsReached(pool);
    assert LowScore(pool) == pool[low].score && HighScore(pool) == pool[high].score;
    if pool[low].score != pool[high].score {
      Undivided(pool[p].score - pool[low].score, pool[high].score - pool[low].score);
    }
  }

  lemma {:induction false} LowIsReached(pool: seq<Candidate>)
    requires pool != []
    ensures exists i :: 0 <= i < |pool| && pool[i].score == LowScore(pool)
  {
    var last := |pool| - 1;
    if last > 0 {
      LowIsReached(pool[..last]);
      var i :| 0 <= i < last && pool[..last][i].score == LowScore(pool[..last]);
      assert pool[i].score == LowScore(pool) || pool[last].score == LowScore(pool);
    } else {
      assert pool[0].score == LowScore(pool);
    }
  }

  lemma Undivided(a: real, d: real)
    requires d != 0.0
    ensures a / d * d == a
  {
  }

  /** Diversity as it was meant: with nothing similar, one pick from a feed costs the feed's next
      article 0.06 and five or more cost it 0.30; one from its category costs 0.015 and six or more
      0.08; and an article just like one chosen loses another 0.12. */
  lemma PenaltyScale(sim: Similarity, pool: seq<Candidate>, picks: seq<nat>, p: nat)
    requires Positions(pool, picks) && p < |pool|
    ensures var feeds, categories := FeedCount(pool, picks, pool[p].feed), CategoryCount(pool, picks, pool[p].category);
      var rest := Relevance(pool, p) * 0.88 - Adjusted(sim, pool, picks, p) - MaxSimilarity(sim, pool, picks, p) * 0.12;
      && rest == (if feeds >= 5 then 0.30 else feeds as real * 0.06)
               + (if categories >= 6 then 0.08 else categories as real * 0.015)
  {
  }

  // ----- what is already chosen -----

  predicate Positions(pool: seq<Candidate>, picks: seq<nat>) {
    forall i :: 0 <= i < |picks| ==> picks[i] < |pool|
  }

  function FeedCount(pool: seq<Candidate>, picks: seq<nat>, feed: int): nat
    requires Positions(pool, picks)
  {
    if picks == [] then 0
    else FeedCount(pool, picks[..|picks| - 1], feed) + if pool[picks[|picks| - 1]].feed == feed then 1 else 0
  }

  function CategoryCount(pool: seq<Candidate>, picks: seq<nat>, category: Option<int>): nat
    requires Positions(pool, picks)
  {
    if picks == [] then 0
    else CategoryCount(pool, picks[..|picks| - 1], category) + if pool[picks[|picks| - 1]].category == category then 1
        else 0
  }

  function MaxSimilarity(sim: Similarity, pool: seq<Candidate>, picks: seq<nat>, p: nat): real
    requires Positions(pool, picks) && p < |pool|
  {
    if picks == [] then 0.0
    else RMax(MaxSimilarity(sim, pool, picks[..|picks| - 1], p), sim(pool[p].id, pool[picks[|picks| - 1]].id))
  }

  function Penalty(sim: Similarity, pool: seq<Candidate>, picks: seq<nat>, p: nat): real
    requires Positions(pool, picks) && p < |pool|
  {
    MaxSimilarity(sim, pool, picks, p) * 0.12
    + RMin(0.30, 0.06 * FeedCount(pool, picks, pool[p].feed) as real)
    + RMin(0.08, 0.015 * CategoryCount(pool, picks, pool[p].category) as real)
  }

  function Adjusted(sim: Similarity, pool: seq<Candidate>, picks: seq<nat>, p: nat): real
    requires Positions(pool, picks) && p < |pool|
  {
    Relevance(pool, p) * 0.88 - Penalty(sim, pool, picks, p)
  }

  /** `p` is the best position not yet picked, the first of them on a tie. */
  ghost predicate BestNext(sim: Similarity, pool: seq<Candidate>, picks: seq<nat>, p: nat) {
    && Positions(pool, picks) && p < |pool| && p !in picks
    && (forall q: nat :: q < |pool| && q !in picks ==> Adjusted(sim, pool, picks, q) <= Adjusted(sim, pool, picks, p))
    && (forall q: nat :: q < p && q !in picks ==> Adjusted(sim, pool, picks, q) < Adjusted(sim, pool, picks, p))
  }

  /** Every pick is the best next one given those before it. */
  ghost predicate Greedy(sim: Similarity, pool: seq<Candidate>, picks: seq<nat>)
    decreases |picks|
  {
    picks == [] ||
    (Greedy(sim, pool, picks[..|picks| - 1]) && BestNext(sim, pool, picks[..|picks| - 1], picks[|picks| - 1]))
  }

  lemma {:induction false} GreedyPicksAreDistinct(sim: Similarity, pool: seq<Candidate>, picks: seq<nat>)
    requires Greedy(sim, pool, picks)
    ensures Positions(pool, picks)
    ensures forall i, j :: 0 <= i < j < |picks| ==> picks[i] != picks[j]
    ensures |picks| <= |pool|
    ensures |picks| == |pool| ==> forall p: nat :: p < |pool| ==> p in picks
    decreases |picks|
  {
    if picks != [] {
      GreedyPicksAreDistinct(sim, pool, picks[..|picks| - 1]);
    }
    Pigeonhole(picks, |pool|);
  }

  lemma {:induction false} Pigeonhole(picks: seq<nat>, n: nat)
    requires forall i :: 0 <= i < |picks| ==> picks[i] < n
    requires forall i, j :: 0 <= i < j < |picks| ==> picks[i] != picks[j]
    ensures |picks| <= n
    ensures |picks| == n ==> forall p: nat :: p < n ==> p in picks
  {
    assert picks != [] ==> picks[0] < n;
    if n > 0 {
      if i :| 0 <= i < |picks| && picks[i] == n - 1 {
        var rest := picks[..i] + picks[i + 1..];
        assert forall k :: 0 <= k < |rest| ==> rest[k] == picks[if k < i then k else k + 1];
        Pigeonhole(rest, n - 1);
        assert forall p :: p in rest ==> p in picks;
      } else {
        Pigeonhole(picks, n - 1);
      }
    }
  }

  /** The rule leaves no choice: a pool has one greedy selection of each size. */
  lemma {:induction false} GreedyIsUnique(sim: Similarity, pool: seq<Candidate>, a: seq<nat>, b: seq<nat>)
    requires Greedy(sim, pool, a) && Greedy(sim, pool, b) && |a| == |b|
    ensures a == b
    decreases |a|
  {
    if a != [] {
      var last := |a| - 1;
      GreedyIsUnique(sim, pool, a[..last], b[..last]);
      var p, q := a[last], b[last];
      assert BestNext(sim, pool, a[..last], p) && BestNext(sim, pool, a[..last], q);
      assert p == q;
      assert a == a[..last] + [p] && b == b[..last] + [q];
    }
  }

  lemma {:induction false} GreedyPrefix(sim: Similarity, pool: seq<Candidate>, picks: seq<nat>, n: nat)
    requires Greedy(sim, pool, picks) && n <= |picks|
    ensures Greedy(sim, pool, picks[..n])
    decreases |picks|
  {
    if n < |picks| {
      GreedyPrefix(sim, pool, picks[..|picks| - 1], n);
      assert picks[..|picks| - 1][..n] == picks[..n];
    } else {
      assert picks[..n] == picks;
    }
  }

  /** Asking for more only adds to the end. */
  lemma LongerSelectionsExtend(sim: Similarity, pool: seq<Candidate>, shorter: seq<nat>, longer: seq<nat>)
    requires Greedy(sim, pool, shorter) && Greedy(sim, pool, longer) && |shorter| <= |longer|
    ensures shorter <= longer
  {
    GreedyPrefix(sim, pool, longer, |shorter|);
    GreedyIsUnique(sim, pool, shorter, longer[..|shorter|]);
  }

  // ----- what diversity can and cannot change -----

  ghost predicate Cosine(sim: Similarity) { forall a, b :: 0.0 <= sim(a, b) <= 1.0 }

  lemma {:induction false} MaxSimilarityRange(sim: Similarity, pool: seq<Candidate>, picks: seq<nat>, p: nat)
    requires Cosine(sim) && Positions(pool, picks) && p < |pool|
    ensures 0.0 <= MaxSimilarity(sim, pool, picks, p) <= 1.0
    decreases |picks|
  {
    if picks != [] {
      MaxSimilarityRange(sim, pool, picks[..|picks| - 1], p);
    }
  }

  lemma PenaltyRange(sim: Similarity, pool: seq<Candidate>, picks: seq<nat>, p: nat)
    requires Cosine(sim) && Positions(pool, picks) && p < |pool|
    ensures 0.0 <= Penalty(sim, pool, picks, p) <= 0.5
  {
    MaxSimilarityRange(sim, pool, picks, p);
  }

  /** Diversity never overturns a large lead: when one article's weighted relevance exceeds
      another's by more than the largest penalty, it is picked first whatever was chosen before. */
  lemma LargeLeadsAreKept(sim: Similarity, pool: seq<Candidate>, picks: seq<nat>, ahead: nat, k: nat)
    requires Greedy(sim, pool, picks) && Cosine(sim) && Positions(pool, picks)
    requires k < |picks| && ahead < |pool| && Relevance(pool, ahead) * 0.88 - Relevance(pool, picks[k]) * 0.88 > 0.5
    ensures ahead in picks[..k]
  {
    GreedyPrefix(sim, pool, picks, k + 1);
    var before := picks[..k];
    assert picks[..k + 1][..k] == before;
    assert BestNext(sim, pool, before, picks[k]);
    PenaltyRange(sim, pool, before, ahead);
    PenaltyRange(sim, pool, before, picks[k]);
    assert Adjusted(sim, pool, before, ahead) > Adjusted(sim, pool, before, picks[k]);
  }

  /** With nothing chosen yet the best next article is the one the ranking puts first. */
  lemma FirstPickIsTopRanked(sim: Similarity, pool: seq<Candidate>, p: nat)
    requires pool != [] && BestNext(sim, pool, [], p)
    requires forall i :: 0 <= i < |pool| ==> pool[i].score <= pool[0].score
    ensures p == 0
  {
    ScoreRange(pool);
    assert pool[0].score == HighScore(pool);
    assert Relevance(pool, p) <= 1.0 == Relevance(pool, 0) by {
      var low, high := LowScore(pool), HighScore(pool);
      if high != low {
        Whole(high - low);
        FractionGrows(pool[p].score - low, high - low, high - low);
      }
    }
    assert Adjusted(sim, pool, [], p) <= Adjusted(sim, pool, [], 0);
  }

  lemma Whole(d: real)
    requires d > 0.0
    ensures d / d == 1.0
  {
    assert d * (d / d) == d;
  }

  lemma FractionGrows(a: real, b: real, d: real)
    requires a <= b && d > 0.0
    ensures a / d <= b / d
  {
    assert b / d - a / d == (b - a) / d;
  }

  // ----- the loops -----

  /** `argmax`: the first of the largest entries; `None` stands for minus infinity. */
  method ArgMax(entries: seq<Option<real>>) returns (best: nat)
    requires exists i :: 0 <= i < |entries| && entries[i].Some?
    ensures best < |entries| && entries[best].Some?
    ensures forall i :: 0 <= i < |entries| && entries[i].Some? ==> entries[i].value <= entries[best].value
    ensures forall i :: 0 <= i < best && entries[i].Some? ==> entries[i].value < entries[best].value
  {
    best := 0;
    for i := 1 to |entries|
      invariant best < i
      invariant entries[best].None? ==> forall j :: 0 <= j < i ==> entries[j].None?
      invariant entries[best].Some? ==> forall j :: 0 <= j < i && entries[j].Some? ==>
          entries[j].value <= entries[best].value
      invariant entries[best].Some? ==> forall j :: 0 <= j < best && entries[j].Some? ==>
          entries[j].value < entries[best].value
    {
      if entries[i].Some? && (entries[best].None? || entries[i].value > entries[best].value) {
        best := i;
      }
    }
  }

  type FeedCounts = map<int, nat>

  type CategoryCounts = map<Option<int>, nat>

  function Counter<K>(counts: map<K, nat>, k: K): nat { if k in counts then counts[k] else 0 }

  /** The running totals the selection loop keeps say what the picks so far say. */
  ghost predicate Tracks(sim: Similarity, pool: seq<Candidate>, picks: seq<nat>, available: seq<bool>,
                         maxSimilarity: seq<real>, feeds: FeedCounts, categories: CategoryCounts) {
    && Positions(pool, picks)
    && |available| == |pool| == |maxSimilarity|
    && (forall p: nat :: p < |pool| ==> (available[p] <==> p !in picks))
    && (forall p: nat :: p < |pool| ==> maxSimilarity[p] == MaxSimilarity(sim, pool, picks, p))
    && (forall f :: Counter(feeds, f) == FeedCount(pool, picks, f))
    && (forall c :: Counter(categories, c) == CategoryCount(pool, picks, c))
  }

  /** The adjusted scores of the positions still available. */
  method AdjustScores(sim: Similarity, pool: seq<Candidate>, ghost picks: seq<nat>, relevance: seq<real>,
                      available: seq<bool>, maxSimilarity: seq<real>, feeds: FeedCounts, categories: CategoryCounts)
    returns (adjusted: seq<Option<real>>)
    requires Tracks(sim, pool, picks, available, maxSimilarity, feeds, categories)
    requires |relevance| == |pool| && forall p: nat :: p < |pool| ==> relevance[p] == Relevance(pool, p)
    ensures |adjusted| == |pool|
    ensures forall p: nat :: p < |pool| ==> adjusted[p] == if p in picks then None
        else Some(Adjusted(sim, pool, picks, p))
  {
    adjusted := [];
    for p := 0 to |pool|
      invariant |adjusted| == p
      invariant forall q: nat :: q < p ==> adjusted[q] == if q in picks then None
          else Some(Adjusted(sim, pool, picks, q))
    {
      if !available[p] {
        adjusted := adjusted + [None];
      } else {
        var score := relevance[p] * 0.88 - maxSimilarity[p] * 0.12;
        score := score - RMin(0.30, 0.06 * Counter(feeds, pool[p].feed) as real);
        score := score - RMin(0.08, 0.015 * Counter(categories, pool[p].category) as real);
        adjusted := adjusted + [Some(score)];
      }
    }
  }

  /** `np.maximum(max_similarity, similarities)` for the article just picked. */
  function Closer(sim: Similarity, pool: seq<Candidate>, maxSimilarity: seq<real>, p: nat): (closer: seq<real>)
    requires p < |pool| == |maxSimilarity|
    ensures |closer| == |pool|
    ensures forall q: nat :: q < |pool| ==> closer[q] == RMax(maxSimilarity[q], sim(pool[q].id, pool[p].id))
  {
    seq(|pool|, q requires 0 <= q < |pool| => RMax(maxSimilarity[q], sim(pool[q].id, pool[p].id)))
  }

  lemma NothingPickedYet(sim: Similarity, pool: seq<Candidate>, available: seq<bool>, maxSimilarity: seq<real>)
    requires |available| == |pool| == |maxSimilarity|
    requires forall p: nat :: p < |pool| ==> available[p] && maxSimilarity[p] == 0.0
    ensures Tracks(sim, pool, [], available, maxSimilarity, map[], map[])
  {
  }

  /** `available.any()`. */
  lemma SomeLeftToScore(sim: Similarity, pool: seq<Candidate>, picks: seq<nat>, available: seq<bool>,
                        maxSimilarity: seq<real>,
                        feeds: FeedCounts, categories: CategoryCounts)
    requires Tracks(sim, pool, picks, available, maxSimilarity, feeds, categories) && true in available
    ensures exists p: nat :: p < |pool| && p !in picks
  {
    var p :| 0 <= p < |available| && available[p];
  }

  method SelectFromPool(sim: Similarity, pool: seq<Candidate>, limit: int) returns (picks: seq<nat>)
    requires pool != []
    ensures Greedy(sim, pool, picks)
    ensures |picks| == Min(Max(limit, 0), |pool|)
  {
    var relevance := seq(|pool|, p requires 0 <= p < |pool| => Relevance(pool, p));
    var available := seq(|pool|, _ => true);
    var maxSimilarity := seq(|pool|, _ => 0.0);
    var feeds: FeedCounts, categories: CategoryCounts := map[], map[];
    picks := [];
    NothingPickedYet(sim, pool, available, maxSimilarity);
    while |picks| < limit && true in available
      invariant Greedy(sim, pool, picks) && |picks| <= Max(limit, 0)
      invariant Tracks(sim, pool, picks, available, maxSimilarity, feeds, categories)
      decreases limit - |picks|
    {
      var adjusted := AdjustScores(sim, pool, picks, relevance, available, maxSimilarity, feeds, categories);
      SomeLeftToScore(sim, pool, picks, available, maxSimilarity, feeds, categories);
      ghost var left: nat :| left < |pool| && left !in picks;
      assert adjusted[left].Some?;
      var p := ArgMax(adjusted);
      GreedyGrows(sim, pool, picks, p);
      TakeNext(sim, pool, picks, available, maxSimilarity, feeds, categories, p);
      available := available[p := false];
      maxSimilarity := Closer(sim, pool, maxSimilarity, p);
      feeds := feeds[pool[p].feed := Counter(feeds, pool[p].feed) + 1];
      categories := categories[pool[p].category := Counter(categories, pool[p].category) + 1];
      picks := picks + [p];
    }
    GreedyPicksAreDistinct(sim, pool, picks);
    if |picks| < limit {
      NothingLeft(sim, pool, picks, available, maxSimilarity, feeds, categories);
    }
  }

  lemma GreedyGrows(sim: Similarity, pool: seq<Candidate>, picks: seq<nat>, p: nat)
    requires Greedy(sim, pool, picks) && BestNext(sim, pool, picks, p)
    ensures Greedy(sim, pool, picks + [p])
  {
    assert (picks + [p])[..|picks|] == picks;
  }

  lemma NothingLeft(sim: Similarity, pool: seq<Candidate>, picks: seq<nat>, available: seq<bool>,
                    maxSimilarity: seq<real>,
                    feeds: FeedCounts, categories: CategoryCounts)
    requires Tracks(sim, pool, picks, available, maxSimilarity, feeds, categories) && true !in available
    ensures |picks| >= |pool|
  {
    forall p: nat | p < |pool| ensures p in picks {
      assert available[p] in available;
    }
    AllPicked(picks, |pool|);
  }

  lemma TakeNext(sim: Similarity, pool: seq<Candidate>, picks: seq<nat>, available: seq<bool>,
                 maxSimilarity: seq<real>, feeds: FeedCounts, categories: CategoryCounts, p: nat)
    requires Tracks(sim, pool, picks, available, maxSimilarity, feeds, categories) && p < |pool|
    ensures Tracks(sim, pool, picks + [p], available[p := false],
                   Closer(sim, pool, maxSimilarity, p),
                   feeds[pool[p].feed := Counter(feeds, pool[p].feed) + 1],
                   categories[pool[p].category := Counter(categories, pool[p].category) + 1])
  {
    var next := picks + [p];
    assert next[..|picks|] == picks;
    var feeds' := feeds[pool[p].feed := Counter(feeds, pool[p].feed) + 1];
    var categories' := categories[pool[p].category := Counter(categories, pool[p].category) + 1];
    forall f ensures Counter(feeds', f) == FeedCount(pool, next, f) {
      assert Counter(feeds, f) == FeedCount(pool, picks, f);
    }
    forall c ensures Counter(categories', c) == CategoryCount(pool, next, c) {
      assert Counter(categories, c) == CategoryCount(pool, picks, c);
    }
  }

  lemma {:induction false} AllPicked(picks: seq<nat>, n: nat)
    requires forall p: nat :: p < n ==> p in picks
    ensures |picks| >= n
  {
    if n > 0 {
      assert n - 1 in picks;
      var i :| 0 <= i < |picks| && picks[i] == n - 1;
      var rest := picks[..i] + picks[i + 1..];
      forall p: nat | p < n - 1 ensures p in rest {
        assert p in picks;
        var k :| 0 <= k < |picks| && picks[k] == p;
        assert rest[if k < i then k else k - 1] == p;
      }
      AllPicked(rest, n - 1);
    }
  }

  /** Main result on selection: the right number of articles, no two the same one, the
      top-ranked first, each pick the best next one. */
  method DiversifiedIndices(sim: Similarity, candidates: seq<Candidate>, limit: int)
    returns (selected: seq<Candidate>, ghost picks: seq<nat>)
    requires DistinctIds(candidates)
    ensures var pool := PoolOf(Ranked(candidates));
      && |selected| == Min(Max(limit, 0), |pool|) == |picks|
      && Greedy(sim, pool, picks) && Positions(pool, picks)
      && forall i :: 0 <= i < |selected| ==> selected[i] == pool[picks[i]]
    ensures forall i, j :: 0 <= i < j < |selected| ==> !SameArticle(selected[i], selected[j])
    ensures selected != [] ==> selected[0] in candidates && forall c :: c in candidates ==>
        c == selected[0] || RanksBefore(selected[0], c)
  {
    var ranked := Ranked(candidates);
    var pool := BuildPool(ranked);
    picks := [];
    selected := [];
    PoolHoldsEachArticleOnce(ranked);
    if pool == [] {
      return;
    }
    var positions := SelectFromPool(sim, pool, limit);
    picks := positions;
    GreedyPicksAreDistinct(sim, pool, positions);
    selected := seq(|positions|, i requires 0 <= i < |positions| && positions[i] < |pool| => pool[positions[i]]);
    SelectionIsDistinct(pool, positions);
    if positions != [] {
      TopRankedFirst(sim, candidates, positions);
    }
  }

  lemma SelectionIsDistinct(pool: seq<Candidate>, picks: seq<nat>)
    requires Positions(pool, picks)
    requires forall i, j :: 0 <= i < j < |picks| ==> picks[i] != picks[j]
    requires forall i, j :: 0 <= i < j < |pool| ==> !SameArticle(pool[i], pool[j])
    ensures forall i, j :: 0 <= i < j < |picks| ==> !SameArticle(pool[picks[i]], pool[picks[j]])
  {
    forall i, j | 0 <= i < j < |picks| ensures !SameArticle(pool[picks[i]], pool[picks[j]]) {
      var p, q := picks[i], picks[j];
      assert if p < q then !SameArticle(pool[p], pool[q]) else !SameArticle(pool[q], pool[p]);
    }
  }

  lemma TopRankedFirst(sim: Similarity, candidates: seq<Candidate>, picks: seq<nat>)
    requires DistinctIds(candidates) && picks != [] && Greedy(sim, PoolOf(Ranked(candidates)), picks)
    ensures picks[0] == 0 && |PoolOf(Ranked(candidates))| > 0
    ensures var top := PoolOf(Ranked(candidates))[0];
      top in candidates && forall c :: c in candidates ==> c == top || RanksBefore(top, c)
  {
    var ranked := Ranked(candidates);
    var pool := PoolOf(ranked);
    RankedIsStrict(candidates);
    PoolHoldsEachArticleOnce(ranked);
    GreedyPicksAreDistinct(sim, pool, picks);
    assert ranked != [];
    forall c | c in candidates ensures c == ranked[0] || RanksBefore(ranked[0], c) {
      assert c in multiset(candidates);
      assert c in ranked;
    }
    assert ranked[0] in multiset(ranked);
    forall i | 0 <= i < |pool| ensures pool[i].score <= pool[0].score {
      assert pool[i] in ranked;
    }
    GreedyPrefix(sim, pool, picks, 1);
    assert picks[..1][..0] == [] && picks[..1][0] == picks[0];
    FirstPickIsTopRanked(sim, pool, picks[0]);
  }

  /** The order in which candidates are listed never shows in the ranking the selection uses. */
  lemma RankingIgnoresListOrder(a: seq<Candidate>, b: seq<Candidate>)
    requires DistinctIds(a) && multiset(a) == multiset(b)
    ensures Ranked(a) == Ranked(b)
  {
    PairwiseInAnyOrder((x: Candidate, y: Candidate) => x.id != y.id, a, b);
    RankedIsStrict(a);
    RankedIsStrict(b);
    forall x, y | RanksBefore(x, y) ensures !RanksBefore(y, x) {
      RankIsStrict(x, y);
    }
    forall x ensures x in Ranked(a) <==> x in Ranked(b) {
      assert x in Ranked(a) <==> x in multiset(Ranked(a));
      assert x in Ranked(b) <==> x in multiset(Ranked(b));
    }
    StrictOrderIsUnique(RanksBefore, Ranked(a), Ranked(b));
  }
}
