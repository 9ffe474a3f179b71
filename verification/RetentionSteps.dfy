/** `retention_partition` itself: the classifying loop, its bucket dictionary, and the loop
    that keeps one candidate of each bucket. */
module RetentionSteps {
  import opened Common
  import opened Retention

  /** What the first loop has done with the pairs before some position. */
  ghost predicate Classified(c: Calendar, seen: seq<StoredPair>, newest: StoredPair, now: nat,
                             keep: seq<StoredPair>, delete: seq<StoredPair>, buckets: map<Bucket, seq<StoredPair>>)
  {
    && NoDuplicates(keep) && NoDuplicates(delete)
    && (forall p :: p in keep <==> p == newest || (p in seen && Recent(now, p)))
    && (forall p :: p in delete <==> p in seen && p != newest && !Recent(now, p) && BucketOf(c, now, p).None?)
    && (forall b :: b in buckets ==> buckets[b] == Candidates(c, seen, newest, now, b) && buckets[b] != [])
    && (forall b :: Candidates(c, seen, newest, now, b) != [] ==> b in buckets)
  }

  lemma NoDuplicatesExtend<T>(s: seq<T>, x: T)
    requires NoDuplicates(s) && x !in s
    ensures NoDuplicates(s + [x])
  {
  }

  lemma ClassifyOne(c: Calendar, seen: seq<StoredPair>, p: StoredPair, newest: StoredPair, now: nat,
                    keep: seq<StoredPair>, delete: seq<StoredPair>, buckets: map<Bucket, seq<StoredPair>>)
    requires Classified(c, seen, newest, now, keep, delete, buckets) && p !in seen
    ensures p == newest ==> Classified(c, seen + [p], newest, now, keep, delete, buckets)
    ensures p != newest && Recent(now, p) ==> Classified(c, seen + [p], newest, now, keep + [p], delete, buckets)
    ensures p != newest && !Recent(now, p) && BucketOf(c, now, p).None? ==>
              Classified(c, seen + [p], newest, now, keep, delete + [p], buckets)
  {
    assert forall q :: q in seen + [p] <==> q in seen || q == p;
    if p == newest || BucketOf(c, now, p).None? {
      forall b ensures Candidates(c, seen + [p], newest, now, b) == Candidates(c, seen, newest, now, b) {
        CandidatesGrow(c, seen, p, newest, now, b);
      }
    }
  }

  lemma BucketOne(c: Calendar, seen: seq<StoredPair>, p: StoredPair, newest: StoredPair, now: nat,
                  keep: seq<StoredPair>, delete: seq<StoredPair>, buckets: map<Bucket, seq<StoredPair>>)
    requires Classified(c, seen, newest, now, keep, delete, buckets) && p !in seen
    requires p != newest && BucketOf(c, now, p).Some?
    ensures var b := BucketOf(c, now, p).value;
      Classified(c, seen + [p], newest, now, keep, delete,
                 buckets[b := (if b in buckets then buckets[b] else []) + [p]])
  {
    assert forall q :: q in seen + [p] <==> q in seen || q == p;
    forall b ensures Candidates(c, seen + [p], newest, now, b) ==
                     if BucketOf(c, now, p) == Some(b) then Candidates(c, seen, newest, now, b) + [p]
                     else Candidates(c, seen, newest, now, b)
    {
      CandidatesGrow(c, seen, p, newest, now, b);
    }
  }

  lemma CandidatesGrow(c: Calendar, seen: seq<StoredPair>, p: StoredPair, newest: StoredPair, now: nat, b: Bucket)
    ensures Candidates(c, seen + [p], newest, now, b) ==
            Candidates(c, seen, newest, now, b) + if p != newest && BucketOf(c, now, p) == Some(b) then [p] else []
  {
    assert (seen + [p])[..|seen|] == seen;
  }

  method RetentionPartition(c: Calendar, pairs: seq<StoredPair>, now: nat)
    returns (keep: seq<StoredPair>, delete: seq<StoredPair>)
    requires NoDuplicates(pairs)
    ensures Partitions(c, pairs, now, keep, delete)
  {
    if pairs == [] {
      return [], [];
    }
    var newest := Newest(pairs);
    keep, delete := [newest], [];
    var buckets: map<Bucket, seq<StoredPair>> := map[];
    for n := 0 to |pairs|
      invariant Classified(c, pairs[..n], newest, now, keep, delete, buckets)
    {
      var pair := pairs[n];
      assert pairs[..n + 1] == pairs[..n] + [pair];
      ClassifyOne(c, pairs[..n], pair, newest, now, keep, delete, buckets);
      if pair == newest {
        continue;
      }
      if Recent(now, pair) {
        keep := keep + [pair];
        continue;
      }
      var bucket := BucketOf(c, now, pair);
      if bucket.None? {
        delete := delete + [pair];
        continue;
      }
      BucketOne(c, pairs[..n], pair, newest, now, keep, delete, buckets);
      buckets := buckets[bucket.value := (if bucket.value in buckets then buckets[bucket.value] else []) + [pair]];
    }
    assert pairs[..|pairs|] == pairs;
    keep, delete := KeepOnePerBucket(c, pairs, now, keep, delete, buckets);
  }

  lemma {:induction false} CandidatesAreDistinct(c: Calendar, pairs: seq<StoredPair>, newest: StoredPair, now: nat,
                                                 b: Bucket)
    requires NoDuplicates(pairs)
    ensures NoDuplicates(Candidates(c, pairs, newest, now, b))
  {
    if pairs != [] {
      var init, last := pairs[..|pairs| - 1], pairs[|pairs| - 1];
      CandidatesAreDistinct(c, init, newest, now, b);
      assert last !in init;
    }
  }

  /** `pair for pair in candidates if pair is not earliest`. */
  function Others(candidates: seq<StoredPair>, earliest: StoredPair): (r: seq<StoredPair>)
    ensures forall p :: p in r <==> p in candidates && p != earliest
  {
    if candidates == [] then []
    else (if candidates[0] == earliest then [] else [candidates[0]]) + Others(candidates[1..], earliest)
  }

  lemma {:induction false} OthersAreDistinct(candidates: seq<StoredPair>, earliest: StoredPair)
    requires NoDuplicates(candidates)
    ensures NoDuplicates(Others(candidates, earliest))
  {
    if candidates != [] {
      OthersAreDistinct(candidates[1..], earliest);
      assert candidates[0] !in candidates[1..];
    }
  }

  lemma NoDuplicatesJoin<T>(s: seq<T>, t: seq<T>)
    requires NoDuplicates(s) && NoDuplicates(t) && forall x :: x in s ==> x !in t
    ensures NoDuplicates(s + t)
  {
    forall i, j | 0 <= i < j < |s + t| ensures (s + t)[i] != (s + t)[j] {
      assert i < |s| <= j ==> (s + t)[i] in s && (s + t)[j] in t;
    }
  }

  /** The pair belongs to a bucket the second loop has already dealt with. */
  ghost predicate Done(c: Calendar, pairs: seq<StoredPair>, now: nat, pending: set<Bucket>, p: StoredPair) {
    p in pairs && p != Newest(pairs) && BucketOf(c, now, p).Some? && BucketOf(c, now, p).value !in pending
  }

  ghost predicate Settled(c: Calendar, pairs: seq<StoredPair>, now: nat, pending: set<Bucket>,
                          keep: seq<StoredPair>, delete: seq<StoredPair>)
    requires pairs != []
  {
    && NoDuplicates(keep) && NoDuplicates(delete)
    && (forall p :: p in keep <==> p == Newest(pairs) || (p in pairs && Recent(now, p))
                                   || (Done(c, pairs, now, pending, p) && Kept(c, pairs, now, p)))
    && (forall p :: p in delete <==> (p in pairs && p != Newest(pairs) && !Recent(now, p) && BucketOf(c, now, p).None?)
                                     || (Done(c, pairs, now, pending, p) && !Kept(c, pairs, now, p)))
  }

  lemma SettleBucket(c: Calendar, pairs: seq<StoredPair>, now: nat, pending: set<Bucket>,
                     keep: seq<StoredPair>, delete: seq<StoredPair>, b: Bucket)
    requires pairs != [] && NoDuplicates(pairs) && Settled(c, pairs, now, pending, keep, delete)
    requires b in pending && Candidates(c, pairs, Newest(pairs), now, b) != []
    ensures var candidates := Candidates(c, pairs, Newest(pairs), now, b);
            Settled(c, pairs, now, pending - {b}, keep + [Earliest(candidates)],
                    delete + Others(candidates, Earliest(candidates)))
  {
    var candidates := Candidates(c, pairs, Newest(pairs), now, b);
    var earliest := Earliest(candidates);
    CandidatesAreDistinct(c, pairs, Newest(pairs), now, b);
    OthersAreDistinct(candidates, earliest);
    forall p ensures Done(c, pairs, now, pending - {b}, p) <==> Done(c, pairs, now, pending, p) || p in candidates {
    }
    NoDuplicatesExtend(keep, earliest);
    NoDuplicatesJoin(delete, Others(candidates, earliest));
    forall p | p in candidates ensures Kept(c, pairs, now, p) <==> p == earliest {
    }
  }

  /** The second loop, over the dictionary's buckets in any order. */
  method KeepOnePerBucket(c: Calendar, pairs: seq<StoredPair>, now: nat,
                          kept: seq<StoredPair>, deleted: seq<StoredPair>, buckets: map<Bucket, seq<StoredPair>>)
    returns (keep: seq<StoredPair>, delete: seq<StoredPair>)
    requires pairs != [] && NoDuplicates(pairs)
    requires Classified(c, pairs, Newest(pairs), now, kept, deleted, buckets)
    ensures Partitions(c, pairs, now, keep, delete)
  {
    keep, delete := kept, deleted;
    var pending := buckets.Keys;
    NothingDoneAtFirst(c, pairs, now, kept, deleted, buckets);
    while pending != {}
      invariant pending <= buckets.Keys
      invariant Settled(c, pairs, now, pending, keep, delete)
      decreases |pending|
    {
      var bucket :| bucket in pending;
      var candidates := buckets[bucket];
      var earliest := Earliest(candidates);
      SettleBucket(c, pairs, now, pending, keep, delete, bucket);
      keep := keep + [earliest];
      delete := delete + Others(candidates, earliest);
      pending := pending - {bucket};
    }
    AllDoneAtLast(c, pairs, now, keep, delete);
  }

  lemma NothingDoneAtFirst(c: Calendar, pairs: seq<StoredPair>, now: nat,
                           keep: seq<StoredPair>, delete: seq<StoredPair>, buckets: map<Bucket, seq<StoredPair>>)
    requires pairs != [] && Classified(c, pairs, Newest(pairs), now, keep, delete, buckets)
    ensures Settled(c, pairs, now, buckets.Keys, keep, delete)
  {
    forall p ensures !Done(c, pairs, now, buckets.Keys, p) {
      if p in pairs && p != Newest(pairs) && BucketOf(c, now, p).Some? {
        assert p in Candidates(c, pairs, Newest(pairs), now, BucketOf(c, now, p).value);
      }
    }
  }

  lemma AllDoneAtLast(c: Calendar, pairs: seq<StoredPair>, now: nat, keep: seq<StoredPair>, delete: seq<StoredPair>)
    requires pairs != [] && Settled(c, pairs, now, {}, keep, delete)
    ensures Partitions(c, pairs, now, keep, delete)
  {
  }
}
