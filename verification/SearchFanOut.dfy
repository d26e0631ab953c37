/**
 `ShardRegistry::search`: plan the shards of a time range, let workers take them in any order,
 keep each shard's own top hits, merge and truncate. The result is measured against a naive
 scan of the whole corpus.
 */
module SearchFanOut {
  import opened Prelude
  import opened MonthShards
  import opened TopHits

  /** A document with its (opaque, totally ordered) relevance score. */
  datatype Doc = Doc(id: nat, createdAt: nat, score: int)

  /** Text queries rank by score, metadata queries by recency. */
  datatype Ranking = ByScore | ByTime

  /** A planned query: the clauses, an explicit time range, a ranking and a limit. */
  datatype Query = Query(clauses: Doc -> bool, since: nat, until: nat, ranking: Ranking, limit: nat) {
    predicate Matches(d: Doc) {
      clauses(d) && since <= d.createdAt < until
    }

    function Key(d: Doc): int {
      if ranking.ByScore? then d.score else d.createdAt
    }
  }

  // ----- The naive scan ---------------------------------------------------------------------

  /** The sort keys of the matching documents. */
  function MatchKeys(docs: seq<Doc>, q: Query): seq<int> {
    if docs == [] then []
    else
      var rest := MatchKeys(docs[1..], q);
      if q.Matches(docs[0]) then [q.Key(docs[0])] + rest else rest
  }

  /** What a scan of the whole corpus would report: the first `limit` keys of the sorted matches. */
  function NaiveScan(docs: seq<Doc>, q: Query): seq<int> {
    var sorted := Sorted(MatchKeys(docs, q));
    sorted[..Min(q.limit, |sorted|)]
  }

  // ----- Shards ---------------------------------------------------------------------------

  /** The documents routed to shard `s`. */
  function InShard(docs: seq<Doc>, s: ShardId): seq<Doc> {
    if docs == [] then []
    else
      var rest := InShard(docs[1..], s);
      if FromTimestamp(docs[0].createdAt) == s then [docs[0]] + rest else rest
  }

  function KeysOf(hits: seq<Doc>, q: Query): (keys: seq<int>)
    ensures |keys| == |hits| && forall i :: 0 <= i < |hits| ==> keys[i] == q.Key(hits[i])
  {
    seq(|hits|, i requires 0 <= i < |hits| => q.Key(hits[i]))
  }

  /** One shard's answer: its own `limit` best matches, ties cut arbitrarily. */
  ghost predicate ShardAnswers(docs: seq<Doc>, q: Query, s: ShardId, hits: seq<Doc>) {
    && multiset(hits) <= multiset(InShard(docs, s)) && (forall d :: d in hits ==> q.Matches(d))
    && IsTop(KeysOf(hits, q), multiset(MatchKeys(InShard(docs, s), q)), q.limit)
  }

  /** All matching keys of a list of shards. */
  function KeysIn(docs: seq<Doc>, q: Query, shards: seq<ShardId>): multiset<int> {
    if shards == [] then multiset{}
    else multiset(MatchKeys(InShard(docs, shards[0]), q)) + KeysIn(docs, q, shards[1..])
  }

  function Once(d: Doc, q: Query): multiset<int> {
    if q.Matches(d) then multiset{q.Key(d)} else multiset{}
  }

  /** One more document changes one shard's keys, its own. */
  lemma OneShardMore(docs: seq<Doc>, q: Query, s: ShardId)
    requires docs != []
    ensures multiset(MatchKeys(InShard(docs, s), q)) == multiset(MatchKeys(InShard(docs[1..], s), q))
              + (if FromTimestamp(docs[0].createdAt) == s then Once(docs[0], q) else multiset{})
  {
    if FromTimestamp(docs[0].createdAt) == s {
      OneMoreKey(docs[0], InShard(docs[1..], s), q);
    }
  }

  /** One more document adds its key once to a list of distinct shards that has its own. */
  lemma {:induction false} OneMoreDoc(docs: seq<Doc>, q: Query, shards: seq<ShardId>)
    requires docs != [] && NoRepeats(shards)
    ensures KeysIn(docs, q, shards) == KeysIn(docs[1..], q, shards)
              + (if FromTimestamp(docs[0].createdAt) in shards then Once(docs[0], q) else multiset{})
    decreases |shards|
  {
    if shards != [] {
      var first, rest, s := shards[0], shards[1..], FromTimestamp(docs[0].createdAt);
      OneMoreDoc(docs, q, rest);
      OneShardMore(docs, q, first);
      assert s in shards <==> s == first || s in rest by { assert shards == [first] + rest; }
      assert first !in rest;
    }
  }

  lemma OneMoreKey(d: Doc, docs: seq<Doc>, q: Query)
    ensures multiset(MatchKeys([d] + docs, q)) == Once(d, q) + multiset(MatchKeys(docs, q))
  {
    assert ([d] + docs)[1..] == docs;
  }

  lemma {:induction false} NoDocsNoKeys(q: Query, shards: seq<ShardId>)
    ensures KeysIn([], q, shards) == multiset{}
  {
    if shards != [] {
      NoDocsNoKeys(q, shards[1..]);
    }
  }

  /** The planned shards hold every match of the corpus, each exactly once. */
  lemma {:induction false} PlannedHoldAll(docs: seq<Doc>, q: Query, planned: seq<ShardId>)
    requires NoRepeats(planned)
    requires forall d :: q.Matches(d) ==> FromTimestamp(d.createdAt) in planned
    ensures KeysIn(docs, q, planned) == multiset(MatchKeys(docs, q))
  {
    if docs == [] {
      NoDocsNoKeys(q, planned);
    } else {
      PlannedHoldAll(docs[1..], q, planned);
      OneMoreDoc(docs, q, planned);
      assert docs == [docs[0]] + docs[1..];
      OneMoreKey(docs[0], docs[1..], q);
    }
  }

  lemma MonthsAreDistinct(planned: seq<ShardId>, first: ShardId, last: ShardId)
    requires MonthsBetween(planned, first, last)
    ensures NoRepeats(planned)
  {
  }

  // ----- Workers --------------------------------------------------------------------------

  function Flatten(workers: seq<seq<ShardId>>): seq<ShardId> {
    if workers == [] then [] else workers[0] + Flatten(workers[1..])
  }

  lemma {:induction false} KeysInPicks(docs: seq<Doc>, q: Query, shards: seq<ShardId>, j: nat)
    requires j < |shards|
    ensures KeysIn(docs, q, shards)
              == multiset(MatchKeys(InShard(docs, shards[j]), q)) + KeysIn(docs, q, shards[..j] + shards[j + 1..])
    decreases j
  {
    if j == 0 {
      assert shards[..0] + shards[1..] == shards[1..];
    } else {
      KeysInPicks(docs, q, shards[1..], j - 1);
      var without := shards[..j] + shards[j + 1..];
      assert without[0] == shards[0];
      assert without[1..] == shards[1..][..j - 1] + shards[1..][j..];
    }
  }

  lemma TakeOut(b: seq<ShardId>, j: nat)
    requires j < |b|
    ensures multiset(b[..j] + b[j + 1..]) == multiset(b) - multiset{b[j]}
  {
    assert b == b[..j] + [b[j]] + b[j + 1..];
  }

  lemma TakeFirst(a: seq<ShardId>)
    requires a != []
    ensures multiset(a[1..]) == multiset(a) - multiset{a[0]} && a[0] in multiset(a)
  {
    assert a == [a[0]] + a[1..];
  }

  lemma FindSame(a: seq<ShardId>, b: seq<ShardId>) returns (j: nat)
    requires multiset(a) == multiset(b) && a != []
    ensures j < |b| && b[j] == a[0] && multiset(a[1..]) == multiset(b[..j] + b[j + 1..])
  {
    TakeFirst(a);
    j :| 0 <= j < |b| && b[j] == a[0];
    TakeOut(b, j);
  }

  /** However the shards are dealt to workers, the same keys are gathered. */
  lemma {:induction false} DealingIsIrrelevant(docs: seq<Doc>, q: Query, a: seq<ShardId>, b: seq<ShardId>)
    requires multiset(a) == multiset(b)
    ensures KeysIn(docs, q, a) == KeysIn(docs, q, b)
    decreases |a|
  {
    if a == [] {
      assert b == [] by { assert |multiset(b)| == 0; }
    } else {
      var j := FindSame(a, b);
      DealingIsIrrelevant(docs, q, a[1..], b[..j] + b[j + 1..]);
      KeysInPicks(docs, q, b, j);
    }
  }

  /** All hits gathered over a list of shards. */
  function Gathered(answer: ShardId -> seq<Doc>, shards: seq<ShardId>): seq<Doc> {
    if shards == [] then [] else answer(shards[0]) + Gathered(answer, shards[1..])
  }

  lemma KeysOfConcat(a: seq<Doc>, b: seq<Doc>, q: Query)
    ensures KeysOf(a + b, q) == KeysOf(a, q) + KeysOf(b, q)
  {
  }

  /** The top-k of the gathered hits is the top-k of everything the shards hold. */
  lemma {:induction false} GatheredSuffices(docs: seq<Doc>, q: Query, answer: ShardId -> seq<Doc>,
                                            shards: seq<ShardId>, t: seq<int>, rest: multiset<int>)
    requires forall s :: s in shards ==> ShardAnswers(docs, q, s, answer(s))
    requires IsTop(t, multiset(KeysOf(Gathered(answer, shards), q)) + rest, q.limit)
    ensures IsTop(t, KeysIn(docs, q, shards) + rest, q.limit)
    decreases |shards|
  {
    if shards == [] {
      assert KeysOf([], q) == [];
    } else {
      var top := KeysOf(answer(shards[0]), q);
      var a := multiset(MatchKeys(InShard(docs, shards[0]), q));
      var others := Gathered(answer, shards[1..]);
      KeysOfConcat(answer(shards[0]), others, q);
      assert multiset(KeysOf(Gathered(answer, shards), q)) + rest == multiset(top) + (multiset(KeysOf(others, q)) + rest);
      PartialTopSuffices(t, a, top, multiset(KeysOf(others, q)) + rest, q.limit);
      assert a + (multiset(KeysOf(others, q)) + rest) == multiset(KeysOf(others, q)) + (a + rest);
      GatheredSuffices(docs, q, answer, shards[1..], t, a + rest);
      assert KeysIn(docs, q, shards[1..]) + (a + rest) == KeysIn(docs, q, shards) + rest;
    }
  }

  // ----- The merge --------------------------------------------------------------------------

  /** The merge order: key descending, and for metadata queries id ascending among equals. */
  predicate Before(q: Query, a: Doc, b: Doc) {
    q.Key(a) > q.Key(b) || (q.Key(a) == q.Key(b) && (q.ranking.ByScore? || a.id <= b.id))
  }

  function InsertHit(q: Query, d: Doc, hits: seq<Doc>): seq<Doc> {
    if hits == [] || Before(q, d, hits[0]) then [d] + hits else [hits[0]] + InsertHit(q, d, hits[1..])
  }

  function SortHits(q: Query, hits: seq<Doc>): seq<Doc> {
    if hits == [] then [] else InsertHit(q, hits[0], SortHits(q, hits[1..]))
  }

  lemma KeysCons(d: Doc, hits: seq<Doc>, q: Query)
    ensures KeysOf([d] + hits, q) == [q.Key(d)] + KeysOf(hits, q)
  {
  }

  lemma KeysTail(hits: seq<Doc>, q: Query)
    requires hits != []
    ensures KeysOf(hits, q)[1..] == KeysOf(hits[1..], q)
  {
  }

  /** On keys, the merge's insertion is plain insertion into a descending list. */
  lemma {:induction false} InsertHitKeys(q: Query, d: Doc, hits: seq<Doc>)
    requires Desc(KeysOf(hits, q))
    ensures KeysOf(InsertHit(q, d, hits), q) == Insert(q.Key(d), KeysOf(hits, q))
  {
    var keys, x := KeysOf(hits, q), q.Key(d);
    KeysCons(d, hits, q);
    if hits != [] && !Before(q, d, hits[0]) {
      var tail := hits[1..];
      KeysTail(hits, q);
      InsertHitKeys(q, d, tail);
      KeysCons(hits[0], InsertHit(q, d, tail), q);
      if x == keys[0] {
        assert Insert(x, keys[1..]) == [x] + keys[1..] by { assert |keys| > 1 ==> keys[0] >= keys[1]; }
        assert keys == [keys[0]] + keys[1..];
        assert [x] + ([x] + keys[1..]) == [x] + keys;
      }
    }
  }

  lemma {:induction false} SortHitsKeys(q: Query, hits: seq<Doc>)
    ensures KeysOf(SortHits(q, hits), q) == Sorted(KeysOf(hits, q))
  {
    if hits != [] {
      KeysTail(hits, q);
      SortHitsKeys(q, hits[1..]);
      SortedIsDesc(KeysOf(hits[1..], q));
      InsertHitKeys(q, hits[0], SortHits(q, hits[1..]));
    }
  }

  lemma {:induction false} InsertHitElements(q: Query, d: Doc, hits: seq<Doc>)
    ensures multiset(InsertHit(q, d, hits)) == multiset{d} + multiset(hits)
  {
    if hits != [] && !Before(q, d, hits[0]) {
      InsertHitElements(q, d, hits[1..]);
      assert hits == [hits[0]] + hits[1..];
    }
  }

  lemma {:induction false} SortHitsElements(q: Query, hits: seq<Doc>)
    ensures multiset(SortHits(q, hits)) == multiset(hits)
  {
    if hits != [] {
      SortHitsElements(q, hits[1..]);
      InsertHitElements(q, hits[0], SortHits(q, hits[1..]));
      assert hits == [hits[0]] + hits[1..];
    }
  }

  lemma TruncatedIsTop(q: Query, hits: seq<Doc>)
    ensures var sorted := SortHits(q, hits);
      IsTop(KeysOf(sorted[..Min(q.limit, |sorted|)], q), multiset(KeysOf(hits, q)), q.limit)
  {
    var sorted := SortHits(q, hits);
    SortHitsKeys(q, hits);
    SortedIsDesc(KeysOf(hits, q));
    var n := Min(q.limit, |sorted|);
    TruncateIsTop(KeysOf(sorted, q), q.limit);
    assert KeysOf(sorted[..n], q) == KeysOf(sorted, q)[..n];
  }

  // ----- What a caller sees -----------------------------------------------------------------

  /** The documents that satisfy the clauses within the time range, in corpus order. */
  function Satisfying(docs: seq<Doc>, q: Query): seq<Doc> {
    if docs == [] then []
    else if q.clauses(docs[0]) && q.since <= docs[0].createdAt < q.until then [docs[0]] + Satisfying(docs[1..], q)
    else Satisfying(docs[1..], q)
  }

  lemma {:induction false} MatchKeysAre(docs: seq<Doc>, q: Query)
    ensures MatchKeys(docs, q) == KeysOf(Satisfying(docs, q), q)
  {
    if docs != [] {
      MatchKeysAre(docs[1..], q);
      KeysCons(docs[0], Satisfying(docs[1..], q), q);
    }
  }

  lemma {:induction false} SatisfyingCount(docs: seq<Doc>, q: Query, d: Doc)
    ensures multiset(Satisfying(docs, q))[d] ==
      if q.clauses(d) && q.since <= d.createdAt < q.until then multiset(docs)[d] else 0
  {
    if docs != [] {
      SatisfyingCount(docs[1..], q, d);
      assert docs == [docs[0]] + docs[1..];
    }
  }

  lemma KeysConcat(a: seq<Doc>, b: seq<Doc>, q: Query)
    ensures multiset(KeysOf(a + b, q)) == multiset(KeysOf(a, q)) + multiset(KeysOf(b, q))
  {
    assert KeysOf(a + b, q) == KeysOf(a, q) + KeysOf(b, q);
  }

  lemma RemoveOne(s: seq<Doc>, i: nat)
    requires i < |s|
    ensures multiset(s[..i] + s[i + 1..]) == multiset(s) - multiset{s[i]}
  {
    assert s == s[..i] + [s[i]] + s[i + 1..];
  }

  lemma KeyTakenOut(all: seq<Doc>, i: nat, q: Query)
    requires i < |all|
    ensures multiset(KeysOf(all, q)) == multiset{q.Key(all[i])} + multiset(KeysOf(all[..i] + all[i + 1..], q))
  {
    var head, mid, tail := all[..i], [all[i]], all[i + 1..];
    assert all == head + (mid + tail);
    KeysConcat(head, mid + tail, q);
    KeysConcat(mid, tail, q);
    KeysConcat(head, tail, q);
    assert KeysOf(mid, q) == [q.Key(all[i])];
  }

  lemma SharedDocument(hits: seq<Doc>, all: seq<Doc>) returns (i: nat)
    requires hits != [] && multiset(hits) <= multiset(all)
    ensures i < |all| && all[i] == hits[0]
    ensures multiset(hits[1..]) <= multiset(all[..i] + all[i + 1..])
    ensures multiset(all[..i] + all[i + 1..]) - multiset(hits[1..]) == multiset(all) - multiset(hits)
  {
    assert hits == [hits[0]] + hits[1..];
    assert hits[0] in multiset(all);
    i :| 0 <= i < |all| && all[i] == hits[0];
    RemoveOne(all, i);
  }

  /** Taking some documents out of a list takes their keys out. */
  lemma {:induction false} KeysLeft(hits: seq<Doc>, all: seq<Doc>, q: Query) returns (rest: seq<Doc>)
    requires multiset(hits) <= multiset(all)
    ensures multiset(rest) == multiset(all) - multiset(hits)
    ensures multiset(KeysOf(all, q)) == multiset(KeysOf(hits, q)) + multiset(KeysOf(rest, q))
    decreases |hits|
  {
    if hits == [] {
      rest := all;
      assert KeysOf(hits, q) == [];
    } else {
      var i := SharedDocument(hits, all);
      rest := KeysLeft(hits[1..], all[..i] + all[i + 1..], q);
      KeyTakenOut(all, i, q);
      HeadKey(hits, q);
      SameKeyBoth(q.Key(hits[0]), multiset(KeysOf(all, q)), multiset(KeysOf(hits, q)), multiset(KeysOf(rest, q)),
                  multiset(KeysOf(all[..i] + all[i + 1..], q)), multiset(KeysOf(hits[1..], q)));
    }
  }

  lemma HeadKey(hits: seq<Doc>, q: Query)
    requires hits != []
    ensures multiset(KeysOf(hits, q)) == multiset{q.Key(hits[0])} + multiset(KeysOf(hits[1..], q))
  {
    KeyTakenOut(hits, 0, q);
    assert hits[..0] + hits[1..] == hits[1..];
  }

  lemma SameKeyBoth(k: int, a: multiset<int>, h: multiset<int>, r: multiset<int>, a': multiset<int>, h': multiset<int>)
    requires a == multiset{k} + a' && h == multiset{k} + h' && a' == h' + r
    ensures a == h + r
  {
  }

  /** Every satisfying document left out ranks no higher than any hit. */
  lemma LeftOutRankLower(docs: seq<Doc>, q: Query, hits: seq<Doc>, d: Doc, i: nat)
    requires IsTop(KeysOf(hits, q), multiset(MatchKeys(docs, q)), q.limit)
    requires multiset(hits) <= multiset(Satisfying(docs, q)) && i < |hits|
    requires d in multiset(Satisfying(docs, q)) - multiset(hits)
    ensures if q.ranking.ByScore? then d.score <= hits[i].score else d.createdAt <= hits[i].createdAt
  {
    MatchKeysAre(docs, q);
    var rest := KeysLeft(hits, Satisfying(docs, q), q);
    assert d in multiset(rest);
    var k :| 0 <= k < |rest| && rest[k] == d;
    assert KeysOf(rest, q)[k] == q.Key(d);
    assert q.Key(d) in multiset(KeysOf(rest, q));
    assert q.Key(d) in multiset(MatchKeys(docs, q)) - multiset(KeysOf(hits, q));
    assert q.Key(d) <= KeysOf(hits, q)[i];
  }

  /** Hits in the order a caller is promised. */
  ghost predicate InOrder(q: Query, hits: seq<Doc>) {
    forall i, j :: 0 <= i < j < |hits| ==>
      if q.ranking.ByScore? then hits[i].score >= hits[j].score
      else hits[i].createdAt > hits[j].createdAt || (hits[i].createdAt == hits[j].createdAt && hits[i].id <= hits[j].id)
  }

  ghost predicate Sorts(q: Query, hits: seq<Doc>) {
    forall i, j :: 0 <= i < j < |hits| ==> Before(q, hits[i], hits[j])
  }

  lemma SortsCons(q: Query, d: Doc, hits: seq<Doc>)
    requires Sorts(q, hits) && forall x :: x in hits ==> Before(q, d, x)
    ensures Sorts(q, [d] + hits)
  {
    var t := [d] + hits;
    forall i, j | 0 <= i < j < |t| ensures Before(q, t[i], t[j]) {
      assert t[j] == hits[j - 1] && hits[j - 1] in hits;
    }
  }

  lemma {:induction false} InsertHitSorts(q: Query, d: Doc, hits: seq<Doc>)
    requires Sorts(q, hits)
    ensures Sorts(q, InsertHit(q, d, hits))
  {
    if hits == [] {
      SortsCons(q, d, hits);
    } else if Before(q, d, hits[0]) {
      forall x | x in hits ensures Before(q, d, x) {
        var i :| 0 <= i < |hits| && hits[i] == x;
        assert i == 0 || Before(q, hits[0], x);
      }
      SortsCons(q, d, hits);
    } else {
      var t := InsertHit(q, d, hits[1..]);
      InsertHitSorts(q, d, hits[1..]);
      InsertHitElements(q, d, hits[1..]);
      forall x | x in t ensures Before(q, hits[0], x) {
        assert x in multiset(t);
        assert x == d || x in hits[1..];
      }
      SortsCons(q, hits[0], t);
    }
  }

  lemma {:induction false} SortHitsSorts(q: Query, hits: seq<Doc>)
    ensures Sorts(q, SortHits(q, hits))
  {
    if hits != [] {
      SortHitsSorts(q, hits[1..]);
      InsertHitSorts(q, hits[0], SortHits(q, hits[1..]));
    }
  }

  lemma SortedIsInOrder(q: Query, hits: seq<Doc>)
    requires Sorts(q, hits)
    ensures InOrder(q, hits)
  {
    forall i, j | 0 <= i < j < |hits|
      ensures if q.ranking.ByScore? then hits[i].score >= hits[j].score
        else hits[i].createdAt > hits[j].createdAt || (hits[i].createdAt == hits[j].createdAt && hits[i].id <= hits[j].id)
    {
      assert Before(q, hits[i], hits[j]);
    }
  }

  /** What the search promises, in the fields of the documents. */
  ghost predicate IsBest(docs: seq<Doc>, q: Query, hits: seq<Doc>) {
    && multiset(hits) <= multiset(Satisfying(docs, q))
    && |hits| == Min(q.limit, |Satisfying(docs, q)|)
    && InOrder(q, hits)
    && forall d, i :: d in multiset(Satisfying(docs, q)) - multiset(hits) && 0 <= i < |hits| ==>
         if q.ranking.ByScore? then d.score <= hits[i].score else d.createdAt <= hits[i].createdAt
  }

  lemma HitsSatisfy(docs: seq<Doc>, q: Query, hits: seq<Doc>)
    requires multiset(hits) <= multiset(docs) && forall d :: d in hits ==> q.Matches(d)
    ensures multiset(hits) <= multiset(Satisfying(docs, q))
  {
    forall d ensures multiset(hits)[d] <= multiset(Satisfying(docs, q))[d] {
      SatisfyingCount(docs, q, d);
      assert multiset(hits)[d] > 0 ==> d in hits;
    }
  }

  lemma TopIsBest(docs: seq<Doc>, q: Query, hits: seq<Doc>)
    requires IsTop(KeysOf(hits, q), multiset(MatchKeys(docs, q)), q.limit) && InOrder(q, hits)
    requires multiset(hits) <= multiset(docs) && forall d :: d in hits ==> q.Matches(d)
    ensures IsBest(docs, q, hits)
  {
    HitsSatisfy(docs, q, hits);
    MatchKeysAre(docs, q);
    assert |multiset(KeysOf(Satisfying(docs, q), q))| == |Satisfying(docs, q)|;
    forall d, i | d in multiset(Satisfying(docs, q)) - multiset(hits) && 0 <= i < |hits|
      ensures if q.ranking.ByScore? then d.score <= hits[i].score else d.createdAt <= hits[i].createdAt
    {
      LeftOutRankLower(docs, q, hits, d, i);
    }
  }

  /** The refinement, for any dealing of the planned shards to workers. */
  lemma FanOutRefinesScan(docs: seq<Doc>, q: Query, planned: seq<ShardId>, dealt: seq<ShardId>,
                          answer: ShardId -> seq<Doc>, t: seq<int>)
    requires MonthsBetween(planned, FromTimestamp(q.since), LastShard(Some(q.until), 0))
    requires multiset(dealt) == multiset(planned)
    requires forall s :: ShardAnswers(docs, q, s, answer(s))
    requires IsTop(t, multiset(KeysOf(Gathered(answer, dealt), q)), q.limit)
    ensures t == NaiveScan(docs, q) && IsTop(t, multiset(MatchKeys(docs, q)), q.limit)
  {
    var all := multiset(MatchKeys(docs, q));
    assert multiset(KeysOf(Gathered(answer, dealt), q)) + multiset{} == multiset(KeysOf(Gathered(answer, dealt), q));
    GatheredSuffices(docs, q, answer, dealt, t, multiset{});
    DealingIsIrrelevant(docs, q, dealt, planned);
    MonthsAreDistinct(planned, FromTimestamp(q.since), LastShard(Some(q.until), 0));
    forall d | q.Matches(d) ensures FromTimestamp(d.createdAt) in planned {
      TouchedIsPlanned(q.since, q.until, planned, d.createdAt);
    }
    PlannedHoldAll(docs, q, planned);
    assert KeysIn(docs, q, dealt) + multiset{} == all;
    var sorted := Sorted(MatchKeys(docs, q));
    SortedIsDesc(MatchKeys(docs, q));
    TruncateIsTop(sorted, q.limit);
    TopIsUnique(t, NaiveScan(docs, q), all, q.limit);
  }

  /**
   `search`. `deal` is the outcome of the workers racing for shards, `answer` each shard's
   collector. The keys returned are exactly those of a naive scan of the whole corpus: text hits
   descend by score, metadata hits by time and then by id, and no satisfying document that is left
   out would rank above a hit.
   */
  method Search(ghost docs: seq<Doc>, q: Query, deal: seq<ShardId> -> seq<seq<ShardId>>, answer: ShardId -> seq<Doc>)
    returns (hits: seq<Doc>)
    requires forall planned :: multiset(Flatten(deal(planned))) == multiset(planned)
    requires forall s :: ShardAnswers(docs, q, s, answer(s))
    ensures KeysOf(hits, q) == NaiveScan(docs, q)
    ensures multiset(hits) <= multiset(docs) && forall d :: d in hits ==> q.clauses(d) && q.since <= d.createdAt < q.until
    ensures IsBest(docs, q, hits)
  {
    if q.limit == 0 {
      assert KeysOf([], q) == [];
      return [];
    }
    var planned := ShardsInRange(Some(q.since), Some(q.until), ShardId(1970, 1), 0);
    var workers := deal(planned);
    ghost var dealt := Flatten(workers);
    var gathered := FanOut(workers, answer);
    hits := Merge(q, gathered);
    MonthsAreDistinct(planned, FromTimestamp(q.since), LastShard(Some(q.until), 0));
    GatheredFromDocs(docs, q, answer, planned, dealt);
    assert forall d :: d in hits ==> d in multiset(hits) && d in multiset(gathered);
    FanOutRefinesScan(docs, q, planned, dealt, answer, KeysOf(hits, q));
    TopIsBest(docs, q, hits);
  }

  /** Sort what the workers brought back and keep the first `limit`. */
  method Merge(q: Query, gathered: seq<Doc>) returns (hits: seq<Doc>)
    ensures IsTop(KeysOf(hits, q), multiset(KeysOf(gathered, q)), q.limit)
    ensures multiset(hits) <= multiset(gathered) && InOrder(q, hits)
  {
    var sorted := SortHits(q, gathered);
    hits := sorted[..Min(q.limit, |sorted|)];
    SortHitsSorts(q, gathered);
    SortedIsInOrder(q, hits);
    TruncatedIsTop(q, gathered);
    SortHitsElements(q, gathered);
    assert sorted == hits + sorted[|hits|..];
  }

  /** A document is in its own shard as often as in the corpus, and in no other. */
  lemma {:induction false} InShardCount(docs: seq<Doc>, s: ShardId, d: Doc)
    ensures multiset(InShard(docs, s))[d] == if FromTimestamp(d.createdAt) == s then multiset(docs)[d] else 0
  {
    if docs != [] {
      InShardCount(docs[1..], s, d);
      assert docs == [docs[0]] + docs[1..];
    }
  }

  lemma AnswerCount(docs: seq<Doc>, q: Query, s: ShardId, hits: seq<Doc>, d: Doc)
    requires ShardAnswers(docs, q, s, hits)
    ensures multiset(hits)[d] <= if FromTimestamp(d.createdAt) == s then multiset(docs)[d] else 0
  {
    InShardCount(docs, s, d);
  }

  lemma GatheredHead(answer: ShardId -> seq<Doc>, shards: seq<ShardId>, d: Doc)
    requires shards != []
    ensures multiset(Gathered(answer, shards))[d] ==
      multiset(answer(shards[0]))[d] + multiset(Gathered(answer, shards[1..]))[d]
  {
    assert Gathered(answer, shards) == answer(shards[0]) + Gathered(answer, shards[1..]);
  }

  lemma {:induction false} GatheredCount(docs: seq<Doc>, q: Query, answer: ShardId -> seq<Doc>, shards: seq<ShardId>, d: Doc)
    requires forall s :: ShardAnswers(docs, q, s, answer(s))
    requires multiset(shards)[FromTimestamp(d.createdAt)] <= 1
    ensures multiset(Gathered(answer, shards))[d] <=
      if FromTimestamp(d.createdAt) in shards then multiset(docs)[d] else 0
    decreases |shards|
  {
    if shards != [] {
      assert shards == [shards[0]] + shards[1..];
      GatheredCount(docs, q, answer, shards[1..], d);
      assert ShardAnswers(docs, q, shards[0], answer(shards[0]));
      AnswerCount(docs, q, shards[0], answer(shards[0]), d);
      GatheredHead(answer, shards, d);
    }
  }

  lemma {:induction false} AtMostOnce(shards: seq<ShardId>, s: ShardId)
    requires NoRepeats(shards)
    ensures multiset(shards)[s] <= 1
    decreases |shards|
  {
    if shards != [] {
      AtMostOnce(shards[1..], s);
      assert shards == [shards[0]] + shards[1..];
      assert shards[0] !in shards[1..];
    }
  }

  lemma {:induction false} GatheredMatch(docs: seq<Doc>, q: Query, answer: ShardId -> seq<Doc>, shards: seq<ShardId>)
    requires forall s :: ShardAnswers(docs, q, s, answer(s))
    ensures forall d :: d in Gathered(answer, shards) ==> q.Matches(d)
    decreases |shards|
  {
    if shards != [] {
      GatheredMatch(docs, q, answer, shards[1..]);
      assert ShardAnswers(docs, q, shards[0], answer(shards[0]));
    }
  }

  /** No document is gathered more often than the corpus has it, however the shards were dealt. */
  lemma GatheredFromDocs(docs: seq<Doc>, q: Query, answer: ShardId -> seq<Doc>, planned: seq<ShardId>, dealt: seq<ShardId>)
    requires forall s :: ShardAnswers(docs, q, s, answer(s))
    requires NoRepeats(planned) && multiset(dealt) == multiset(planned)
    ensures multiset(Gathered(answer, dealt)) <= multiset(docs)
    ensures forall d :: d in Gathered(answer, dealt) ==> q.Matches(d)
  {
    GatheredMatch(docs, q, answer, dealt);
    forall d ensures multiset(Gathered(answer, dealt))[d] <= multiset(docs)[d] {
      AtMostOnce(planned, FromTimestamp(d.createdAt));
      GatheredCount(docs, q, answer, dealt, d);
    }
  }

  /** Every worker's hits, worker by worker. */
  method FanOut(workers: seq<seq<ShardId>>, answer: ShardId -> seq<Doc>) returns (hits: seq<Doc>)
    ensures hits == Gathered(answer, Flatten(workers))
  {
    hits := [];
    for w := 0 to |workers|
      invariant hits + Gathered(answer, Flatten(workers[w..])) == Gathered(answer, Flatten(workers))
    {
      var local := Worker(workers[w], answer);
      assert workers[w..] == [workers[w]] + workers[w + 1..];
      GatheredConcat(answer, workers[w], Flatten(workers[w + 1..]));
      hits := hits + local;
    }
  }

  method Worker(shards: seq<ShardId>, answer: ShardId -> seq<Doc>) returns (local: seq<Doc>)
    ensures local == Gathered(answer, shards)
  {
    local := [];
    for i := 0 to |shards|
      invariant local + Gathered(answer, shards[i..]) == Gathered(answer, shards)
    {
      assert shards[i..] == [shards[i]] + shards[i + 1..];
      local := local + answer(shards[i]);
    }
  }

  lemma {:induction false} GatheredConcat(answer: ShardId -> seq<Doc>, a: seq<ShardId>, b: seq<ShardId>)
    ensures Gathered(answer, a + b) == Gathered(answer, a) + Gathered(answer, b)
  {
    if a == [] {
      assert a + b == b;
    } else {
      assert (a + b)[1..] == a[1..] + b;
      GatheredConcat(answer, a[1..], b);
    }
  }
}
