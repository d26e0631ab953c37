/**
 The usage cut: which advertised relays stay in scope when only those carrying the top
 `percentile` of advertised usage are scraped.
 */
module UsageCut {
  import opened Prelude

  datatype Relay = Relay(url: string, sources: nat, nip11: Option<bool>)

  // ----- Ranking -------------------------------------------------------------------------------------

  /** Lexicographic order of urls. */
  predicate Less(a: string, b: string) {
    b != [] && (a == [] || a[0] < b[0] || (a[0] == b[0] && Less(a[1..], b[1..])))
  }

  /** More advertisers first, then by url. */
  predicate Above(a: Relay, b: Relay) {
    a.sources > b.sources || (a.sources == b.sources && Less(a.url, b.url))
  }

  lemma {:induction false} LessIsLinear(a: string, b: string)
    ensures Less(a, b) || Less(b, a) || a == b
    ensures !(Less(a, b) && Less(b, a)) && (a == b ==> !Less(a, b))
  {
    if a != [] && b != [] && a[0] == b[0] {
      LessIsLinear(a[1..], b[1..]);
      assert a == [a[0]] + a[1..] && b == [b[0]] + b[1..];
    }
  }

  /** At the first difference the smaller character, or the end of the string, comes first. */
  lemma {:induction false} LessAtFirstDifference(a: string, b: string, k: nat)
    requires k <= |a| && k <= |b| && a[..k] == b[..k]
    requires k < |a| && k < |b| ==> a[k] != b[k]
    ensures Less(a, b) <==> k < |b| && (k == |a| || a[k] < b[k])
    decreases k
  {
    if k > 0 {
      assert a[0] == a[..k][0] == b[..k][0] == b[0];
      assert a[1..][..k - 1] == a[..k][1..] && b[1..][..k - 1] == b[..k][1..];
      LessAtFirstDifference(a[1..], b[1..], k - 1);
    }
  }

  lemma {:induction false} LessIsTransitive(a: string, b: string, c: string)
    requires Less(a, b) && Less(b, c)
    ensures Less(a, c)
  {
    if a != [] && a[0] == b[0] == c[0] {
      LessIsTransitive(a[1..], b[1..], c[1..]);
    }
  }

  lemma AboveIsTransitive(a: Relay, b: Relay, c: Relay)
    requires Above(a, b) && Above(b, c)
    ensures Above(a, c)
  {
    if a.sources == c.sources {
      LessIsTransitive(a.url, b.url, c.url);
    }
  }

  lemma AboveIsLinear(a: Relay, b: Relay)
    requires a.url != b.url
    ensures Above(a, b) <==> !Above(b, a)
  {
    LessIsLinear(a.url, b.url);
  }

  lemma NotAboveItself(a: Relay)
    ensures !Above(a, a)
  {
    LessIsLinear(a.url, a.url);
  }

  ghost predicate Descends(s: seq<Relay>) {
    forall i, j :: 0 <= i < j < |s| ==> Above(s[i], s[j])
  }

  ghost predicate DistinctUrls(s: seq<Relay>) {
    forall i, j :: 0 <= i < j < |s| ==> s[i].url != s[j].url
  }

  function Insert(r: Relay, s: seq<Relay>): seq<Relay> {
    if s == [] || !Above(s[0], r) then [r] + s else [s[0]] + Insert(r, s[1..])
  }

  /** The stable sort by rank. */
  function Ranked(s: seq<Relay>): seq<Relay> {
    if s == [] then [] else Insert(s[0], Ranked(s[1..]))
  }

  lemma {:induction false} InsertKeepsElements(r: Relay, s: seq<Relay>)
    ensures multiset(Insert(r, s)) == multiset(s) + multiset{r}
  {
    if s != [] && Above(s[0], r) {
      InsertKeepsElements(r, s[1..]);
      assert s == [s[0]] + s[1..];
    }
  }

  lemma DescendsCons(r: Relay, s: seq<Relay>)
    requires Descends(s) && forall x :: x in s ==> Above(r, x)
    ensures Descends([r] + s)
  {
    var t := [r] + s;
    forall i, j | 0 <= i < j < |t| ensures Above(t[i], t[j]) {
      assert t[j] == s[j - 1] && s[j - 1] in s;
    }
  }

  lemma HeadAboveRest(r: Relay, s: seq<Relay>)
    requires Descends(s) && s != [] && Above(r, s[0])
    ensures forall x :: x in s ==> Above(r, x)
  {
    forall x | x in s ensures Above(r, x) {
      var i :| 0 <= i < |s| && s[i] == x;
      if i > 0 {
        AboveIsTransitive(r, s[0], x);
      }
    }
  }

  lemma {:induction false} InsertKeepsOrder(r: Relay, s: seq<Relay>)
    requires Descends(s) && forall x :: x in s ==> x.url != r.url
    ensures Descends(Insert(r, s))
  {
    if s != [] {
      AboveIsLinear(s[0], r);
      if Above(s[0], r) {
        InsertKeepsOrder(r, s[1..]);
        InsertKeepsElements(r, s[1..]);
        var t := Insert(r, s[1..]);
        forall x | x in t ensures Above(s[0], x) {
          assert x in multiset(t);
          assert x == r || x in s[1..];
        }
        DescendsCons(s[0], t);
      } else {
        HeadAboveRest(r, s);
        DescendsCons(r, s);
      }
    }
  }

  lemma {:induction false} RankedDescends(s: seq<Relay>)
    requires DistinctUrls(s)
    ensures Descends(Ranked(s)) && multiset(Ranked(s)) == multiset(s)
  {
    if s != [] {
      RankedDescends(s[1..]);
      var t := Ranked(s[1..]);
      OtherUrls(s, t);
      InsertKeepsOrder(s[0], t);
      InsertKeepsElements(s[0], t);
      assert s == [s[0]] + s[1..];
    }
  }

  lemma OtherUrls(s: seq<Relay>, t: seq<Relay>)
    requires DistinctUrls(s) && s != [] && multiset(t) == multiset(s[1..])
    ensures forall x :: x in t ==> x.url != s[0].url
  {
    forall x | x in t ensures x.url != s[0].url {
      assert x in multiset(t);
      assert x in s[1..];
    }
  }

  // ----- Sums ----------------------------------------------------------------------------------------

  function Sum(s: seq<Relay>, f: Relay -> nat): nat {
    if s == [] then 0 else f(s[0]) + Sum(s[1..], f)
  }

  function Sources(): Relay -> nat { (x: Relay) => x.sources }

  /** Counts, and weighs, what ranks above `r`. */
  function CountAbove(r: Relay): Relay -> nat { x => if Above(x, r) then 1 else 0 }

  function WeightAbove(r: Relay): Relay -> nat { x => if Above(x, r) then x.sources else 0 }

  lemma {:induction false} SumConcat(a: seq<Relay>, b: seq<Relay>, f: Relay -> nat)
    ensures Sum(a + b, f) == Sum(a, f) + Sum(b, f)
  {
    if a == [] {
      assert a + b == b;
    } else {
      SumConcat(a[1..], b, f);
      assert (a + b)[1..] == a[1..] + b;
    }
  }

  /** A sum does not depend on the order of its terms. */
  lemma {:induction false} SumPermutes(a: seq<Relay>, b: seq<Relay>, f: Relay -> nat)
    requires multiset(a) == multiset(b)
    ensures Sum(a, f) == Sum(b, f)
  {
    if a == [] {
      assert |multiset(b)| == 0;
      assert b == [];
    } else {
      assert a == [a[0]] + a[1..];
      assert a[0] in multiset(b);
      var i :| 0 <= i < |b| && b[i] == a[0];
      var rest := b[..i] + b[i + 1..];
      TakeOut(a, b, i);
      SumPermutes(a[1..], rest, f);
      SumConcat(b[..i], b[i + 1..], f);
      SumConcat(b[..i], b[i..], f);
      assert b[..i] + b[i..] == b && b[i..][1..] == b[i + 1..];
    }
  }

  lemma TakeOut(a: seq<Relay>, b: seq<Relay>, i: nat)
    requires a != [] && multiset(a) == multiset(b) && i < |b| && b[i] == a[0]
    ensures multiset(b[..i] + b[i + 1..]) == multiset(a[1..])
  {
    assert a == [a[0]] + a[1..];
    assert b == b[..i] + [b[i]] + b[i + 1..];
    assert multiset(b[..i] + b[i + 1..]) == multiset(b) - multiset{b[i]};
    assert multiset(a[1..]) == multiset(a) - multiset{b[i]};
  }

  lemma {:induction false} SumIsZero(s: seq<Relay>, f: Relay -> nat)
    ensures Sum(s, f) == 0 <==> forall x :: x in s ==> f(x) == 0
  {
    if s != [] {
      SumIsZero(s[1..], f);
      assert s == [s[0]] + s[1..];
    }
  }

  lemma {:induction false} SumAgrees(s: seq<Relay>, f: Relay -> nat, g: Relay -> nat)
    requires forall x :: x in s ==> f(x) == g(x)
    ensures Sum(s, f) == Sum(s, g)
  {
    if s != [] {
      SumAgrees(s[1..], f, g);
    }
  }

  lemma {:induction false} CountIsLength(s: seq<Relay>, f: Relay -> nat)
    requires forall x :: x in s ==> f(x) == 1
    ensures Sum(s, f) == |s|
  {
    if s != [] {
      CountIsLength(s[1..], f);
    }
  }

  // ----- The specification ---------------------------------------------------------------------------

  predicate IsRelay(r: Relay) { r.nip11 != Some(false) }

  function Retain(s: seq<Relay>): seq<Relay> {
    if s == [] then [] else (if IsRelay(s[0]) then [s[0]] else []) + Retain(s[1..])
  }

  function Total(s: seq<Relay>): nat { Sum(Retain(s), Sources()) }

  /** The weight the kept relays must reach; the product saturates at 64 bits. */
  function Want(total: nat, percentile: nat): nat { Min(total * percentile, U64_MAX) / 100 }

  /**
   Who stays, without naming any order of the input: everyone at 100% or when nobody advertises
   anything; otherwise the relays with fewer than `minKeep` above them, and those whose betters
   do not carry the wanted weight yet.
   */
  ghost predicate Keeps(s: seq<Relay>, percentile: nat, minKeep: nat, r: Relay) {
    && r in s && IsRelay(r)
    && (|| percentile >= 100 || Total(s) == 0
        || Sum(Retain(s), CountAbove(r)) < Max(minKeep, 1)
        || Sum(Retain(s), WeightAbove(r)) < Want(Total(s), percentile))
  }

  lemma {:induction false} RetainElements(s: seq<Relay>)
    ensures forall x :: multiset(Retain(s))[x] == if IsRelay(x) then multiset(s)[x] else 0
    ensures forall x :: x in Retain(s) <==> x in s && IsRelay(x)
  {
    if s != [] {
      RetainElements(s[1..]);
      assert s == [s[0]] + s[1..];
    }
  }

  lemma RetainPermutes(a: seq<Relay>, b: seq<Relay>)
    requires multiset(a) == multiset(b)
    ensures multiset(Retain(a)) == multiset(Retain(b))
  {
    RetainElements(a);
    RetainElements(b);
  }

  lemma {:induction false} RetainConcat(a: seq<Relay>, b: seq<Relay>)
    ensures Retain(a + b) == Retain(a) + Retain(b)
  {
    if a == [] {
      assert a + b == b;
    } else {
      RetainConcat(a[1..], b);
      assert (a + b)[1..] == a[1..] + b;
      var head := if IsRelay(a[0]) then [a[0]] else [];
      assert head + (Retain(a[1..]) + Retain(b)) == (head + Retain(a[1..])) + Retain(b);
    }
  }

  /** The kept set does not depend on the order of the input. */
  lemma OrderIsIrrelevant(a: seq<Relay>, b: seq<Relay>, percentile: nat, minKeep: nat, r: Relay)
    requires multiset(a) == multiset(b)
    ensures Keeps(a, percentile, minKeep, r) <==> Keeps(b, percentile, minKeep, r)
  {
    RetainPermutes(a, b);
    SumPermutes(Retain(a), Retain(b), Sources());
    SumPermutes(Retain(a), Retain(b), CountAbove(r));
    SumPermutes(Retain(a), Retain(b), WeightAbove(r));
    assert r in a <==> r in multiset(a);
    assert r in b <==> r in multiset(b);
  }

  lemma WantGrows(total: nat, more: nat, p: nat, q: nat)
    requires total <= more && p <= q
    ensures Want(total, p) <= Want(more, q)
  {
    assert total * p <= more * q by {
      assert total * p <= more * p;
      assert more * p <= more * q;
    }
  }

  /** The kept set only grows with the percentile. */
  lemma PercentileOnlyAdds(s: seq<Relay>, p: nat, q: nat, minKeep: nat, r: Relay)
    requires p <= q && Keeps(s, p, minKeep, r)
    ensures Keeps(s, q, minKeep, r)
  {
    WantGrows(Total(s), Total(s), p, q);
  }

  /** Entries that rank below a kept relay never push it out. */
  lemma LowerEntriesRemoveNothing(s: seq<Relay>, more: seq<Relay>, percentile: nat, minKeep: nat, r: Relay)
    requires Keeps(s, percentile, minKeep, r)
    requires forall x :: x in more && IsRelay(x) ==> !Above(x, r)
    ensures Keeps(s + more, percentile, minKeep, r)
  {
    RetainConcat(s, more);
    RetainElements(more);
    RetainElements(s);
    SumConcat(Retain(s), Retain(more), Sources());
    SumConcat(Retain(s), Retain(more), CountAbove(r));
    SumConcat(Retain(s), Retain(more), WeightAbove(r));
    SumIsZero(Retain(more), CountAbove(r));
    SumIsZero(Retain(more), WeightAbove(r));
    WantGrows(Total(s), Total(s + more), percentile, percentile);
    SumIsZero(Retain(s), Sources());
    SumIsZero(Retain(more), Sources());
    if Total(s) == 0 {
      assert Sources()(r) == 0;
      forall x | x in Retain(more) ensures Sources()(x) == 0 {
        assert !Above(x, r);
      }
    }
  }

  // ----- The cut -------------------------------------------------------------------------------------

  /** In a ranked list, what ranks above an entry is exactly what comes before it. */
  lemma AboveIsBefore(s: seq<Relay>, j: nat)
    requires Descends(s) && j < |s|
    ensures Sum(s, CountAbove(s[j])) == j && Sum(s, WeightAbove(s[j])) == Sum(s[..j], Sources())
  {
    var r := s[j];
    assert s == s[..j] + s[j..];
    SumConcat(s[..j], s[j..], CountAbove(r));
    SumConcat(s[..j], s[j..], WeightAbove(r));
    forall x | x in s[j..] ensures !Above(x, r) {
      var i :| j <= i < |s| && s[i] == x;
      NotAboveItself(r);
      if i > j && Above(x, r) {
        AboveIsTransitive(r, x, r);
      }
    }
    SumIsZero(s[j..], CountAbove(r));
    SumIsZero(s[j..], WeightAbove(r));
    CountIsLength(s[..j], CountAbove(r));
    SumAgrees(s[..j], WeightAbove(r), Sources());
  }

  /** The shortest non-empty prefix of `s` that carries `want`. */
  ghost predicate ShortestPrefix(s: seq<Relay>, want: nat, keep: nat) {
    && 1 <= keep <= |s| && Sum(s[..keep], Sources()) >= want
    && (keep > 1 ==> Sum(s[..keep - 1], Sources()) < want)
  }

  lemma PrefixesGrow(s: seq<Relay>, i: nat, j: nat)
    requires i <= j <= |s|
    ensures Sum(s[..i], Sources()) <= Sum(s[..j], Sources())
  {
    assert s[..j] == s[..i] + s[i..j];
    SumConcat(s[..i], s[i..j], Sources());
  }

  lemma ExtendPrefix(s: seq<Relay>, i: nat)
    requires i < |s|
    ensures Sum(s[..i + 1], Sources()) == Sum(s[..i], Sources()) + s[i].sources
  {
    assert s[..i + 1] == s[..i] + [s[i]];
    SumConcat(s[..i], [s[i]], Sources());
  }

  lemma InsidePrefix(s: seq<Relay>, want: nat, keep: nat, j: nat)
    requires ShortestPrefix(s, want, keep) && j < |s|
    ensures j < keep <==> j == 0 || Sum(s[..j], Sources()) < want
  {
    if j < keep {
      PrefixesGrow(s, j, keep - 1);
    } else {
      PrefixesGrow(s, keep, j);
    }
  }

  lemma SumOfRanked(s: seq<Relay>, f: Relay -> nat)
    requires DistinctUrls(s)
    ensures Sum(Ranked(s), f) == Sum(s, f)
  {
    RankedDescends(s);
    SumPermutes(Ranked(s), s, f);
  }

  lemma KeptAt(s: seq<Relay>, percentile: nat, minKeep: nat, keep: nat, j: nat)
    requires DistinctUrls(Retain(s)) && percentile < 100 && Total(s) > 0
    requires ShortestPrefix(Ranked(Retain(s)), Want(Total(s), percentile), keep)
    requires j < |Ranked(Retain(s))|
    ensures Keeps(s, percentile, minKeep, Ranked(Retain(s))[j]) <==> j < Max(keep, Max(minKeep, 1))
  {
    var ranked := Ranked(Retain(s));
    RankedDescends(Retain(s));
    assert ranked[j] in multiset(ranked);
    RetainElements(s);
    SumOfRanked(Retain(s), CountAbove(ranked[j]));
    SumOfRanked(Retain(s), WeightAbove(ranked[j]));
    AboveIsBefore(ranked, j);
    InsidePrefix(ranked, Want(Total(s), percentile), keep, j);
  }

  lemma CutIsKeeps(s: seq<Relay>, percentile: nat, minKeep: nat, keep: nat, kept: seq<Relay>)
    requires DistinctUrls(Retain(s)) && percentile < 100 && Total(s) > 0
    requires ShortestPrefix(Ranked(Retain(s)), Want(Total(s), percentile), keep)
    requires kept == Ranked(Retain(s))[..Min(Max(keep, Max(minKeep, 1)), |Ranked(Retain(s))|)]
    ensures forall r :: r in kept <==> Keeps(s, percentile, minKeep, r)
  {
    var ranked := Ranked(Retain(s));
    forall r | r in kept ensures Keeps(s, percentile, minKeep, r) {
      var j :| 0 <= j < |kept| && kept[j] == r;
      assert ranked[j] == r;
      KeptAt(s, percentile, minKeep, keep, j);
    }
    forall r | Keeps(s, percentile, minKeep, r) ensures r in kept {
      var j := KeptIsRanked(s, percentile, minKeep, r);
      KeptAt(s, percentile, minKeep, keep, j);
      assert kept[j] == r;
    }
  }

  lemma KeptIsRanked(s: seq<Relay>, percentile: nat, minKeep: nat, r: Relay) returns (j: nat)
    requires DistinctUrls(Retain(s)) && Keeps(s, percentile, minKeep, r)
    ensures j < |Ranked(Retain(s))| && Ranked(Retain(s))[j] == r
  {
    RetainElements(s);
    RankedDescends(Retain(s));
    assert r in multiset(Ranked(Retain(s)));
    j :| 0 <= j < |Ranked(Retain(s))| && Ranked(Retain(s))[j] == r;
  }

  lemma {:induction false} RetainDistinct(s: seq<Relay>)
    requires DistinctUrls(s)
    ensures DistinctUrls(Retain(s))
  {
    if s != [] {
      RetainDistinct(s[1..]);
      RetainElements(s[1..]);
      var t := Retain(s[1..]);
      forall i | 0 <= i < |t| ensures t[i].url != s[0].url {
        assert t[i] in s[1..];
      }
    }
  }

  lemma ShareIsPart(total: nat, percentile: nat)
    requires percentile <= 100
    ensures total * percentile <= total * 100
  {
  }

  lemma WantIsPart(total: nat, percentile: nat)
    requires percentile <= 100
    ensures Want(total, percentile) <= total
  {
    ShareIsPart(total, percentile);
    var product := total * percentile;
    assert Min(product, U64_MAX) <= total * 100;
  }

  /** Everything is wanted at most once over. */
  lemma WantIsReachable(s: seq<Relay>, percentile: nat)
    requires DistinctUrls(Retain(s)) && percentile < 100
    ensures Want(Total(s), percentile) <= Sum(Ranked(Retain(s)), Sources())
  {
    SumOfRanked(Retain(s), Sources());
    WantIsPart(Total(s), percentile);
  }

  method CutLength(ranked: seq<Relay>, want: nat) returns (keep: nat)
    requires ranked != [] && want <= Sum(ranked, Sources())
    ensures ShortestPrefix(ranked, want, keep)
  {
    var acc := 0;
    keep := 0;
    while keep < |ranked|
      invariant keep <= |ranked| && acc == Sum(ranked[..keep], Sources())
      invariant keep > 0 ==> acc < want
    {
      ExtendPrefix(ranked, keep);
      acc := acc + ranked[keep].sources;
      keep := keep + 1;
      if acc >= want {
        break;
      }
    }
    assert ranked[..|ranked|] == ranked;
  }

  /** A target's weight: none for what was shown to be no relay. */
  function Advertised(): Relay -> nat { (x: Relay) => if x.nip11 == Some(false) then 0 else x.sources }

  lemma {:induction false} TotalIsAdvertised(s: seq<Relay>)
    ensures Total(s) == Sum(s, Advertised())
  {
    if s != [] {
      TotalIsAdvertised(s[1..]);
      var head := if IsRelay(s[0]) then [s[0]] else [];
      assert Retain(s) == head + Retain(s[1..]);
      SumConcat(head, Retain(s[1..]), Sources());
      assert Sum(head, Sources()) == Advertised()(s[0]);
    }
  }

  /** More advertisers first, and among equals the smaller url. */
  ghost predicate BySources(kept: seq<Relay>) {
    forall i, j :: 0 <= i < j < |kept| ==>
      kept[i].sources > kept[j].sources || (kept[i].sources == kept[j].sources && Less(kept[i].url, kept[j].url))
  }

  lemma PrefixBySources(s: seq<Relay>, n: nat)
    requires DistinctUrls(s) && n <= |Ranked(s)|
    ensures BySources(Ranked(s)[..n])
  {
    RankedDescends(s);
    var t := Ranked(s)[..n];
    forall i, j | 0 <= i < j < |t|
      ensures t[i].sources > t[j].sources || (t[i].sources == t[j].sources && Less(t[i].url, t[j].url))
    {
      assert Above(Ranked(s)[i], Ranked(s)[j]);
    }
  }

  /** What is kept carries the wanted share: floor(total * p / 100), the product saturating at 64 bits. */
  lemma KeptCarriesShare(s: seq<Relay>, percentile: nat, keep: nat, n: nat)
    requires DistinctUrls(Retain(s)) && keep <= n <= |Ranked(Retain(s))|
    requires ShortestPrefix(Ranked(Retain(s)), Want(Total(s), percentile), keep)
    ensures Sum(Ranked(Retain(s))[..n], Sources()) >= Min(Sum(s, Advertised()) * percentile, U64_MAX) / 100
  {
    TotalIsAdvertised(s);
    PrefixesGrow(Ranked(Retain(s)), keep, n);
  }

  lemma NothingToCut(s: seq<Relay>)
    ensures Retain(s) == [] ==> Total(s) == 0
    ensures Ranked([]) == [] && BySources([])
  {
  }

  /**
   `top_by_usage_weight`: keeps exactly the relays the specification keeps. Below 100% with
   some weight they come out ranked, and are the shortest ranked prefix that carries the wanted
   weight, or `minKeep` of them if that is more.
   */
  method TopByUsageWeight(s: seq<Relay>, percentile: nat, minKeep: nat) returns (kept: seq<Relay>)
    requires DistinctUrls(s)
    ensures forall r :: r in kept <==> Keeps(s, percentile, minKeep, r)
    ensures percentile >= 100 ==> kept == Retain(s)
    ensures percentile < 100 ==> |kept| <= |Ranked(Retain(s))| && kept == Ranked(Retain(s))[..|kept|]
    ensures percentile < 100 && Total(s) > 0 ==>
      exists keep: nat :: ShortestPrefix(Ranked(Retain(s)), Want(Total(s), percentile), keep)
        && |kept| == Min(Max(keep, Max(minKeep, 1)), |Retain(s)|)
    ensures forall r :: r in kept ==> r in s && r.nip11 != Some(false)
    ensures percentile >= 100 ==> forall r :: r in s && r.nip11 != Some(false) ==> r in kept
    ensures percentile < 100 ==> BySources(kept)
    ensures percentile < 100 && Sum(s, Advertised()) > 0 ==>
      Sum(kept, Sources()) >= Min(Sum(s, Advertised()) * percentile, U64_MAX) / 100
  {
    hide ShortestPrefix, BySources, Ranked, Sum, Retain, DistinctUrls, Want;
    TotalIsAdvertised(s);
    kept := Retain(s);
    RetainElements(s);
    RetainDistinct(s);
    NothingToCut(s);
    if percentile >= 100 || kept == [] {
      return;
    }
    RankedKeepsMembers(kept);
    kept := Ranked(kept);
    PrefixBySources(Retain(s), |kept|);
    assert kept[..|kept|] == kept;
    var total := Total(s);
    if total == 0 {
      return;
    }
    var want := Want(total, percentile);
    WantIsReachable(s, percentile);
    var keep := CutLength(kept, want);
    kept := kept[..Min(Max(keep, Max(minKeep, 1)), |kept|)];
    PrefixBySources(Retain(s), |kept|);
    KeptCarriesShare(s, percentile, keep, |kept|);
    CutIsKeeps(s, percentile, minKeep, keep, kept);
  }

  lemma RankedKeepsMembers(s: seq<Relay>)
    requires DistinctUrls(s)
    ensures |Ranked(s)| == |s| && forall r :: r in Ranked(s) <==> r in s
  {
    RankedDescends(s);
    assert |multiset(Ranked(s))| == |multiset(s)|;
    forall r ensures r in Ranked(s) <==> r in s {
      assert r in Ranked(s) <==> r in multiset(Ranked(s));
      assert r in s <==> r in multiset(s);
    }
  }
}
