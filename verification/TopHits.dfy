/** Descending top-k of a multiset of sort keys, and why per-part top-k loses nothing. */
module TopHits {
  import opened Prelude

  ghost predicate Desc(t: seq<int>) {
    forall i, j :: 0 <= i < j < |t| ==> t[i] >= t[j]
  }

  /** `t` is the `k` largest elements of `m`, largest first. */
  ghost predicate IsTop(t: seq<int>, m: multiset<int>, k: nat) {
    && Desc(t)
    && multiset(t) <= m
    && |t| == Min(k, |m|)
    && forall x, i :: x in m - multiset(t) && 0 <= i < |t| ==> x <= t[i]
  }

  lemma SubmultisetSize(a: multiset<int>, b: multiset<int>)
    requires a <= b
    ensures |a| <= |b|
    ensures |a| == |b| ==> a == b
  {
    assert b == a + (b - a);
    assert |b| == |a| + |b - a|;
  }

  /** The first element is a largest one. */
  lemma HeadIsMax(t: seq<int>, m: multiset<int>, k: nat)
    requires IsTop(t, m, k) && t != []
    ensures t[0] in m && forall x :: x in m ==> x <= t[0]
  {
    assert t[0] in multiset(t);
    forall x | x in m
      ensures x <= t[0]
    {
      if x in t {
        var j :| 0 <= j < |t| && t[j] == x;
      } else {
        assert x in m - multiset(t);
      }
    }
  }

  lemma TailIsTop(t: seq<int>, m: multiset<int>, k: nat)
    requires IsTop(t, m, k) && t != []
    ensures k > 0 && t[0] in m && IsTop(t[1..], m - multiset{t[0]}, k - 1)
  {
    var tail, less := t[1..], m - multiset{t[0]};
    assert t == [t[0]] + tail;
    assert multiset(t) == multiset{t[0]} + multiset(tail);
    assert t[0] in multiset(t);
    assert |less| == |m| - 1;
    assert m - multiset(t) == less - multiset(tail);
    assert Desc(tail) by { assert forall i :: 0 <= i < |tail| ==> tail[i] == t[i + 1]; }
  }

  lemma HeadsAgree(t: seq<int>, u: seq<int>, m: multiset<int>, k: nat)
    requires IsTop(t, m, k) && IsTop(u, m, k) && t != []
    ensures u != [] && t[0] == u[0]
  {
    HeadIsMax(t, m, k);
    HeadIsMax(u, m, k);
  }

  /** Top-k keys are determined by the multiset, whatever order the elements came in. */
  lemma {:induction false} TopIsUnique(t: seq<int>, u: seq<int>, m: multiset<int>, k: nat)
    requires IsTop(t, m, k) && IsTop(u, m, k)
    ensures t == u
    decreases |t|
  {
    if t != [] {
      HeadsAgree(t, u, m, k);
      assert t[1..] == u[1..] by {
        TailIsTop(t, m, k);
        TailIsTop(u, m, k);
        TopIsUnique(t[1..], u[1..], m - multiset{t[0]}, k - 1);
      }
      assert t == [t[0]] + t[1..] && u == [u[0]] + u[1..];
    }
  }

  /** `k` elements all above `small` fill a top-k, so nothing below them gets in. */
  lemma FullTop(t: seq<int>, part: seq<int>, rest: multiset<int>, k: nat, small: int)
    requires IsTop(t, multiset(part) + rest, k) && |part| == k
    requires forall y :: y in part ==> y > small
    requires forall y :: y in multiset(part) + rest - multiset(t) ==> y <= small
    ensures multiset(t) == multiset(part)
  {
    forall y | y in multiset(part)
      ensures multiset(part)[y] <= multiset(t)[y]
    {
      assert y in part;
      assert y !in multiset(part) + rest - multiset(t);
    }
    SubmultisetSize(multiset(part), multiset(t));
    SubmultisetSize(multiset(t), multiset(part) + rest);
  }

  lemma SameElement(t: seq<int>, u: seq<int>, i: nat)
    requires multiset(t) == multiset(u) && i < |t|
    ensures t[i] in u
  {
    assert t[i] in multiset(t);
  }

  /** An element left out of a part's own top-k cannot be in the whole's top-k. */
  lemma LeftOutIsSmall(t: seq<int>, a: multiset<int>, topA: seq<int>, rest: multiset<int>, k: nat, x: int, i: nat)
    requires IsTop(topA, a, k) && IsTop(t, multiset(topA) + rest, k)
    requires x in a - multiset(topA) && i < |t|
    ensures x <= t[i]
  {
    assert |a| == |topA| + |a - multiset(topA)| by { assert a == multiset(topA) + (a - multiset(topA)); }
    if t[i] < x {
      forall y | y in topA
        ensures y > t[i]
      {
        var j :| 0 <= j < |topA| && topA[j] == y;
      }
      FullTop(t, topA, rest, k, t[i]);
      SameElement(t, topA, i);
      assert false;
    }
  }

  /** Replacing a part by its own top-k does not change the whole's top-k. */
  lemma PartialTopSuffices(t: seq<int>, a: multiset<int>, topA: seq<int>, rest: multiset<int>, k: nat)
    requires IsTop(topA, a, k) && IsTop(t, multiset(topA) + rest, k)
    ensures IsTop(t, a + rest, k)
  {
    var part, whole := multiset(topA) + rest, a + rest;
    SubmultisetSize(multiset(topA), a);
    assert part <= whole;
    forall x, i | x in whole - multiset(t) && 0 <= i < |t|
      ensures x <= t[i]
    {
      if x in part - multiset(t) {
      } else {
        assert part[x] <= multiset(t)[x] < whole[x];
        assert x in a - multiset(topA);
        LeftOutIsSmall(t, a, topA, rest, k, x, i);
      }
    }
  }

  // ----- Sorting --------------------------------------------------------------------------

  function Insert(x: int, s: seq<int>): seq<int> {
    if s == [] || x >= s[0] then [x] + s else [s[0]] + Insert(x, s[1..])
  }

  /** The reference order: all keys, largest first. */
  function Sorted(s: seq<int>): seq<int> {
    if s == [] then [] else Insert(s[0], Sorted(s[1..]))
  }

  lemma {:induction false} InsertKeepsElements(x: int, s: seq<int>)
    ensures multiset(Insert(x, s)) == multiset(s) + multiset{x}
  {
    if s != [] && x < s[0] {
      InsertKeepsElements(x, s[1..]);
      assert s == [s[0]] + s[1..];
    }
  }

  lemma DescCons(x: int, s: seq<int>)
    requires Desc(s) && forall y :: y in s ==> y <= x
    ensures Desc([x] + s)
  {
    var t := [x] + s;
    forall i, j | 0 <= i < j < |t|
      ensures t[i] >= t[j]
    {
      assert t[j] == s[j - 1] && s[j - 1] in s;
    }
  }

  lemma {:induction false} InsertKeepsDesc(x: int, s: seq<int>)
    requires Desc(s)
    ensures Desc(Insert(x, s))
  {
    if s == [] || x >= s[0] {
      DescCons(x, s);
    } else {
      InsertKeepsDesc(x, s[1..]);
      InsertKeepsElements(x, s[1..]);
      var r := Insert(x, s[1..]);
      forall y | y in r
        ensures y <= s[0]
      {
        assert y in multiset(r);
        assert y == x || y in s[1..];
      }
      DescCons(s[0], r);
    }
  }

  lemma {:induction false} SortedIsDesc(s: seq<int>)
    ensures Desc(Sorted(s)) && multiset(Sorted(s)) == multiset(s)
  {
    if s != [] {
      SortedIsDesc(s[1..]);
      InsertKeepsDesc(s[0], Sorted(s[1..]));
      InsertKeepsElements(s[0], Sorted(s[1..]));
      assert s == [s[0]] + s[1..];
    }
  }

  /** Truncating a descending list gives the top-k of its elements. */
  lemma TruncateIsTop(s: seq<int>, k: nat)
    requires Desc(s)
    ensures IsTop(s[..Min(k, |s|)], multiset(s), k)
  {
    var n := Min(k, |s|);
    var t, rest := s[..n], s[n..];
    assert s == t + rest;
    assert multiset(s) == multiset(t) + multiset(rest);
    forall x, i | x in multiset(s) - multiset(t) && 0 <= i < |t|
      ensures x <= t[i]
    {
      assert x in multiset(rest);
      var j :| 0 <= j < |rest| && rest[j] == x;
      assert s[n + j] == x && s[i] == t[i];
    }
    assert Desc(t);
  }
}
