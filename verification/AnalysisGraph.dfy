/**
 The dependency graph of the registered analyses: chains, cycles and longest chains. These are
 the reference notions that staging, resetting and replay planning are measured against.
 */
module AnalysisGraph {
  import opened Prelude

  datatype Analysis = Analysis(name: string, deps: seq<string>)

  type Graph = seq<Analysis>

  ghost predicate DistinctNames(g: Graph) {
    forall i, j :: 0 <= i < j < |g| ==> g[i].name != g[j].name
  }

  /** Analysis `i` lists analysis `d` as a dependency. */
  predicate DependsOn(g: Graph, i: nat, d: nat) {
    i < |g| && d < |g| && g[d].name in g[i].deps
  }

  predicate Registered(g: Graph, name: string) {
    exists d :: 0 <= d < |g| && g[d].name == name
  }

  ghost predicate AllRegistered(g: Graph) {
    forall i, k :: 0 <= i < |g| && 0 <= k < |g[i].deps| ==> Registered(g, g[i].deps[k])
  }

  /** Each member depends on the one before it. */
  ghost predicate Chain(g: Graph, p: seq<nat>) {
    && p != []
    && (forall k :: 0 <= k < |p| ==> p[k] < |g|)
    && forall k :: 0 <= k < |p| - 1 ==> DependsOn(g, p[k + 1], p[k])
  }

  ghost predicate ChainTo(g: Graph, p: seq<nat>, i: nat) {
    Chain(g, p) && p[|p| - 1] == i
  }

  ghost predicate Cycle(g: Graph, p: seq<nat>) {
    Chain(g, p) && |p| >= 2 && p[0] == p[|p| - 1]
  }

  ghost predicate Acyclic(g: Graph) {
    forall p: seq<nat> :: !Cycle(g, p)
  }

  /** `j` is `i` itself or depends on it, directly or through others. */
  ghost predicate DescendsFrom(g: Graph, j: nat, i: nat) {
    exists p: seq<nat> :: Chain(g, p) && p[0] == i && p[|p| - 1] == j
  }

  lemma ExtendChain(g: Graph, p: seq<nat>, j: nat)
    requires Chain(g, p) && DependsOn(g, j, p[|p| - 1])
    ensures ChainTo(g, p + [j], j) && (p + [j])[0] == p[0]
  {
    var q := p + [j];
    forall k | 0 <= k < |q| - 1
      ensures DependsOn(g, q[k + 1], q[k])
    {
      if k < |p| - 1 {
        assert DependsOn(g, p[k + 1], p[k]);
      }
    }
  }

  lemma PrependChain(g: Graph, p: seq<nat>, d: nat)
    requires Chain(g, p) && DependsOn(g, p[0], d)
    ensures Chain(g, [d] + p)
  {
    var q := [d] + p;
    forall k | 0 <= k < |q| - 1
      ensures DependsOn(g, q[k + 1], q[k])
    {
      if k > 0 {
        assert DependsOn(g, p[k], p[k - 1]);
      }
    }
  }

  lemma SubChain(g: Graph, p: seq<nat>, a: nat, b: nat)
    requires Chain(g, p) && a < b <= |p|
    ensures Chain(g, p[a..b])
  {
    var q := p[a..b];
    forall k | 0 <= k < |q| - 1
      ensures DependsOn(g, q[k + 1], q[k])
    {
      assert DependsOn(g, p[a + k + 1], p[a + k]);
    }
  }

  lemma DescendsStep(g: Graph, j: nat, i: nat, k: nat)
    requires DescendsFrom(g, j, i) && DependsOn(g, k, j)
    ensures DescendsFrom(g, k, i)
  {
    var p: seq<nat> :| Chain(g, p) && p[0] == i && p[|p| - 1] == j;
    ExtendChain(g, p, k);
    assert Chain(g, p + [k]) && (p + [k])[0] == i && (p + [k])[|p + [k]| - 1] == k;
  }

  lemma DescendsSelf(g: Graph, i: nat)
    requires i < |g|
    ensures DescendsFrom(g, i, i)
  {
    assert Chain(g, [i]) && [i][0] == i && [i][|[i]| - 1] == i;
  }

  /** A set that contains `i` and every dependent of its members contains all descendants. */
  lemma {:induction false} ClosedHoldsChain(g: Graph, s: set<nat>, p: seq<nat>)
    requires Chain(g, p) && p[0] in s
    requires forall j, d :: d in s && DependsOn(g, j, d) ==> j in s
    ensures p[|p| - 1] in s
    decreases |p|
  {
    if |p| > 1 {
      SubChain(g, p, 0, |p| - 1);
      ClosedHoldsChain(g, s, p[0..|p| - 1]);
      assert DependsOn(g, p[|p| - 1], p[|p| - 2]);
    }
  }

  // ----- Cycles ------------------------------------------------------------------------------

  /** A walk longer than the set it stays in visits some analysis twice. */
  lemma Pigeonhole(p: seq<nat>, s: set<nat>) returns (a: nat, b: nat)
    requires |p| > |s| && forall x :: x in p ==> x in s
    ensures a < b < |p| && p[a] == p[b]
  {
    if NoRepeats(p) {
      DistinctSize(p);
      SubsetSize(Members(p), s);
      assert false;
    }
    a, b :| 0 <= a < b < |p| && p[a] == p[b];
  }

  ghost predicate WaitsIn(g: Graph, s: set<nat>, i: nat) {
    exists d :: d in s && DependsOn(g, i, d)
  }

  /** Every member waits for another member. */
  ghost predicate Stuck(g: Graph, s: set<nat>) {
    forall i {:trigger WaitsIn(g, s, i)} :: i in s ==> i < |g| && WaitsIn(g, s, i)
  }

  lemma {:induction false} StuckWalk(g: Graph, s: set<nat>, len: nat) returns (p: seq<nat>)
    requires s != {} && Stuck(g, s) && len > 0
    ensures |p| == len && Chain(g, p) && forall x :: x in p ==> x in s
    decreases len
  {
    if len == 1 {
      var i :| i in s;
      assert WaitsIn(g, s, i);
      p := [i];
    } else {
      var q := StuckWalk(g, s, len - 1);
      assert WaitsIn(g, s, q[0]);
      var d: nat :| d in s && DependsOn(g, q[0], d);
      PrependChain(g, q, d);
      p := [d] + q;
    }
  }

  /** A stuck set holds a dependency cycle. */
  lemma StuckIsCyclic(g: Graph, s: set<nat>)
    requires s != {} && Stuck(g, s)
    ensures !Acyclic(g)
  {
    var p := StuckWalk(g, s, |s| + 1);
    var a, b := Pigeonhole(p, s);
    SubChain(g, p, a, b + 1);
    assert Cycle(g, p[a..b + 1]);
  }

  // ----- Longest chains, over any subset of the analyses ----------------------------------------

  /** `level` is one more than its highest among the dependencies that `on` selects. */
  ghost predicate LevelAt(g: Graph, on: seq<bool>, level: seq<nat>, i: nat) {
    && i < |g| == |on| == |level|
    && (forall d :: 0 <= d < |g| && on[d] && DependsOn(g, i, d) ==> level[d] < level[i])
    && (level[i] == 0 || exists d :: 0 <= d < |g| && on[d] && DependsOn(g, i, d) && level[d] + 1 == level[i])
  }

  ghost predicate Levels(g: Graph, on: seq<bool>, level: seq<nat>) {
    && |on| == |level| == |g|
    && forall i :: 0 <= i < |g| ==> LevelAt(g, on, level, i)
  }

  /** All members but the last are selected. */
  ghost predicate ChainOn(g: Graph, on: seq<bool>, p: seq<nat>, i: nat) {
    && |on| == |g|
    && ChainTo(g, p, i)
    && forall k :: 0 <= k < |p| - 1 ==> on[p[k]]
  }

  lemma {:induction false} NoLongerChain(g: Graph, on: seq<bool>, level: seq<nat>, p: seq<nat>, i: nat)
    requires Levels(g, on, level) && ChainOn(g, on, p, i)
    ensures |p| <= level[i] + 1
    decreases |p|
  {
    if |p| > 1 {
      var q := p[0..|p| - 1];
      SubChain(g, p, 0, |p| - 1);
      var d := p[|p| - 2];
      assert q[|q| - 1] == d;
      NoLongerChain(g, on, level, q, d);
      assert DependsOn(g, p[|p| - 1], p[|p| - 2]);
      assert LevelAt(g, on, level, i);
    }
  }

  lemma {:induction false} ChainOfLevel(g: Graph, on: seq<bool>, level: seq<nat>, i: nat) returns (p: seq<nat>)
    requires Levels(g, on, level) && i < |g|
    ensures ChainOn(g, on, p, i) && |p| == level[i] + 1
    decreases level[i]
  {
    assert LevelAt(g, on, level, i);
    if level[i] == 0 {
      p := [i];
    } else {
      var d :| 0 <= d < |g| && on[d] && DependsOn(g, i, d) && level[d] + 1 == level[i];
      var q := ChainOfLevel(g, on, level, d);
      ExtendChain(g, q, i);
      p := q + [i];
    }
  }

  /** `level[i]` is the length, in steps, of the longest chain ending at `i`. */
  ghost predicate LongestChain(g: Graph, on: seq<bool>, i: nat, n: nat) {
    && (exists p: seq<nat> :: ChainOn(g, on, p, i) && |p| == n + 1)
    && forall p: seq<nat> :: ChainOn(g, on, p, i) ==> |p| <= n + 1
  }

  lemma LevelsAreLongestChains(g: Graph, on: seq<bool>, level: seq<nat>)
    requires Levels(g, on, level)
    ensures forall i :: 0 <= i < |g| ==> LongestChain(g, on, i, level[i])
  {
    forall i | 0 <= i < |g|
      ensures LongestChain(g, on, i, level[i])
    {
      var p := ChainOfLevel(g, on, level, i);
      forall q: seq<nat> | ChainOn(g, on, q, i) ensures |q| <= level[i] + 1 {
        NoLongerChain(g, on, level, q, i);
      }
    }
  }

  lemma {:induction false} LevelsRise(g: Graph, on: seq<bool>, level: seq<nat>, p: seq<nat>)
    requires Levels(g, on, level) && Chain(g, p) && |p| >= 2
    requires forall k :: 0 <= k < |g| ==> on[k]
    ensures level[p[0]] < level[p[|p| - 1]]
    decreases |p|
  {
    var n := |p| - 1;
    assert DependsOn(g, p[n], p[n - 1]);
    assert LevelAt(g, on, level, p[n]);
    if n > 1 {
      SubChain(g, p, 0, n);
      LevelsRise(g, on, level, p[0..n]);
    }
  }

  /** A graph that can be levelled has no cycle. */
  lemma LevelledIsAcyclic(g: Graph, on: seq<bool>, level: seq<nat>)
    requires Levels(g, on, level) && forall k :: 0 <= k < |g| ==> on[k]
    ensures Acyclic(g)
  {
    forall p: seq<nat> ensures !Cycle(g, p) {
      if Cycle(g, p) {
        LevelsRise(g, on, level, p);
      }
    }
  }
}
