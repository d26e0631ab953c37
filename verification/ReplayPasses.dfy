/**
 Replaying the corpus in passes: which analyses a pass folds, when a pass may begin, and what
 resets do to a plan already under way (pipeline in backfill mode, `live == false`).
 */
module ReplayPasses {
  import opened Prelude
  import opened AnalysisGraph
  import opened AnalysisRegistry

  /** The pipeline's replay state: backfill flags, the plan, and the pass being folded. */
  datatype Plan = Plan(backfilled: seq<bool>, stages: seq<seq<nat>>, pass: nat)

  predicate Pending(s: Plan, i: nat) {
    i < |s.backfilled| && !s.backfilled[i]
  }

  /** Whoever depends on a pending analysis is pending too. */
  ghost predicate Closed(g: Graph, s: Plan) {
    forall i: nat, d: nat :: DependsOn(g, i, d) && Pending(s, d) ==> Pending(s, i)
  }

  ghost predicate Shaped(g: Graph, s: Plan) {
    |s.backfilled| == |g| && s.pass < |s.stages|
  }

  /** `passOf` buckets all analyses into the plan, pending dependencies strictly first, and
      nothing pending is left in a pass already over. */
  ghost predicate FreshBy(g: Graph, s: Plan, passOf: seq<nat>) {
    && Shaped(g, s) && |passOf| == |g|
    && (forall i: nat :: i < |g| ==> passOf[i] < |s.stages|)
    && (forall p: nat :: p < |s.stages| ==> s.stages[p] == AtLevel(passOf, p, |g|))
    && (forall i: nat, d: nat :: DependsOn(g, i, d) && Pending(s, i) && Pending(s, d) ==> passOf[d] < passOf[i])
    && (forall i: nat :: Pending(s, i) ==> passOf[i] >= s.pass)
  }

  ghost predicate Fresh(g: Graph, s: Plan) {
    exists passOf: seq<nat> :: FreshBy(g, s, passOf)
  }

  /** Every analysis this pass is about to rebuild has all its dependencies, however far
      removed, already rebuilt. */
  ghost predicate PassReady(g: Graph, s: Plan) {
    forall p: seq<nat> ::
      Chain(g, p) && |p| >= 2 && p[|p| - 1] in CurrentStage(s) && Pending(s, p[|p| - 1]) ==> !Pending(s, p[0])
  }

  function CurrentStage(s: Plan): seq<nat> {
    if s.pass < |s.stages| then s.stages[s.pass] else []
  }

  // ----- The three operations ------------------------------------------------------------------

  /** `advance_pass`: the current stage becomes backfilled, and the next one is current. */
  function Advance(s: Plan): Plan {
    var done := CurrentStage(s);
    Plan(seq(|s.backfilled|, i requires 0 <= i < |s.backfilled| => s.backfilled[i] || i in done),
         s.stages,
         if s.pass + 1 < |s.stages| then s.pass + 1 else s.pass)
  }

  ghost predicate IsReset(g: Graph, s: Plan, root: nat, t: Plan) {
    && root < |g| == |s.backfilled| == |t.backfilled|
    && t.stages == s.stages && t.pass == s.pass
    && forall j: nat :: j < |g| ==> t.backfilled[j] == (s.backfilled[j] && !DescendsFrom(g, j, root))
  }

  ghost predicate IsPlan(g: Graph, s: Plan, t: Plan) {
    t.backfilled == s.backfilled && t.pass == 0 && Fresh(g, t)
  }

  /** A reset keeps the pending set closed, whenever it happens. */
  lemma ResetKeepsClosed(g: Graph, s: Plan, root: nat, t: Plan)
    requires Closed(g, s) && IsReset(g, s, root, t)
    ensures Closed(g, t)
  {
    forall i: nat, d: nat | DependsOn(g, i, d) && Pending(t, d)
      ensures Pending(t, i)
    {
      if Pending(s, d) {
        assert Pending(s, i);
      } else {
        DescendsStep(g, d, root, i);
      }
    }
  }

  /** No analysis of the current stage waits for a pending one outside it. */
  ghost predicate StageSettled(g: Graph, s: Plan) {
    forall i: nat, d: nat :: i in CurrentStage(s) && DependsOn(g, i, d) && Pending(s, d) ==> d in CurrentStage(s)
  }

  /** Exactly when finishing a pass keeps the pending set closed. */
  lemma AdvanceKeepsClosedIff(g: Graph, s: Plan)
    requires Closed(g, s) && Shaped(g, s)
    ensures Closed(g, Advance(s)) <==> StageSettled(g, s)
  {
    var t, done := Advance(s), CurrentStage(s);
    assert forall i: nat :: Pending(t, i) <==> Pending(s, i) && i !in done;
    if Closed(g, t) {
      forall i: nat, d: nat | i in done && DependsOn(g, i, d) && Pending(s, d)
        ensures d in done
      {
        assert Pending(t, d) ==> Pending(t, i);
      }
    }
  }

  lemma {:induction false} PendingSpreads(g: Graph, s: Plan, p: seq<nat>)
    requires Closed(g, s) && Chain(g, p) && Pending(s, p[0])
    ensures Pending(s, p[|p| - 1])
    decreases |p|
  {
    if |p| > 1 {
      SubChain(g, p, 0, |p| - 1);
      PendingSpreads(g, s, p[0..|p| - 1]);
      assert DependsOn(g, p[|p| - 1], p[|p| - 2]);
    }
  }

  lemma InStage(g: Graph, s: Plan, passOf: seq<nat>, i: nat)
    requires FreshBy(g, s, passOf)
    ensures i in CurrentStage(s) <==> i < |g| && passOf[i] == s.pass
  {
    AtLevelMembers(passOf, s.pass, |g|);
  }

  /** On a plan made since the last reset, the current pass may begin. */
  lemma FreshIsReady(g: Graph, s: Plan)
    requires Closed(g, s) && Fresh(g, s)
    ensures PassReady(g, s) && StageSettled(g, s)
  {
    var passOf: seq<nat> :| FreshBy(g, s, passOf);
    forall p: seq<nat> | Chain(g, p) && |p| >= 2 && p[|p| - 1] in CurrentStage(s) && Pending(s, p[|p| - 1])
      ensures !Pending(s, p[0])
    {
      if Pending(s, p[0]) {
        var i, d := p[|p| - 1], p[|p| - 2];
        SubChain(g, p, 0, |p| - 1);
        PendingSpreads(g, s, p[0..|p| - 1]);
        assert DependsOn(g, i, d);
        InStage(g, s, passOf, i);
        assert false;
      }
    }
    forall i: nat, d: nat | i in CurrentStage(s) && DependsOn(g, i, d)
      ensures !Pending(s, d)
    {
      InStage(g, s, passOf, i);
      if Pending(s, d) {
        assert false;
      }
    }
  }

  lemma AdvanceStaysFresh(g: Graph, s: Plan)
    requires Fresh(g, s)
    ensures Fresh(g, Advance(s))
  {
    var passOf: seq<nat> :| FreshBy(g, s, passOf);
    var t := Advance(s);
    forall i: nat | Pending(t, i)
      ensures passOf[i] >= t.pass
    {
      assert Pending(s, i);
      InStage(g, s, passOf, i);
    }
    assert FreshBy(g, t, passOf);
  }

  /** After the last pass of a fresh plan nothing is pending. */
  lemma LastPassFinishes(g: Graph, s: Plan)
    requires Fresh(g, s) && s.pass == |s.stages| - 1
    ensures forall i: nat :: !Pending(Advance(s), i)
  {
    var passOf: seq<nat> :| FreshBy(g, s, passOf);
    forall i: nat
      ensures !Pending(Advance(s), i)
    {
      if Pending(s, i) {
        InStage(g, s, passOf, i);
      }
    }
  }

  // ----- Whole runs ----------------------------------------------------------------------------

  datatype Op = ResetOp(root: nat) | PlanOp | AdvanceOp

  ghost predicate Next(g: Graph, s: Plan, op: Op, t: Plan) {
    match op
    case ResetOp(root) => IsReset(g, s, root, t)
    case PlanOp => IsPlan(g, s, t)
    case AdvanceOp => Shaped(g, s) && t == Advance(s)
  }

  ghost predicate IsRun(g: Graph, run: seq<Plan>, ops: seq<Op>) {
    && |run| == |ops| + 1
    && forall k :: 0 <= k < |ops| ==> Next(g, run[k], ops[k], run[k + 1])
  }

  /** After `k` operations a plan has been made and nothing was reset since. */
  predicate Replanned(ops: seq<Op>, k: nat)
    requires k <= |ops|
  {
    k > 0 && (ops[k - 1].PlanOp? || (ops[k - 1].AdvanceOp? && Replanned(ops, k - 1)))
  }

  /**
   Over every interleaving in which no pass is finished on a plan older than the last reset,
   the pending set stays closed under dependents, and whenever a pass begins all transitive
   dependencies of what it rebuilds are done.
   */
  lemma {:induction false} RunsRespectDependencies(g: Graph, run: seq<Plan>, ops: seq<Op>, k: nat)
    requires IsRun(g, run, ops) && k < |run| && Closed(g, run[0])
    requires forall j :: 0 <= j < |ops| && ops[j].AdvanceOp? ==> Replanned(ops, j)
    ensures Closed(g, run[k])
    ensures Replanned(ops, k) ==> Fresh(g, run[k]) && PassReady(g, run[k])
    decreases k
  {
    if k > 0 {
      RunsRespectDependencies(g, run, ops, k - 1);
      var s, op, t := run[k - 1], ops[k - 1], run[k];
      assert Next(g, s, op, t);
      match op
      case ResetOp(root) => ResetKeepsClosed(g, s, root, t);
      case PlanOp => assert forall i: nat :: Pending(t, i) <==> Pending(s, i);
      case AdvanceOp =>
        FreshIsReady(g, s);
        AdvanceKeepsClosedIff(g, s);
        AdvanceStaysFresh(g, s);
    }
    if Replanned(ops, k) {
      FreshIsReady(g, run[k]);
    }
  }

  /** Two analyses, the second depending on the first. */
  function Pair(): Graph {
    [Analysis("base", []), Analysis("report", ["base"])]
  }

  /** A state of the two-analysis pipeline on its two-pass plan. */
  function PairState(base: bool, report: bool, pass: nat): Plan {
    Plan([base, report], [[0], [1]], pass)
  }

  lemma PairDepends()
    ensures forall i: nat, d: nat :: DependsOn(Pair(), i, d) <==> i == 1 && d == 0
  {
    var g := Pair();
    assert g[0].deps == [] && g[1].deps == ["base"] && g[0].name == "base";
    assert g[1].name[0] == 'r';
  }

  lemma PairPlan()
    ensures FreshBy(Pair(), PairState(false, false, 0), [0, 1])
  {
    PairDepends();
    assert AtLevel([0, 1], 0, 1) == [0] && AtLevel([0, 1], 0, 2) == [0];
    assert AtLevel([0, 1], 1, 1) == [] && AtLevel([0, 1], 1, 2) == [1];
  }

  lemma PairReset()
    ensures IsReset(Pair(), PairState(true, false, 1), 0, PairState(false, false, 1))
  {
    PairDepends();
    DescendsSelf(Pair(), 0);
  }

  lemma PairClosed()
    ensures Closed(Pair(), Plan([false, false], [[0, 1]], 0))
    ensures Closed(Pair(), PairState(false, false, 1)) && !StageSettled(Pair(), PairState(false, false, 1))
    ensures !Closed(Pair(), PairState(false, true, 1))
  {
    PairDepends();
    assert DependsOn(Pair(), 1, 0);
    var s, t := PairState(false, false, 1), PairState(false, true, 1);
    assert Pending(t, 0) && !Pending(t, 1);
    assert 1 in CurrentStage(s) && Pending(s, 0) && 0 !in CurrentStage(s);
  }

  lemma PairPlanAndAdvance()
    ensures Next(Pair(), Plan([false, false], [[0, 1]], 0), PlanOp, PairState(false, false, 0))
    ensures Next(Pair(), PairState(false, false, 0), AdvanceOp, PairState(true, false, 1))
  {
    PairPlan();
    assert Advance(PairState(false, false, 0)) == PairState(true, false, 1);
  }

  lemma PairResetAndAdvance()
    ensures Next(Pair(), PairState(true, false, 1), ResetOp(0), PairState(false, false, 1))
    ensures Next(Pair(), PairState(false, false, 1), AdvanceOp, PairState(false, true, 1))
  {
    PairReset();
    assert Advance(PairState(false, false, 1)) == PairState(false, true, 1);
  }

  lemma RunOfFour(g: Graph, s: seq<Plan>, ops: seq<Op>)
    requires |s| == 5 && |ops| == 4
    requires Next(g, s[0], ops[0], s[1]) && Next(g, s[1], ops[1], s[2])
    requires Next(g, s[2], ops[2], s[3]) && Next(g, s[3], ops[3], s[4])
    ensures IsRun(g, s, ops)
  {
  }

  /**
   Why a plan must be newer than the last reset. Both analyses are pending; the plan rebuilds
   the base, then the base is reset again while the report's pass is next. Finishing that
   pass leaves a finished report over a base that is still pending.
   */
  lemma StalePlanBreaksClosure() returns (run: seq<Plan>)
    ensures IsRun(Pair(), run, [PlanOp, AdvanceOp, ResetOp(0), AdvanceOp])
    ensures Closed(Pair(), run[0]) && Closed(Pair(), run[3])
    ensures !StageSettled(Pair(), run[3]) && !Closed(Pair(), run[4])
  {
    run := [Plan([false, false], [[0, 1]], 0), PairState(false, false, 0), PairState(true, false, 1),
            PairState(false, false, 1), PairState(false, true, 1)];
    assert IsRun(Pair(), run, [PlanOp, AdvanceOp, ResetOp(0), AdvanceOp]) by {
      PairPlanAndAdvance();
      PairResetAndAdvance();
      RunOfFour(Pair(), run, [PlanOp, AdvanceOp, ResetOp(0), AdvanceOp]);
    }
    PairClosed();
  }

  // ----- Planning ------------------------------------------------------------------------------

  /** Analyses selected by `on` form the chain, the last one included. */
  ghost predicate PendingChain(g: Graph, on: seq<bool>, p: seq<nat>) {
    Chain(g, p) && |on| == |g| && forall k :: 0 <= k < |p| ==> on[p[k]]
  }

  /** `n` is the length of the longest chain of pending analyses, and at least 1. */
  ghost predicate PassCount(g: Graph, on: seq<bool>, n: nat) {
    && n >= 1
    && (n == 1 || exists p: seq<nat> :: PendingChain(g, on, p) && |p| == n)
    && forall p: seq<nat> :: PendingChain(g, on, p) ==> |p| <= n
  }

  /** One more than the highest pass among pending dependencies, or 0 without any. */
  method PassFor(g: Graph, on: seq<bool>, passOf: seq<nat>, i: nat) returns (v: nat)
    requires DistinctNames(g) && i < |g| == |on| == |passOf|
    ensures forall d :: 0 <= d < |g| && on[d] && DependsOn(g, i, d) ==> passOf[d] < v
    ensures v == 0 || exists d :: 0 <= d < |g| && on[d] && DependsOn(g, i, d) && passOf[d] + 1 == v
  {
    var deps := g[i].deps;
    v := 0;
    for k := 0 to |deps|
      invariant forall d :: 0 <= d < |g| && on[d] && g[d].name in deps[..k] ==> passOf[d] < v
      invariant v == 0 || exists d :: 0 <= d < |g| && on[d] && DependsOn(g, i, d) && passOf[d] + 1 == v
    {
      assert deps[..k + 1] == deps[..k] + [deps[k]];
      var at := IndexOf(g, deps[k]);
      if at.Some? && on[at.value] && passOf[at.value] + 1 > v {
        assert DependsOn(g, i, at.value);
        v := passOf[at.value] + 1;
      }
    }
    assert deps[..|deps|] == deps;
  }

  /** Writing `i`'s pass leaves the analyses already planned, which do not depend on it, alone. */
  lemma LevelStands(g: Graph, on: seq<bool>, passOf: seq<nat>, i: nat, v: nat, j: nat)
    requires LevelAt(g, on, passOf, j) && i < |g| && j != i && !DependsOn(g, j, i)
    ensures LevelAt(g, on, passOf[i := v], j)
  {
  }

  lemma LevelSet(g: Graph, on: seq<bool>, passOf: seq<nat>, i: nat, v: nat)
    requires i < |g| == |on| == |passOf| && !DependsOn(g, i, i)
    requires forall d :: 0 <= d < |g| && on[d] && DependsOn(g, i, d) ==> passOf[d] < v
    requires v == 0 || exists d :: 0 <= d < |g| && on[d] && DependsOn(g, i, d) && passOf[d] + 1 == v
    ensures LevelAt(g, on, passOf[i := v], i)
  {
  }

  ghost predicate PlannedBelow(g: Graph, on: seq<bool>, passOf: seq<nat>, level: seq<nat>, s: nat) {
    && |on| == |passOf| == |level| == |g|
    && forall j: nat {:trigger LevelAt(g, on, passOf, j)} :: j < |g| && level[j] < s ==> LevelAt(g, on, passOf, j)
  }

  lemma DependencyIsLower(g: Graph, level: seq<nat>, j: nat, i: nat)
    requires Levels(g, All(g), level) && DependsOn(g, j, i)
    ensures level[i] < level[j]
  {
    assert LevelAt(g, All(g), level, j);
  }

  /** The nested loops of `plan_replay`: stage by stage, so dependencies are always planned. */
  method PassesOf(g: Graph, on: seq<bool>, stages: seq<seq<nat>>, ghost level: seq<nat>) returns (passOf: seq<nat>)
    requires DistinctNames(g) && |on| == |g| && Levels(g, All(g), level) && StagedBy(g, stages, level)
    ensures Levels(g, on, passOf)
  {
    passOf := seq(|g|, _ => 0);
    for s := 0 to |stages|
      invariant PlannedBelow(g, on, passOf, level, s)
    {
      passOf := PlanStage(g, on, stages[s], level, s, passOf);
    }
    forall i | 0 <= i < |g| ensures LevelAt(g, on, passOf, i) {}
  }

  method PlanStage(g: Graph, on: seq<bool>, stage: seq<nat>, ghost level: seq<nat>, ghost s: nat, before: seq<nat>)
    returns (passOf: seq<nat>)
    requires DistinctNames(g) && Levels(g, All(g), level) && PlannedBelow(g, on, before, level, s)
    requires stage == AtLevel(level, s, |g|)
    ensures PlannedBelow(g, on, passOf, level, s + 1)
  {
    AtLevelMembers(level, s, |g|);
    passOf := before;
    for k := 0 to |stage|
      invariant PlannedBelow(g, on, passOf, level, s)
      invariant forall j :: j in stage[..k] ==> LevelAt(g, on, passOf, j)
    {
      var i := stage[k];
      assert i in stage;
      var v := PassFor(g, on, passOf, i);
      forall j: nat | j < |g| && level[j] <= s
        ensures !DependsOn(g, j, i)
      {
        if DependsOn(g, j, i) { DependencyIsLower(g, level, j, i); }
      }
      LevelSet(g, on, passOf, i, v);
      forall j: nat | j < |g| && j != i && level[j] <= s && LevelAt(g, on, passOf, j)
        ensures LevelAt(g, on, passOf[i := v], j)
      {
        LevelStands(g, on, passOf, i, v, j);
      }
      assert stage[..k + 1] == stage[..k] + [i];
      passOf := passOf[i := v];
    }
    assert stage[..|stage|] == stage;
  }

  /** `passes` is the highest pass of a pending analysis plus one, or 1 if none is pending. */
  ghost predicate Highest(on: seq<bool>, passOf: seq<nat>, passes: nat) {
    && |on| == |passOf| && passes >= 1
    && (forall i :: 0 <= i < |on| && on[i] ==> passOf[i] < passes)
    && (passes == 1 || exists i :: 0 <= i < |on| && on[i] && passOf[i] + 1 == passes)
  }

  method CountPasses(on: seq<bool>, passOf: seq<nat>) returns (passes: nat)
    requires |on| == |passOf|
    ensures Highest(on, passOf, passes)
  {
    passes := 1;
    for i := 0 to |on|
      invariant passes >= 1
      invariant forall j :: 0 <= j < i && on[j] ==> passOf[j] < passes
      invariant passes == 1 || exists j :: 0 <= j < i && on[j] && passOf[j] + 1 == passes
    {
      if on[i] && passOf[i] + 1 > passes {
        passes := passOf[i] + 1;
      }
    }
  }

  /** The number of passes is the length of the longest pending chain. */
  lemma PassesAreLongestChain(g: Graph, on: seq<bool>, passOf: seq<nat>, passes: nat)
    requires Levels(g, on, passOf) && Highest(on, passOf, passes)
    ensures PassCount(g, on, passes)
  {
    if passes > 1 {
      var i :| 0 <= i < |on| && on[i] && passOf[i] + 1 == passes;
      var p := ChainOfLevel(g, on, passOf, i);
      assert PendingChain(g, on, p) && |p| == passes;
    }
    forall p: seq<nat> | PendingChain(g, on, p)
      ensures |p| <= passes
    {
      var i := p[|p| - 1];
      assert ChainOn(g, on, p, i);
      NoLongerChain(g, on, passOf, p, i);
    }
  }

  /** Replanning never takes more passes than a full backfill. */
  lemma ReplayIsNoLonger(g: Graph, on: seq<bool>, passes: nat, stages: seq<seq<nat>>, level: seq<nat>)
    requires PassCount(g, on, passes) && StagedBy(g, stages, level)
    ensures passes <= |stages|
  {
    if passes > 1 {
      var p: seq<nat> :| PendingChain(g, on, p) && |p| == passes;
      var i := p[|p| - 1];
      assert ChainOn(g, All(g), p, i);
      assert LongestChain(g, All(g), i, level[i]);
    }
  }

  function Clamp(passOf: seq<nat>, passes: nat): (r: seq<nat>)
    requires passes >= 1
    ensures |r| == |passOf| && forall i :: 0 <= i < |r| ==> r[i] < passes && r[i] <= passOf[i]
    ensures forall i :: 0 <= i < |r| && passOf[i] < passes ==> r[i] == passOf[i]
  {
    seq(|passOf|, i requires 0 <= i < |passOf| => if passOf[i] < passes then passOf[i] else (passes - 1) as nat)
  }

  lemma ReplayIsFresh(g: Graph, s: Plan, passOf: seq<nat>, on: seq<bool>, passes: nat)
    requires |s.backfilled| == |g| == |on| && forall i :: 0 <= i < |g| ==> on[i] == !s.backfilled[i]
    requires Levels(g, on, passOf) && Highest(on, passOf, passes)
    requires s.pass == 0 && |s.stages| == passes
    requires forall p :: 0 <= p < passes ==> s.stages[p] == AtLevel(Clamp(passOf, passes), p, |g|)
    ensures Fresh(g, s)
  {
    var r := Clamp(passOf, passes);
    forall i: nat, d: nat | DependsOn(g, i, d) && Pending(s, i) && Pending(s, d)
      ensures r[d] < r[i]
    {
      assert LevelAt(g, on, passOf, i);
    }
    assert FreshBy(g, s, r);
  }

  lemma FullIsFresh(g: Graph, s: Plan, level: seq<nat>)
    requires |s.backfilled| == |g| && s.pass == 0 && StagedBy(g, s.stages, level) && Levels(g, All(g), level)
    ensures Fresh(g, s)
  {
    forall i: nat, d: nat | DependsOn(g, i, d)
      ensures level[d] < level[i]
    {
      DependencyIsLower(g, level, i, d);
    }
    assert FreshBy(g, s, level);
  }

  /** The replay side of the pipeline object. */
  class Pipeline {
    const g: Graph
    var backfilled: seq<bool>
    var stages: seq<seq<nat>>
    var pass: nat

    /** The analyses were staged once at construction, so their dependencies are sound. */
    ghost predicate Valid()
      reads this
    {
      DistinctNames(g) && AllRegistered(g) && Acyclic(g) && Shaped(g, View())
    }

    ghost function View(): Plan
      reads this
    {
      Plan(backfilled, stages, pass)
    }

    /** `plan_replay`: every analysis gets a pass, the pending ones by their pending dependencies. */
    method PlanReplay() returns (passes: nat)
      requires Valid()
      modifies this`stages, this`pass
      ensures Valid() && IsPlan(g, old(View()), View())
      ensures |stages| == passes && PassCount(g, PendingFlags(backfilled), passes)
      ensures forall full, level :: StagedBy(g, full, level) ==> passes <= |full|
    {
      var full, level := ComputeStages(g);
      var pending := PendingFlags(backfilled);
      var passOf := PassesOf(g, pending, full.value, level);
      passes := CountPasses(pending, passOf);
      PassesAreLongestChain(g, pending, passOf, passes);
      forall fs, lv | StagedBy(g, fs, lv) ensures passes <= |fs| {
        ReplayIsNoLonger(g, pending, passes, fs, lv);
      }
      stages := Group(Clamp(passOf, passes), passes);
      pass := 0;
      ReplayIsFresh(g, View(), passOf, pending, passes);
    }

    /** `plan_full_backfill`: every analysis, one pass per stage. */
    method PlanFullBackfill() returns (passes: nat)
      requires Valid()
      modifies this`stages, this`pass
      ensures Valid() && IsPlan(g, old(View()), View())
      ensures passes == |stages| && Staged(g, stages)
    {
      var full, level := ComputeStages(g);
      stages := full.value;
      pass := 0;
      FullIsFresh(g, View(), level);
      passes := |stages|;
    }

    /** `advance_pass`: `more` says whether another pass over the corpus is needed. */
    method AdvancePass() returns (more: bool)
      requires Valid()
      modifies this`backfilled, this`pass
      ensures Valid() && View() == Advance(old(View()))
      ensures more <==> old(pass) + 1 < |stages|
    {
      var stage, flags := stages[pass], backfilled;
      backfilled := seq(|flags|, i requires 0 <= i < |flags| => flags[i] || i in stage);
      assert backfilled == Advance(old(View())).backfilled;
      more := pass + 1 < |stages|;
      if more {
        pass := pass + 1;
      }
    }

    /** `reset_analysis`: the plan under way is left as it is. */
    method ResetAnalysis(name: string) returns (r: Option<seq<string>>, root: nat)
      requires Valid()
      modifies this`backfilled
      ensures Valid() && (r.Some? <==> Registered(g, name))
      ensures if r.Some? then IsReset(g, old(View()), root, View()) else View() == old(View())
    {
      var flags: seq<bool>;
      r, root, flags := Reset(g, name, backfilled);
      backfilled := flags;
    }
  }

  function PendingFlags(backfilled: seq<bool>): (on: seq<bool>)
    ensures |on| == |backfilled| && forall i :: 0 <= i < |on| ==> on[i] == !backfilled[i]
  {
    seq(|backfilled|, i requires 0 <= i < |backfilled| => !backfilled[i])
  }
}
