/** `Registry::stages` and `Registry::reset`: staging by fixpoint, and the reset worklist. */
module AnalysisRegistry {
  import opened Prelude
  import opened AnalysisGraph

  // ----- Stages ----------------------------------------------------------------------------

  /** What the dependency loop of one analysis concludes. */
  datatype Readiness = Unknown | NotYet | ReadyAt(stage: nat)

  type Stages = seq<Option<nat>>

  ghost predicate DepsRegistered(g: Graph, i: nat)
    requires i < |g|
  {
    forall k :: 0 <= k < |g[i].deps| ==> Registered(g, g[i].deps[k])
  }

  /** All dependencies of `i` are staged, and `s` is one above the highest of them. */
  ghost predicate OneAbove(g: Graph, st: Stages, i: nat, s: nat) {
    && i < |g| == |st|
    && DepsRegistered(g, i)
    && (forall d :: 0 <= d < |g| && DependsOn(g, i, d) ==> st[d].Some? && st[d].value < s)
    && (s == 0 || exists d :: 0 <= d < |g| && DependsOn(g, i, d) && st[d] == Some((s - 1) as nat))
  }

  ghost predicate RightlyStaged(g: Graph, st: Stages, i: nat) {
    i < |st| && st[i].Some? ==> OneAbove(g, st, i, st[i].value)
  }

  ghost predicate Consistent(g: Graph, st: Stages) {
    && |st| == |g|
    && forall i: nat {:trigger RightlyStaged(g, st, i)} :: RightlyStaged(g, st, i)
  }

  ghost function Unstaged(st: Stages): set<nat> {
    set i | 0 <= i < |st| && st[i].None?
  }

  method IndexOf(g: Graph, name: string) returns (r: Option<nat>)
    ensures r.Some? ==> r.value < |g| && g[r.value].name == name
    ensures r.None? <==> !Registered(g, name)
  {
    for i := 0 to |g|
      invariant forall j :: 0 <= j < i ==> g[j].name != name
    {
      if g[i].name == name {
        return Some(i);
      }
    }
    return None;
  }

  /** The dependency loop of one analysis. */
  method Look(g: Graph, st: Stages, i: nat) returns (r: Readiness)
    requires DistinctNames(g) && i < |g| == |st|
    ensures r.Unknown? ==> !DepsRegistered(g, i)
    ensures r.NotYet? ==> WaitsIn(g, Unstaged(st), i)
    ensures r.ReadyAt? ==> OneAbove(g, st, i, r.stage)
  {
    var deps := g[i].deps;
    var maxDep: int := -1;
    for k := 0 to |deps|
      invariant -1 <= maxDep
      invariant forall j :: 0 <= j < k ==> Registered(g, deps[j])
      invariant forall d :: 0 <= d < |g| && g[d].name in deps[..k] ==> st[d].Some? && st[d].value <= maxDep
      invariant maxDep == -1 || exists d :: 0 <= d < |g| && DependsOn(g, i, d) && st[d] == Some(maxDep as nat)
    {
      assert deps[..k + 1] == deps[..k] + [deps[k]];
      var found := IndexOf(g, deps[k]);
      if found.None? {
        return Unknown;
      }
      var d := found.value;
      assert DependsOn(g, i, d);
      if st[d].None? {
        assert d in Unstaged(st);
        return NotYet;
      }
      if st[d].value > maxDep {
        maxDep := st[d].value;
      }
    }
    assert deps[..|deps|] == deps;
    return ReadyAt((maxDep + 1) as nat);
  }

  lemma Undisturbed(g: Graph, st: Stages, st': Stages, j: nat, s: nat)
    requires OneAbove(g, st, j, s) && |st'| == |st|
    requires forall d :: 0 <= d < |st| && st[d].Some? ==> st'[d] == st[d]
    ensures OneAbove(g, st', j, s)
  {
  }

  lemma StageOne(g: Graph, st: Stages, i: nat, s: nat)
    requires Consistent(g, st) && i < |g| && st[i].None? && OneAbove(g, st, i, s)
    ensures Consistent(g, st[i := Some(s)])
    ensures Unstaged(st[i := Some(s)]) == Unstaged(st) - {i}
  {
    var st' := st[i := Some(s)];
    forall j: nat
      ensures RightlyStaged(g, st', j)
    {
      if j < |st'| && st'[j].Some? {
        assert RightlyStaged(g, st, j);
        Undisturbed(g, st, st', j, st'[j].value);
      }
    }
  }

  /** One sweep over the unstaged analyses. */
  method Sweep(g: Graph, st: Stages) returns (known: bool, st': Stages, progressed: bool)
    requires DistinctNames(g) && Consistent(g, st)
    ensures !known ==> !AllRegistered(g)
    ensures known ==> Consistent(g, st') && Unstaged(st') <= Unstaged(st)
    ensures known && progressed ==> Unstaged(st') < Unstaged(st)
    ensures known && !progressed ==> st' == st && Stuck(g, Unstaged(st))
  {
    st', progressed, known := st, false, true;
    for i := 0 to |g|
      invariant Consistent(g, st') && Unstaged(st') <= Unstaged(st)
      invariant progressed ==> Unstaged(st') < Unstaged(st)
      invariant !progressed ==> st' == st && forall j :: j in Unstaged(st) && j < i ==> WaitsIn(g, Unstaged(st), j)
    {
      if st'[i].None? {
        var r := Look(g, st', i);
        if r.Unknown? {
          assert !DepsRegistered(g, i);
          known := false;
          return;
        }
        if r.ReadyAt? {
          StageOne(g, st', i, r.stage);
          assert i in Unstaged(st');
          st' := st'[i := Some(r.stage)];
          progressed := true;
        }
      }
    }
  }

  /** The indices below `n` at level `s`, ascending. */
  function AtLevel(level: seq<nat>, s: nat, n: nat): seq<nat>
    requires n <= |level|
  {
    if n == 0 then [] else AtLevel(level, s, n - 1) + (if level[n - 1] == s then [n - 1] else [])
  }

  lemma {:induction false} AtLevelMembers(level: seq<nat>, s: nat, n: nat)
    requires n <= |level|
    ensures forall i: nat :: i in AtLevel(level, s, n) <==> i < n && level[i] == s
  {
    if n > 0 {
      AtLevelMembers(level, s, n - 1);
    }
  }

  /** Bucket the analyses by level. */
  method Group(level: seq<nat>, count: nat) returns (stages: seq<seq<nat>>)
    requires forall i :: 0 <= i < |level| ==> level[i] < count
    ensures |stages| == count
    ensures forall s :: 0 <= s < count ==> stages[s] == AtLevel(level, s, |level|)
  {
    stages := seq(count, _ => []);
    for i := 0 to |level|
      invariant |stages| == count
      invariant forall s :: 0 <= s < count ==> stages[s] == AtLevel(level, s, i)
    {
      stages := stages[level[i] := stages[level[i]] + [i]];
    }
  }

  function All(g: Graph): (on: seq<bool>)
    ensures |on| == |g| && forall i :: 0 <= i < |g| ==> on[i]
  {
    seq(|g|, _ => true)
  }

  function Values(st: Stages): (level: seq<nat>)
    requires forall i :: 0 <= i < |st| ==> st[i].Some?
    ensures |level| == |st| && forall i :: 0 <= i < |st| ==> st[i] == Some(level[i])
  {
    seq(|st|, i requires 0 <= i < |st| => st[i].value)
  }

  lemma StagedIsLevelled(g: Graph, st: Stages)
    requires Consistent(g, st) && Unstaged(st) == {}
    ensures forall i :: 0 <= i < |st| ==> st[i].Some?
    ensures AllRegistered(g) && Levels(g, All(g), Values(st))
  {
    assert forall i :: 0 <= i < |st| && st[i].None? ==> i in Unstaged(st);
    var level := Values(st);
    forall i | 0 <= i < |g|
      ensures DepsRegistered(g, i) && LevelAt(g, All(g), level, i)
    {
      assert RightlyStaged(g, st, i);
    }
    forall i, k | 0 <= i < |g| && 0 <= k < |g[i].deps|
      ensures Registered(g, g[i].deps[k])
    {
      assert DepsRegistered(g, i);
    }
  }

  /** The stages bucket every analysis by its longest dependency chain. */
  ghost predicate Staged(g: Graph, stages: seq<seq<nat>>) {
    exists level: seq<nat> :: StagedBy(g, stages, level)
  }

  ghost predicate StagedBy(g: Graph, stages: seq<seq<nat>>, level: seq<nat>) {
    && |level| == |g| && stages != []
    && (forall i :: 0 <= i < |g| ==> level[i] < |stages| && LongestChain(g, All(g), i, level[i]))
    && (forall s :: 0 <= s < |stages| ==> stages[s] == AtLevel(level, s, |g|))
  }

  method MaxLevel(level: seq<nat>) returns (m: nat)
    ensures forall i :: 0 <= i < |level| ==> level[i] <= m
    ensures if level == [] then m == 0 else exists i :: 0 <= i < |level| && level[i] == m
  {
    m := 0;
    for i := 0 to |level|
      invariant forall j :: 0 <= j < i ==> level[j] <= m
      invariant if i == 0 then m == 0 else exists j :: 0 <= j < i && level[j] == m
    {
      if i == 0 || level[i] > m {
        m := level[i];
      }
    }
  }

  lemma ShrinkSize(a: set<nat>, b: set<nat>)
    requires a < b
    ensures |a| < |b|
  {
    var x :| x in b && x !in a;
    SubsetSize(a, b - {x});
  }

  /** The fixpoint: at most one sweep per analysis, stopping at the first idle one. */
  method Fixpoint(g: Graph) returns (st: Option<Stages>)
    requires DistinctNames(g)
    ensures st.None? ==> !(AllRegistered(g) && Acyclic(g))
    ensures st.Some? ==> Consistent(g, st.value) && Unstaged(st.value) == {}
  {
    var cur: Stages := seq(|g|, _ => None);
    InitialSize(cur);
    for round := 0 to |g|
      invariant Consistent(g, cur) && |Unstaged(cur)| <= |g| - round
    {
      var known, next, progressed := Sweep(g, cur);
      if !known {
        return None;
      }
      if !progressed {
        if i :| 0 <= i < |cur| && cur[i].None? {
          assert i in Unstaged(cur);
          StuckIsCyclic(g, Unstaged(cur));
          return None;
        }
        return Some(cur);
      }
      ShrinkSize(Unstaged(next), Unstaged(cur));
      cur := next;
    }
    return Some(cur);
  }

  lemma {:induction false} InitialSize(st: Stages)
    ensures |Unstaged(st)| <= |st|
    decreases |st|
  {
    if st != [] {
      var init := st[..|st| - 1];
      InitialSize(init);
      SubsetSize(Unstaged(st), Unstaged(init) + {|st| - 1});
    }
  }

  /** `stages`: succeeds exactly on registered, acyclic dependencies. */
  method ComputeStages(g: Graph) returns (r: Option<seq<seq<nat>>>, level: seq<nat>)
    requires DistinctNames(g)
    ensures r.Some? <==> AllRegistered(g) && Acyclic(g)
    ensures r.Some? ==> StagedBy(g, r.value, level) && Levels(g, All(g), level)
    ensures r.Some? ==> |r.value| == 1 || exists i :: 0 <= i < |g| && level[i] == |r.value| - 1
  {
    level := [];
    var st := Fixpoint(g);
    if st.None? {
      return None, [];
    }
    StagedIsLevelled(g, st.value);
    level := Values(st.value);
    LevelledIsAcyclic(g, All(g), level);
    LevelsAreLongestChains(g, All(g), level);
    var top := MaxLevel(level);
    var stages := Group(level, top + 1);
    r := Some(stages);
  }

  // ----- Reset -------------------------------------------------------------------------------

  /** The analyses whose names are listed. */
  ghost function Named(g: Graph, names: seq<string>): set<nat> {
    set i: nat | i < |g| && g[i].name in names
  }

  ghost function Dependents(g: Graph, d: nat): set<nat> {
    set j: nat | j < |g| && DependsOn(g, j, d)
  }

  /** The worklist between pops: everything found descends from `root`, and everything found
      but no longer queued has had its dependents found. */
  ghost predicate Worklist(g: Graph, root: nat, doomed: set<nat>, queue: set<nat>) {
    && root < |g| && root in doomed + queue && queue <= doomed + {root}
    && (forall i :: i in doomed ==> i < |g| && DescendsFrom(g, i, root))
    && (forall d :: d in doomed - queue ==> Dependents(g, d) <= doomed)
  }

  /** Popping `c`: it and its dependents are doomed, and the newly found ones are queued. */
  lemma PopOne(g: Graph, root: nat, doomed: set<nat>, queue: set<nat>, c: nat, rest: set<nat>)
    requires Worklist(g, root, doomed, queue) && c in queue && c < |g|
    requires rest <= queue && queue <= rest + {c}
    ensures Worklist(g, root, doomed + {c} + Dependents(g, c), rest + (Dependents(g, c) - doomed - {c}))
  {
    DescendsSelf(g, root);
    forall j | j in Dependents(g, c)
      ensures DescendsFrom(g, j, root)
    {
      DescendsStep(g, c, root, j);
    }
  }

  lemma {:induction false} DoneIsDescendants(g: Graph, root: nat, doomed: set<nat>)
    requires Worklist(g, root, doomed, {})
    ensures forall j: nat :: j in doomed <==> DescendsFrom(g, j, root)
  {
    forall j: nat | DescendsFrom(g, j, root)
      ensures j in doomed
    {
      var p: seq<nat> :| Chain(g, p) && p[0] == root && p[|p| - 1] == j;
      forall k: nat, d: nat | d in doomed && DependsOn(g, k, d)
        ensures k in doomed
      {
        assert k in Dependents(g, d);
      }
      ClosedHoldsChain(g, doomed, p);
    }
  }

  ghost predicate NamesOf(g: Graph, names: seq<string>) {
    forall n :: n in names ==> Registered(g, n)
  }

  lemma InNamed(g: Graph, names: seq<string>, i: nat)
    requires i < |g|
    ensures g[i].name in names <==> i in Named(g, names)
  {
  }

  lemma NamedAppend(g: Graph, names: seq<string>, i: nat)
    requires DistinctNames(g) && i < |g|
    ensures Named(g, names + [g[i].name]) == Named(g, names) + {i}
  {
  }

  /** Among the first `i` analyses, `c` itself and those that depend on it. */
  ghost function Touched(g: Graph, c: nat, i: nat): set<nat>
    requires i <= |g|
  {
    if i == 0 then {}
    else Touched(g, c, i - 1) + (if i - 1 == c || DependsOn(g, i - 1, c) then {i - 1} else {})
  }

  lemma {:induction false} TouchedMembers(g: Graph, c: nat, i: nat)
    requires i <= |g|
    ensures forall j: nat :: j in Touched(g, c, i) <==> j < i && (j == c || DependsOn(g, j, c))
  {
    if i > 0 {
      TouchedMembers(g, c, i - 1);
    }
  }

  /** What is doomed after the first test of entry `i` against the popped `c`. */
  ghost function SelfFound(d: set<nat>, i: nat, c: nat): set<nat> {
    if i == c && i !in d then d + {i} else d
  }

  /** Whether the second test finds entry `i` as a new dependent. */
  ghost predicate NewlyFound(d: set<nat>, i: nat, c: nat, dep: bool) {
    dep && i !in SelfFound(d, i, c)
  }

  /** The scan's bookkeeping at one entry: `d0`, `q0` before the scan, `t` touched so far. */
  lemma ScanStep(d0: set<nat>, q0: set<nat>, t: set<nat>, i: nat, c: nat, dep: bool)
    requires i !in t
    ensures var d, q := d0 + t, q0 + (t - d0 - {c});
      var t' := t + (if i == c || dep then {i} else {});
      && SelfFound(d, i, c) + (if NewlyFound(d, i, c, dep) then {i} else {}) == d0 + t'
      && q + (if NewlyFound(d, i, c, dep) then {i} else {}) == q0 + (t' - d0 - {c})
      && (t' <= d0 ==> t <= d0 && !NewlyFound(d, i, c, dep))
  {
  }

  /** The two tests of the scan at entry `i`. */
  method ScanOne(g: Graph, cur: string, ghost c: nat, i: nat, doomed: seq<string>, queue: seq<string>)
    returns (doomed': seq<string>, queue': seq<string>)
    requires DistinctNames(g) && c < |g| && g[c].name == cur && i < |g|
    requires NamesOf(g, doomed) && NamesOf(g, queue)
    ensures NamesOf(g, doomed') && NamesOf(g, queue')
    ensures var d, new_ := Named(g, doomed), NewlyFound(Named(g, doomed), i, c, DependsOn(g, i, c));
      && Named(g, doomed') == SelfFound(d, i, c) + (if new_ then {i} else {})
      && Named(g, queue') == Named(g, queue) + (if new_ then {i} else {})
      && (!new_ ==> queue' == queue)
  {
    var n := g[i].name;
    doomed', queue' := doomed, queue;
    InNamed(g, doomed, i);
    NamedAppend(g, doomed, i);
    if n == cur && n !in doomed' {
      doomed' := doomed' + [n];
    }
    InNamed(g, doomed', i);
    NamedAppend(g, doomed', i);
    NamedAppend(g, queue', i);
    if cur in g[i].deps && n !in doomed' {
      doomed' := doomed' + [n];
      queue' := queue' + [n];
    }
  }

  /** One pop of the worklist: the scan over all entries. */
  method Visit(g: Graph, cur: string, ghost c: nat, doomed: seq<string>, queue: seq<string>)
    returns (doomed': seq<string>, queue': seq<string>)
    requires DistinctNames(g) && c < |g| && g[c].name == cur
    requires NamesOf(g, doomed) && NamesOf(g, queue)
    ensures NamesOf(g, doomed') && NamesOf(g, queue')
    ensures Named(g, doomed') == Named(g, doomed) + {c} + Dependents(g, c)
    ensures Named(g, queue') == Named(g, queue) + (Dependents(g, c) - Named(g, doomed) - {c})
    ensures Named(g, doomed') == Named(g, doomed) ==> queue' == queue
  {
    ghost var d0, q0 := Named(g, doomed), Named(g, queue);
    doomed', queue' := doomed, queue;
    for i := 0 to |g|
      invariant NamesOf(g, doomed') && NamesOf(g, queue')
      invariant Named(g, doomed') == d0 + Touched(g, c, i)
      invariant Named(g, queue') == q0 + (Touched(g, c, i) - d0 - {c})
      invariant Touched(g, c, i) <= d0 ==> queue' == queue
    {
      assert i !in Touched(g, c, i) by { TouchedMembers(g, c, i); }
      ScanStep(d0, q0, Touched(g, c, i), i, c, DependsOn(g, i, c));
      doomed', queue' := ScanOne(g, cur, c, i, doomed', queue');
    }
    TouchedAll(g, c, d0);
  }

  lemma TouchedAll(g: Graph, c: nat, d0: set<nat>)
    requires c < |g|
    ensures d0 + Touched(g, c, |g|) == d0 + {c} + Dependents(g, c)
    ensures Touched(g, c, |g|) - d0 - {c} == Dependents(g, c) - d0 - {c}
    ensures d0 + Touched(g, c, |g|) == d0 ==> Touched(g, c, |g|) <= d0
  {
    TouchedMembers(g, c, |g|);
  }

  /** The analyses not found yet. */
  ghost function Spared(g: Graph, doomed: seq<string>): set<nat> {
    set i: nat | i < |g| && g[i].name !in doomed
  }

  lemma SparedShrinks(g: Graph, doomed: seq<string>, doomed': seq<string>)
    requires Named(g, doomed) < Named(g, doomed')
    ensures |Spared(g, doomed')| < |Spared(g, doomed)|
  {
    var x :| x in Named(g, doomed') && x !in Named(g, doomed);
    assert x in Spared(g, doomed) && x !in Spared(g, doomed');
    forall i | i in Spared(g, doomed')
      ensures i in Spared(g, doomed)
    {
      assert i !in Named(g, doomed');
    }
    ShrinkSize(Spared(g, doomed'), Spared(g, doomed));
  }

  /** The worklist loop, from the name asked for. */
  method FindDoomed(g: Graph, name: string, root: nat) returns (doomed: seq<string>)
    requires DistinctNames(g) && root < |g| && g[root].name == name
    ensures forall j: nat :: j in Named(g, doomed) <==> DescendsFrom(g, j, root)
  {
    var queue := [name];
    doomed := [];
    assert Named(g, []) == {} && Named(g, [name]) == {root};
    while queue != []
      invariant NamesOf(g, doomed) && NamesOf(g, queue)
      invariant Worklist(g, root, Named(g, doomed), Named(g, queue))
      decreases |Spared(g, doomed)|, |queue|
    {
      var cur, rest := queue[|queue| - 1], queue[..|queue| - 1];
      assert queue == rest + [cur];
      var at := IndexOf(g, cur);
      NamedAppend(g, rest, at.value);
      PopOne(g, root, Named(g, doomed), Named(g, queue), at.value, Named(g, rest));
      var doomed', queue' := Visit(g, cur, at.value, doomed, rest);
      if Named(g, doomed') != Named(g, doomed) {
        SparedShrinks(g, doomed, doomed');
      } else {
        SameSpared(g, doomed, doomed');
      }
      doomed, queue := doomed', queue';
    }
    assert Named(g, []) == {};
    DoneIsDescendants(g, root, Named(g, doomed));
  }

  lemma SameSpared(g: Graph, doomed: seq<string>, doomed': seq<string>)
    requires Named(g, doomed) == Named(g, doomed')
    ensures Spared(g, doomed) == Spared(g, doomed')
  {
    assert forall i: nat :: i < |g| && g[i].name in doomed ==> i in Named(g, doomed');
    assert forall i: nat :: i < |g| && g[i].name in doomed' ==> i in Named(g, doomed);
  }

  /**
   `reset`: clears exactly the named analysis and everything that depends on it. `backfilled`
   stands for the whole per-analysis state that a reset puts back to its default.
   */
  method Reset(g: Graph, name: string, backfilled: seq<bool>)
    returns (r: Option<seq<string>>, root: nat, backfilled': seq<bool>)
    requires DistinctNames(g) && |backfilled| == |g|
    ensures r.None? <==> !Registered(g, name)
    ensures r.None? ==> backfilled' == backfilled
    ensures r.Some? ==> root < |g| && g[root].name == name && |backfilled'| == |g|
    ensures r.Some? ==> forall j: nat :: j < |g| ==>
              && (g[j].name in r.value <==> DescendsFrom(g, j, root))
              && backfilled'[j] == (backfilled[j] && !DescendsFrom(g, j, root))
  {
    root := 0;
    var found := IndexOf(g, name);
    if found.None? {
      return None, 0, backfilled;
    }
    root := found.value;
    var doomed := FindDoomed(g, name, root);
    assert forall j: nat :: j < |g| ==> (g[j].name in doomed <==> j in Named(g, doomed));
    r := Some(doomed);
    backfilled' := seq(|g|, i requires 0 <= i < |g| => backfilled[i] && g[i].name !in doomed);
  }
}
