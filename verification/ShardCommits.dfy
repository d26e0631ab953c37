/**
 One open shard under concurrent writers. An add queues its document under the read lock and
 counts it afterwards, without the lock; a commit works under the write lock and skips when
 the count is zero. The steps below are the atomic actions of those two methods.

 Of the index writer only this is assumed: a successful commit makes the queued documents
 durable, a failed one leaves them queued.
 */
module ShardCommits {
  import opened Prelude

  type Doc = nat

  /** Where a commit call stands. */
  datatype Stage = Called | Locked | Checked | Flushed | Zeroed

  /** A commit in progress; `before` are the documents whose add had returned when it was called. */
  datatype Commit = Commit(stage: Stage, before: set<Doc>)

  datatype Shard = Shard(
    queued: set<Doc>,             // handed to the writer, not committed
    durable: set<Doc>,
    counter: nat,                 // docs_since_commit
    adding: set<Doc>,             // queued by an add that has not counted yet
    returned: set<Doc>,           // documents whose add has returned
    counted: set<Doc>,            // counted since the counter was last zeroed
    commits: map<nat, Commit>,
    holder: Option<nat>)          // the commit holding the write lock

  const EMPTY: Shard := Shard({}, {}, 0, {}, {}, {}, map[], None)

  datatype Step =
    | AddQueue(d: Doc) | AddCount(d: Doc)
    | Call(c: nat) | Lock(c: nat) | SkipEmpty(c: nat) | Check(c: nat)
    | Flush(c: nat) | FlushFails(c: nat) | Zero(c: nat) | Return(c: nat)

  ghost predicate At(s: Shard, c: nat, stage: Stage) {
    c in s.commits && s.commits[c].stage == stage && (stage != Called ==> s.holder == Some(c))
  }

  ghost function Move(s: Shard, c: nat, stage: Stage): Shard
    requires c in s.commits
  {
    s.(commits := s.commits[c := s.commits[c].(stage := stage)])
  }

  ghost function Leave(s: Shard, c: nat): Shard {
    s.(commits := s.commits - {c}, holder := None)
  }

  ghost predicate Next(s: Shard, step: Step, t: Shard) {
    match step
    case AddQueue(d) =>
      && s.holder.None? && d !in s.queued + s.durable + s.adding + s.returned
      && t == s.(queued := s.queued + {d}, adding := s.adding + {d})
    case AddCount(d) =>
      && d in s.adding
      && t == s.(adding := s.adding - {d}, returned := s.returned + {d}, counted := s.counted + {d},
                 counter := s.counter + 1)
    case Call(c) =>
      c !in s.commits && t == s.(commits := s.commits[c := Commit(Called, s.returned)])
    case Lock(c) =>
      At(s, c, Called) && s.holder.None? && t == Move(s, c, Locked).(holder := Some(c))
    case SkipEmpty(c) =>
      At(s, c, Locked) && s.counter == 0 && t == Leave(s, c)
    case Check(c) =>
      At(s, c, Locked) && s.counter != 0 && t == Move(s, c, Checked)
    case Flush(c) =>
      At(s, c, Checked) && t == Move(s, c, Flushed).(durable := s.durable + s.queued, queued := {})
    case FlushFails(c) =>
      At(s, c, Checked) && t == Leave(s, c)
    case Zero(c) =>
      At(s, c, Flushed) && t == Move(s, c, Zeroed).(counter := 0, counted := {})
    case Return(c) =>
      At(s, c, Zeroed) && t == Leave(s, c)
  }

  /** A commit call ends with Ok at this step. */
  predicate ReturnsOk(step: Step) {
    step.SkipEmpty? || step.Return?
  }

  // ----- What every step keeps -------------------------------------------------------------------

  /** Every uncommitted document is counted since the last reset or held by an add that has not
      returned, and the counter is exact. */
  ghost predicate Counted(s: Shard) {
    && s.queued <= s.counted + s.adding
    && s.counter == |s.counted|
    && s.counted <= s.returned
    && s.adding !! s.returned
    && s.adding + s.returned <= s.queued + s.durable
  }

  ghost predicate CommitOk(s: Shard, c: nat)
    requires c in s.commits
  {
    var k := s.commits[c];
    && k.before <= s.returned
    && (k.stage != Called ==> s.holder == Some(c))
    && (k.stage == Flushed || k.stage == Zeroed ==> s.queued == {} && k.before <= s.durable)
  }

  ghost predicate Inv(s: Shard) {
    Counted(s) && forall c :: c in s.commits ==> CommitOk(s, c)
  }

  lemma QueueKeepsCounted(s: Shard, d: Doc, t: Shard)
    requires Counted(s) && Next(s, AddQueue(d), t)
    ensures Counted(t)
  {
  }

  lemma CountKeepsCounted(s: Shard, d: Doc, t: Shard)
    requires Counted(s) && Next(s, AddCount(d), t)
    ensures Counted(t)
  {
    assert d !in s.counted;
  }

  lemma LockKeepsCounted(s: Shard, step: Step, t: Shard)
    requires Inv(s) && Next(s, step, t) && !step.AddQueue? && !step.AddCount?
    ensures Counted(t)
  {
    if step.Zero? {
      assert CommitOk(s, step.c);
    }
  }

  lemma StepKeepsCounted(s: Shard, step: Step, t: Shard)
    requires Inv(s) && Next(s, step, t)
    ensures Counted(t)
  {
    if step.AddQueue? {
      QueueKeepsCounted(s, step.d, t);
    } else if step.AddCount? {
      CountKeepsCounted(s, step.d, t);
    } else {
      LockKeepsCounted(s, step, t);
    }
  }

  /** A commit under the lock that finds a zero count has nothing to make durable. */
  lemma ZeroMeansDurable(s: Shard)
    requires Counted(s) && s.counter == 0
    ensures s.returned <= s.durable
  {
    assert s.counted == {};
  }

  lemma FlushKeepsCommits(s: Shard, c: nat, t: Shard, k: nat)
    requires Inv(s) && Next(s, Flush(c), t) && k in t.commits
    ensures CommitOk(t, k)
  {
    assert CommitOk(s, k);
  }

  lemma AddKeepsCommits(s: Shard, step: Step, t: Shard, k: nat)
    requires Inv(s) && Next(s, step, t) && (step.AddQueue? || step.AddCount?) && k in t.commits
    ensures CommitOk(t, k)
  {
    assert CommitOk(s, k);
  }

  lemma LockKeepsCommits(s: Shard, step: Step, t: Shard, k: nat)
    requires Inv(s) && Next(s, step, t) && k in t.commits
    requires !step.AddQueue? && !step.AddCount? && !step.Flush?
    ensures CommitOk(t, k)
  {
    if k in s.commits {
      assert CommitOk(s, k);
    }
  }

  lemma StepKeepsInv(s: Shard, step: Step, t: Shard)
    requires Inv(s) && Next(s, step, t)
    ensures Inv(t)
  {
    StepKeepsCounted(s, step, t);
    forall k | k in t.commits
      ensures CommitOk(t, k)
    {
      if step.Flush? {
        FlushKeepsCommits(s, step.c, t, k);
      } else if step.AddQueue? || step.AddCount? {
        AddKeepsCommits(s, step, t, k);
      } else {
        LockKeepsCommits(s, step, t, k);
      }
    }
  }

  // ----- Whole runs ------------------------------------------------------------------------------

  ghost predicate IsRun(run: seq<Shard>, steps: seq<Step>) {
    && |run| == |steps| + 1 && run[0] == EMPTY
    && forall i :: 0 <= i < |steps| ==> Next(run[i], steps[i], run[i + 1])
  }

  lemma {:induction false} RunKeepsInv(run: seq<Shard>, steps: seq<Step>, i: nat)
    requires IsRun(run, steps) && i < |run|
    ensures Inv(run[i])
  {
    if i > 0 {
      RunKeepsInv(run, steps, i - 1);
      StepKeepsInv(run[i - 1], steps[i - 1], run[i]);
    }
  }

  /** Between its call and its end a commit remembers what had returned when it was called. */
  lemma {:induction false} BeforeIsFixed(run: seq<Shard>, steps: seq<Step>, c: nat, first: nat, last: nat)
    requires IsRun(run, steps) && first < last < |run| && steps[first] == Call(c)
    requires forall i :: first < i <= last ==> c in run[i].commits
    ensures c in run[last].commits && run[last].commits[c].before == run[first].returned
    decreases last
  {
    if last == first + 1 {
      assert Next(run[first], steps[first], run[last]);
    } else {
      BeforeIsFixed(run, steps, c, first, last - 1);
      assert Next(run[last - 1], steps[last - 1], run[last]);
    }
  }

  /** A commit that returns Ok leaves durable every document whose add had returned when it was called. */
  lemma OkIsDurable(s: Shard, step: Step, t: Shard)
    requires Inv(s) && Next(s, step, t) && ReturnsOk(step)
    ensures s.commits[step.c].before <= t.durable
  {
    assert CommitOk(s, step.c);
    if step.SkipEmpty? {
      ZeroMeansDurable(s);
    }
  }

  /**
   Durability under every interleaving: if a commit is called at step `first` and returns Ok at
   step `last`, every document whose add returned before step `first` is durable after it.
   */
  lemma CommitsAreDurable(run: seq<Shard>, steps: seq<Step>, c: nat, first: nat, last: nat)
    requires IsRun(run, steps) && first < last < |steps|
    requires steps[first] == Call(c) && ReturnsOk(steps[last]) && steps[last].c == c
    requires forall i :: first < i <= last ==> c in run[i].commits
    ensures run[first].returned <= run[last + 1].durable
  {
    RunKeepsInv(run, steps, last);
    BeforeIsFixed(run, steps, c, first, last);
    OkIsDurable(run[last], steps[last], run[last + 1]);
  }

  /** And nothing durable is ever lost. */
  lemma {:induction false} DurableStays(run: seq<Shard>, steps: seq<Step>, i: nat, j: nat)
    requires IsRun(run, steps) && i <= j < |run|
    ensures run[i].durable <= run[j].durable
    decreases j
  {
    if i < j {
      DurableStays(run, steps, i, j - 1);
      assert Next(run[j - 1], steps[j - 1], run[j]);
    }
  }
}
