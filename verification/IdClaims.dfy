/**
 The id store must never be ahead of the index: an id it holds is skipped by every later
 ingest, so a recorded id without a durable document is a hole that cannot be refilled.

 Two writers feed it. The live writer is one thread that indexes, commits and records. Archive
 ingest indexes from many threads while a checkpoint commits shard by shard and then claims
 whatever ids are pending. A month's writer is its set of queued documents; committing makes
 them durable, dropping the writer loses them. A document is named by its event id.
 */
module IdClaims {

  type Doc = nat
  type Month = nat

  /** Documents queued in some open writer. */
  ghost function Queued(open: map<Month, set<Doc>>): set<Doc> {
    set m, d | m in open && d in open[m] :: d
  }

  lemma QueuedIn(open: map<Month, set<Doc>>, m: Month, d: Doc)
    requires m in open && d in open[m]
    ensures d in Queued(open)
  {
  }

  // ----- The live writer -------------------------------------------------------------------------

  /** `noted` is the in-memory list of ids awaiting their commit; `added` is the event whose
      document the current `process` call has queued. */
  datatype Live = Live(
    open: map<Month, set<Doc>>, durable: set<Doc>, store: set<Doc>, noted: set<Doc>,
    added: set<Doc>, committed: bool)

  datatype LiveStep =
    | OpenMonth(m: Month) | Add(m: Month, d: Doc) | CommitOne(m: Month) | Evict(m: Month) | Note
    | Skip | Tick(failed: set<Month>) | Record | RecordFails | Crash

  /** A month's queue after its commit. */
  function Committed(open: map<Month, set<Doc>>, m: Month): map<Month, set<Doc>> {
    open[m := {}]
  }

  function CommittedAll(open: map<Month, set<Doc>>, failed: set<Month>): map<Month, set<Doc>> {
    map m | m in open :: if m in failed then open[m] else {}
  }

  ghost predicate LiveNext(s: Live, step: LiveStep, t: Live) {
    match step
    case OpenMonth(m) =>
      m !in s.open && !s.committed && t == s.(open := s.open[m := {}])
    case Add(m, d) =>
      && m in s.open && !s.committed
      && t == s.(open := s.open[m := s.open[m] + {d}], added := {d})
    case CommitOne(m) =>
      && m in s.open && !s.committed
      && t == s.(open := Committed(s.open, m), durable := s.durable + s.open[m])
    case Evict(m) =>                      // commit, then drop the writer: one thread, nothing in between
      && m in s.open && !s.committed
      && t == s.(open := s.open - {m}, durable := s.durable + s.open[m])
    case Note =>                          // process returned true
      !s.committed && t == s.(noted := s.noted + s.added, added := {})
    case Skip =>                          // process returned false, even after queueing
      !s.committed && t == s.(added := {})
    case Tick(failed) =>                  // commit_all: Ok only if no shard failed
      && !s.committed && s.added == {}
      && t == s.(open := CommittedAll(s.open, failed),
                 durable := s.durable + (Queued(s.open) - Queued(CommittedAll(s.open, failed))),
                 committed := failed == {})
    case Record =>
      s.committed && t == s.(store := s.store + s.noted, noted := {}, committed := false)
    case RecordFails =>
      s.committed && t == s.(committed := false)
    case Crash =>
      t == Live(map[], s.durable, s.store, {}, {}, false)
  }

  ghost predicate LiveInv(s: Live) {
    && s.store <= s.durable
    && s.noted + s.added <= s.durable + Queued(s.open)
    && (s.committed ==> s.noted <= s.durable)
  }

  lemma QueuedMove(open: map<Month, set<Doc>>, m: Month, q: set<Doc>)
    ensures Queued(open[m := q]) >= q
    ensures forall d :: d in Queued(open) && (m !in open || d !in open[m]) ==> d in Queued(open[m := q])
    ensures forall d :: d in Queued(open[m := q]) ==> d in q || d in Queued(open)
  {
    var next := open[m := q];
    forall d | d in q ensures d in Queued(next) {
      QueuedIn(next, m, d);
    }
    forall d | d in Queued(open) && (m !in open || d !in open[m])
      ensures d in Queued(next)
    {
      var k :| k in open && d in open[k];
      QueuedIn(next, k, d);
    }
  }

  lemma QueuedDrop(open: map<Month, set<Doc>>, m: Month)
    requires m in open
    ensures forall d :: d in Queued(open) && d !in open[m] ==> d in Queued(open - {m})
  {
    forall d | d in Queued(open) && d !in open[m]
      ensures d in Queued(open - {m})
    {
      var k :| k in open && d in open[k];
      QueuedIn(open - {m}, k, d);
    }
  }

  lemma NoneFailedNoneQueued(open: map<Month, set<Doc>>)
    ensures Queued(CommittedAll(open, {})) == {}
  {
  }

  lemma LiveStepKeepsInv(s: Live, step: LiveStep, t: Live)
    requires LiveInv(s) && LiveNext(s, step, t)
    ensures LiveInv(t)
  {
    match step
    case OpenMonth(m) => QueuedMove(s.open, m, {});
    case Add(m, d) => QueuedMove(s.open, m, s.open[m] + {d});
    case CommitOne(m) => QueuedMove(s.open, m, {});
    case Evict(m) => QueuedDrop(s.open, m);
    case Tick(failed) => NoneFailedNoneQueued(s.open);
    case _ =>
  }

  ghost predicate LiveRun(run: seq<Live>, steps: seq<LiveStep>) {
    && |run| == |steps| + 1 && run[0] == Live(map[], {}, {}, {}, {}, false)
    && forall i :: 0 <= i < |steps| ==> LiveNext(run[i], steps[i], run[i + 1])
  }

  /**
   The live writer as sole indexer never records an id whose document is not durable: over
   every run with failed commits, evictions, failed recordings, crashes and restarts.
   */
  lemma {:induction false} LiveStoreIsNeverAhead(run: seq<Live>, steps: seq<LiveStep>, i: nat)
    requires LiveRun(run, steps) && i < |run|
    ensures run[i].store <= run[i].durable && LiveInv(run[i])
  {
    if i > 0 {
      LiveStoreIsNeverAhead(run, steps, i - 1);
      assert LiveNext(run[i - 1], steps[i - 1], run[i]);
      LiveStepKeepsInv(run[i - 1], steps[i - 1], run[i]);
    } else {
      assert Queued(map[]) == {};
    }
  }

  // ----- Archive ingest --------------------------------------------------------------------------

  /** A checkpoint: not running, committing the shards still in `todo`, or committed and about
      to take the pending ids. */
  datatype Checkpoint = Idle | Committing(todo: set<Month>, clean: bool) | Taking

  /** `indexed` are ids that chunk threads have indexed but not yet put in `pending`; `closing`
      are months whose `close_shard` has committed but not yet removed the writer. */
  datatype Ingest = Ingest(
    open: map<Month, set<Doc>>, durable: set<Doc>, store: set<Doc>, pending: set<Doc>,
    indexed: set<Doc>, checkpoint: Checkpoint, closing: set<Month>)

  datatype IngestStep =
    | OpenShard(m: Month) | Index(m: Month, d: Doc) | Extend(ids: set<Doc>) | AutoCommit(m: Month)
    | Begin | CommitShard(m: Month) | CommitFails(m: Month) | End | Take | TakeFails
    | CloseCommit(m: Month) | CloseRemove(m: Month) | CloseDecline(m: Month) | Stop

  ghost predicate IngestNext(s: Ingest, step: IngestStep, t: Ingest) {
    match step
    case OpenShard(m) =>
      m !in s.open && t == s.(open := s.open[m := {}])
    case Index(m, d) =>
      m in s.open && t == s.(open := s.open[m := s.open[m] + {d}], indexed := s.indexed + {d})
    case Extend(ids) =>
      ids <= s.indexed && t == s.(pending := s.pending + ids, indexed := s.indexed - ids)
    case AutoCommit(m) =>
      m in s.open && t == s.(open := Committed(s.open, m), durable := s.durable + s.open[m])
    case Begin =>
      s.checkpoint.Idle? && t == s.(checkpoint := Committing(s.open.Keys, true))
    case CommitShard(m) =>
      && s.checkpoint.Committing? && m in s.checkpoint.todo && m in s.open
      && t == s.(open := Committed(s.open, m), durable := s.durable + s.open[m],
                 checkpoint := s.checkpoint.(todo := s.checkpoint.todo - {m}))
    case CommitFails(m) =>
      && s.checkpoint.Committing? && m in s.checkpoint.todo
      && t == s.(checkpoint := Committing(s.checkpoint.todo - {m}, false))
    case End =>
      && s.checkpoint.Committing? && s.checkpoint.todo == {}
      && t == s.(checkpoint := if s.checkpoint.clean then Taking else Idle)
    case Take =>
      s.checkpoint.Taking? && t == s.(store := s.store + s.pending, pending := {}, checkpoint := Idle)
    case TakeFails =>
      s.checkpoint.Taking? && t == s.(pending := {}, checkpoint := Idle)
    case CloseCommit(m) =>
      && m in s.open
      && t == s.(open := Committed(s.open, m), durable := s.durable + s.open[m], closing := s.closing + {m})
    case CloseRemove(m) =>                // only while nobody else holds a handle: a checkpoint does
      && m in s.closing && m in s.open && (s.checkpoint.Committing? ==> m !in s.checkpoint.todo)
      && t == s.(open := s.open - {m}, closing := s.closing - {m})
    case CloseDecline(m) =>
      m in s.closing && t == s.(closing := s.closing - {m})
    case Stop =>                          // crash or kill
      t == Ingest(map[], s.durable, s.store, {}, {}, Idle, {})
  }

  /** `d` is queued in one of these months. */
  ghost predicate Awaits(s: Ingest, todo: set<Month>, d: Doc) {
    exists m :: m in todo && m in s.open && d in s.open[m]
  }

  /** The checkpoint under way will have made `d` durable before it takes the pending ids. */
  ghost predicate Caught(s: Ingest, d: Doc) {
    match s.checkpoint
    case Idle => true
    case Committing(todo, clean) => clean ==> d in s.durable || Awaits(s, todo, d)
    case Taking => d in s.durable
  }

  /** Every pending id is caught by the checkpoint under way. */
  ghost predicate Covered(s: Ingest) {
    forall d :: d in s.pending ==> Caught(s, d)
  }

  ghost predicate IngestInv(s: Ingest) {
    && s.store <= s.durable
    && s.pending + s.indexed <= s.durable + Queued(s.open)
    && Covered(s)
  }

  /**
   The two interleavings no lock excludes: ids made pending that the checkpoint under way will not
   catch, and a shard dropped with a document that is queued nowhere else and claimed later.
   */
  ghost predicate Safe(s: Ingest, step: IngestStep) {
    && (step.Extend? ==> forall d :: d in step.ids ==> Caught(s, d))
    && (step.CloseRemove? && step.m in s.open ==>
          s.open[step.m] * (s.pending + s.indexed) <= s.durable + Queued(s.open - {step.m}))
  }

  lemma HeldStays(s: Ingest, step: IngestStep, t: Ingest)
    requires IngestInv(s) && IngestNext(s, step, t) && Safe(s, step)
    ensures t.pending + t.indexed <= t.durable + Queued(t.open)
  {
    match step
    case OpenShard(m) => QueuedMove(s.open, m, {});
    case Index(m, d) => QueuedMove(s.open, m, s.open[m] + {d});
    case AutoCommit(m) => QueuedMove(s.open, m, {});
    case CommitShard(m) => QueuedMove(s.open, m, {});
    case CloseCommit(m) => QueuedMove(s.open, m, {});
    case CloseRemove(m) => QueuedDrop(s.open, m);
    case _ =>
  }

  lemma BeginCovers(s: Ingest, t: Ingest)
    requires IngestInv(s) && IngestNext(s, Begin, t)
    ensures Covered(t)
  {
    forall d | d in t.pending && d !in t.durable
      ensures Awaits(t, t.open.Keys, d)
    {
      var m :| m in s.open && d in s.open[m];
    }
  }

  /** A document that the checkpoint catches stays caught until the ids are taken. */
  lemma CaughtStays(s: Ingest, step: IngestStep, t: Ingest, d: Doc)
    requires IngestNext(s, step, t) && !step.Begin? && Caught(s, d) && !t.checkpoint.Idle?
    ensures Caught(t, d)
  {
    if s.checkpoint.Committing? && t.checkpoint.Committing? && t.checkpoint.clean && d !in t.durable {
      var m :| m in s.checkpoint.todo && m in s.open && d in s.open[m];
      assert m in t.checkpoint.todo && m in t.open && d in t.open[m];
    }
  }

  lemma CoveredStays(s: Ingest, step: IngestStep, t: Ingest)
    requires IngestInv(s) && IngestNext(s, step, t) && Safe(s, step)
    ensures Covered(t)
  {
    if step.Begin? {
      BeginCovers(s, t);
    } else if !t.checkpoint.Idle? {
      forall d | d in t.pending ensures Caught(t, d) {
        assert Caught(s, d);
        CaughtStays(s, step, t, d);
      }
    }
  }

  lemma IngestStepKeepsInv(s: Ingest, step: IngestStep, t: Ingest)
    requires IngestInv(s) && IngestNext(s, step, t) && Safe(s, step)
    ensures IngestInv(t)
  {
    HeldStays(s, step, t);
    CoveredStays(s, step, t);
  }

  lemma UncaughtBreaks(s: Ingest, step: IngestStep, t: Ingest)
    requires IngestInv(s) && step.Extend? && IngestNext(s, step, t) && Covered(t)
    ensures Safe(s, step)
  {
    forall d | d in step.ids ensures Caught(s, d) {
      assert Caught(t, d);
      if t.checkpoint.Committing? && t.checkpoint.clean && d !in t.durable {
        var m :| m in t.checkpoint.todo && m in t.open && d in t.open[m];
        assert Awaits(s, s.checkpoint.todo, d);
      }
    }
  }

  /** The hypothesis is exact: from a state of the invariant, a step keeps it if and only if it is safe. */
  lemma StepIsSafeIff(s: Ingest, step: IngestStep, t: Ingest)
    requires IngestInv(s) && IngestNext(s, step, t)
    ensures IngestInv(t) <==> Safe(s, step)
  {
    if Safe(s, step) {
      IngestStepKeepsInv(s, step, t);
    } else if step.Extend? && Covered(t) {
      UncaughtBreaks(s, step, t);
    }
  }

  ghost predicate IngestRun(run: seq<Ingest>, steps: seq<IngestStep>) {
    && |run| == |steps| + 1 && run[0] == Ingest(map[], {}, {}, {}, {}, Idle, {})
    && forall i :: 0 <= i < |steps| ==> IngestNext(run[i], steps[i], run[i + 1])
  }

  /** Archive ingest never claims an undurable document, in every run of safe steps. */
  lemma {:induction false} IngestStoreIsNeverAhead(run: seq<Ingest>, steps: seq<IngestStep>, i: nat)
    requires IngestRun(run, steps) && i < |run|
    requires forall k :: 0 <= k < |steps| ==> Safe(run[k], steps[k])
    ensures run[i].store <= run[i].durable && IngestInv(run[i])
  {
    if i > 0 {
      IngestStoreIsNeverAhead(run, steps, i - 1);
      assert IngestNext(run[i - 1], steps[i - 1], run[i]) && Safe(run[i - 1], steps[i - 1]);
      IngestStepKeepsInv(run[i - 1], steps[i - 1], run[i]);
    } else {
      assert Queued(map[]) == {};
    }
  }

  // ----- Why each interleaving has to be excluded ---------------------------------------------------

  /** Month 1 is open with this queue; `idx` and `pend` are the indexed and pending ids. */
  function One(queue: set<Doc>, idx: set<Doc>, pend: set<Doc>, c: Checkpoint): Ingest {
    Ingest(map[1 := queue], {}, {}, pend, idx, c, {})
  }

  /** No shard is open. */
  function Bare(store: set<Doc>, idx: set<Doc>, pend: set<Doc>, c: Checkpoint): Ingest {
    Ingest(map[], {}, store, pend, idx, c, {})
  }

  /** What the set and map arithmetic of the traces below comes to. */
  lemma EmptyQueue()
    ensures var q: map<Month, set<Doc>> := map[1 := {}];
      && Committed(q, 1) == q && q[1 := q[1] + {7}] == map[1 := {7}] && q[1 := {7}] - {1} == map[]
    ensures var none: set<nat> := {};
      none + none == none && none + {7} == {7} && {7} - {7} == none && none + {1} == {1} && {1} - {1} == none
  {
    var q: map<Month, set<Doc>> := map[1 := {}];
    var none: set<nat> := {};
    assert q[1] == {} && none + {7} == {7};
    assert q[1 := {7}] - {1} == map[];
    assert Committed(q, 1) == q;
  }

  lemma OpensAndCommits()
    ensures IngestNext(Bare({}, {}, {}, Idle), OpenShard(1), One({}, {}, {}, Idle))
    ensures IngestNext(One({}, {}, {}, Idle), Begin, One({}, {}, {}, Committing({1}, true)))
    ensures IngestNext(One({}, {}, {}, Committing({1}, true)), CommitShard(1), One({}, {}, {}, Committing({}, true)))
    ensures IngestNext(One({}, {}, {}, Committing({}, true)), End, One({}, {}, {}, Taking))
    ensures IngestNext(One({7}, {}, {7}, Committing({}, true)), End, One({7}, {}, {7}, Taking))
  {
    EmptyQueue();
    var q: map<Month, set<Doc>> := map[1 := {}];
    assert q.Keys == {1};
  }

  lemma IndexesAndExtends(c: Checkpoint)
    ensures IngestNext(One({}, {}, {}, c), Index(1, 7), One({7}, {7}, {}, c))
    ensures IngestNext(One({7}, {7}, {}, c), Extend({7}), One({7}, {}, {7}, c))
  {
    EmptyQueue();
  }

  lemma TakesAndStops()
    ensures IngestNext(One({7}, {}, {7}, Taking), Take, One({7}, {}, {}, Idle).(store := {7}))
    ensures IngestNext(One({7}, {}, {}, Idle).(store := {7}), Stop, Bare({7}, {}, {}, Idle))
  {
    EmptyQueue();
  }

  /** Four steps in a row. */
  ghost predicate FourSteps(s: seq<Ingest>, a: seq<IngestStep>) {
    && |s| == 5 && |a| == 4
    && IngestNext(s[0], a[0], s[1]) && IngestNext(s[1], a[1], s[2])
    && IngestNext(s[2], a[2], s[3]) && IngestNext(s[3], a[3], s[4])
  }

  lemma EightSteps(s: seq<Ingest>, a: seq<IngestStep>, t: seq<Ingest>, b: seq<IngestStep>)
    requires FourSteps(s, a) && FourSteps(t, b) && s[4] == t[0] && s[0] == Bare({}, {}, {}, Idle)
    ensures IngestRun(s + t[1..], a + b)
  {
    var run, steps := s + t[1..], a + b;
    assert run[..5] == s && run[4..] == t && steps[..4] == a && steps[4..] == b;
    forall i | 0 <= i < 8 ensures IngestNext(run[i], steps[i], run[i + 1]) {
      if i < 4 {
        OneStep(s, a, i);
      } else {
        OneStep(t, b, i - 4);
      }
    }
  }

  lemma OneStep(s: seq<Ingest>, a: seq<IngestStep>, i: nat)
    requires FourSteps(s, a) && i < 4
    ensures IngestNext(s[i], a[i], s[i + 1])
  {
    assert i == 0 || i == 1 || i == 2 || i == 3;
  }

  /** Id 7 is recorded, its document is not durable, and no writer holds it any more. */
  ghost predicate Hole(s: Ingest) {
    7 in s.store && 7 !in s.durable && s.open == map[]
  }

  lemma CommitsNothing() returns (s: seq<Ingest>)
    ensures s == [Bare({}, {}, {}, Idle), One({}, {}, {}, Idle), One({}, {}, {}, Committing({1}, true)),
                  One({}, {}, {}, Committing({}, true)), One({}, {}, {}, Taking)]
    ensures FourSteps(s, [OpenShard(1), Begin, CommitShard(1), End])
  {
    s := [Bare({}, {}, {}, Idle), One({}, {}, {}, Idle), One({}, {}, {}, Committing({1}, true)),
          One({}, {}, {}, Committing({}, true)), One({}, {}, {}, Taking)];
    OpensAndCommits();
  }

  lemma ClaimsQueued() returns (s: seq<Ingest>)
    ensures s == [One({}, {}, {}, Taking), One({7}, {7}, {}, Taking), One({7}, {}, {7}, Taking),
                  One({7}, {}, {}, Idle).(store := {7}), Bare({7}, {}, {}, Idle)]
    ensures FourSteps(s, [Index(1, 7), Extend({7}), Take, Stop])
  {
    s := [One({}, {}, {}, Taking), One({7}, {7}, {}, Taking), One({7}, {}, {7}, Taking),
          One({7}, {}, {}, Idle).(store := {7}), Bare({7}, {}, {}, Idle)];
    IndexesAndExtends(Taking);
    TakesAndStops();
  }

  /**
   An id made pending between a checkpoint's commit and its take is claimed while its document
   is only queued; a crash then makes the hole permanent.
   */
  lemma ExtendBeforeTakeRunsAhead() returns (run: seq<Ingest>, steps: seq<IngestStep>)
    ensures steps == [OpenShard(1), Begin, CommitShard(1), End, Index(1, 7), Extend({7}), Take, Stop]
    ensures IngestRun(run, steps) && Hole(run[8])
    ensures run[5].checkpoint.Taking? && !Safe(run[5], steps[5])
    ensures forall k :: 0 <= k < 8 && k != 5 ==> Safe(run[k], steps[k])
  {
    var s := CommitsNothing();
    var t := ClaimsQueued();
    var a, b := [OpenShard(1), Begin, CommitShard(1), End], [Index(1, 7), Extend({7}), Take, Stop];
    EightSteps(s, a, t, b);
    run, steps := s + t[1..], a + b;
  }

  lemma CommitsTooEarly() returns (s: seq<Ingest>)
    ensures s == [Bare({}, {}, {}, Idle), One({}, {}, {}, Idle), One({}, {}, {}, Committing({1}, true)),
                  One({}, {}, {}, Committing({}, true)), One({7}, {7}, {}, Committing({}, true))]
    ensures FourSteps(s, [OpenShard(1), Begin, CommitShard(1), Index(1, 7)])
  {
    s := [Bare({}, {}, {}, Idle), One({}, {}, {}, Idle), One({}, {}, {}, Committing({1}, true)),
          One({}, {}, {}, Committing({}, true)), One({7}, {7}, {}, Committing({}, true))];
    OpensAndCommits();
    IndexesAndExtends(Committing({}, true));
  }

  lemma ClaimsLate() returns (s: seq<Ingest>)
    ensures s == [One({7}, {7}, {}, Committing({}, true)), One({7}, {}, {7}, Committing({}, true)), One({7}, {}, {7}, Taking),
                  One({7}, {}, {}, Idle).(store := {7}), Bare({7}, {}, {}, Idle)]
    ensures FourSteps(s, [Extend({7}), End, Take, Stop])
  {
    s := [One({7}, {7}, {}, Committing({}, true)), One({7}, {}, {7}, Committing({}, true)), One({7}, {}, {7}, Taking),
          One({7}, {}, {}, Idle).(store := {7}), Bare({7}, {}, {}, Idle)];
    OpensAndCommits();
    IndexesAndExtends(Committing({}, true));
    TakesAndStops();
  }

  /**
   The window opens with the checkpoint's first shard, not with the end of its commit: a
   document indexed into a shard already done is not covered by the shards still to come.
   */
  lemma ExtendDuringCommitRunsAhead() returns (run: seq<Ingest>, steps: seq<IngestStep>)
    ensures steps == [OpenShard(1), Begin, CommitShard(1), Index(1, 7), Extend({7}), End, Take, Stop]
    ensures IngestRun(run, steps) && Hole(run[8])
    ensures run[4].checkpoint.Committing? && !Safe(run[4], steps[4])
    ensures forall k :: 0 <= k < 8 && k != 4 ==> Safe(run[k], steps[k])
  {
    var s := CommitsTooEarly();
    var t := ClaimsLate();
    var a, b := [OpenShard(1), Begin, CommitShard(1), Index(1, 7)], [Extend({7}), End, Take, Stop];
    EightSteps(s, a, t, b);
    run, steps := s + t[1..], a + b;
  }

  lemma ClosesAndIndexes() returns (s: seq<Ingest>)
    ensures s == [Bare({}, {}, {}, Idle), One({}, {}, {}, Idle), One({}, {}, {}, Idle).(closing := {1}),
                  One({7}, {7}, {}, Idle).(closing := {1}), Bare({}, {7}, {}, Idle)]
    ensures FourSteps(s, [OpenShard(1), CloseCommit(1), Index(1, 7), CloseRemove(1)])
  {
    s := [Bare({}, {}, {}, Idle), One({}, {}, {}, Idle), One({}, {}, {}, Idle).(closing := {1}),
          One({7}, {7}, {}, Idle).(closing := {1}), Bare({}, {7}, {}, Idle)];
    OpensAndCommits();
    EmptyQueue();
  }

  lemma ClaimsWithNothingOpen() returns (s: seq<Ingest>)
    ensures s == [Bare({}, {7}, {}, Idle), Bare({}, {}, {7}, Idle), Bare({}, {}, {7}, Committing({}, true)),
                  Bare({}, {}, {7}, Taking), Bare({7}, {}, {}, Idle)]
    ensures FourSteps(s, [Extend({7}), Begin, End, Take])
  {
    s := [Bare({}, {7}, {}, Idle), Bare({}, {}, {7}, Idle), Bare({}, {}, {7}, Committing({}, true)),
          Bare({}, {}, {7}, Taking), Bare({7}, {}, {}, Idle)];
    EmptyQueue();
    var nothing: map<Month, set<Doc>> := map[];
    assert nothing.Keys == {};
  }

  /**
   A document added to a shard between `close_shard`'s commit and its removal is dropped with
   the writer, and its id is claimed all the same.
   */
  lemma AddWhileClosingIsLost() returns (run: seq<Ingest>, steps: seq<IngestStep>)
    ensures steps == [OpenShard(1), CloseCommit(1), Index(1, 7), CloseRemove(1), Extend({7}), Begin, End, Take]
    ensures IngestRun(run, steps) && Hole(run[8])
    ensures 1 in run[3].closing && !Safe(run[3], steps[3])
    ensures forall k :: 0 <= k < 8 && k != 3 ==> Safe(run[k], steps[k])
  {
    var s := ClosesAndIndexes();
    var t := ClaimsWithNothingOpen();
    var a, b := [OpenShard(1), CloseCommit(1), Index(1, 7), CloseRemove(1)], [Extend({7}), Begin, End, Take];
    EightSteps(s, a, t, b);
    run, steps := s + t[1..], a + b;
  }
}
