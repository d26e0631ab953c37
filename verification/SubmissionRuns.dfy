/**
 A submission job over its whole life: every run of it through uploads, claims, flushes, stops,
 crashes and reloads, with job files written late or never, and the processing loop itself.
 */
module SubmissionRuns {
  import opened Submission

  // ----- The state machine ------------------------------------------------------------------

  datatype Phase = Uploading | Queued | Processing | Done | Failed | Interrupted

  /** The job file, if one was ever written. */
  datatype OnDisk = Absent | OnDisk(phase: Phase, cursor: nat, counts: Counts)

  /** The job in the running server, with the lines of its current batch. */
  datatype InMemory = Gone | Job(phase: Phase, cursor: nat, counts: Counts, pending: seq<Line>)

  /** Who still has to persist a change it has made: the upload handler, a worker (or the loader)
      that does nothing else before it has, or a worker that has let go of the job. */
  datatype Origin = Uploader | Worker | Ender

  /** `owed` are the writes not begun; `drafts` the job records taken for writing, which may land
      in the file in any order, or never. */
  datatype State = State(
    disk: OnDisk, upload: bool, job: InMemory, w: Evidence, owed: multiset<Origin>, drafts: set<OnDisk>, stopping: bool)

  function Snapshot(job: InMemory): OnDisk
    requires job.Job?
  {
    OnDisk(job.phase, job.cursor, job.counts)
  }

  datatype Step =
    | Uploaded | UploadLost | Claim | Stop | Read | FlushStep(world: World) | Requeue | Finish | Fail
    | Capture(origin: Origin) | Land(draft: OnDisk) | Crash | Reload

  function Reloaded(disk: OnDisk, upload: bool): InMemory
    requires disk.OnDisk?
  {
    var phase := match disk.phase {
      case Uploading => Interrupted
      case Queued => if upload then Queued else Failed
      case Processing => if upload then Queued else Failed
      case Done => Done
      case Failed => Failed
      case Interrupted => Interrupted
    };
    Job(phase, disk.cursor, disk.counts, [])
  }

  /** The job has been claimed and its worker is not busy writing. */
  predicate Working(s: State) {
    s.job.Job? && s.job.phase == Processing && Worker !in s.owed
  }

  /** The job moves to another phase, and somebody owes the write. */
  function Moved(s: State, phase: Phase, origin: Origin): State
    requires s.job.Job?
  {
    s.(job := s.job.(phase := phase), owed := s.owed + multiset{origin})
  }

  function AfterRead(job: InMemory, r: Record): InMemory
    requires job.Job?
  {
    job.(cursor := job.cursor + 1, counts := ReadCounts(job.counts, r), pending := ReadPending(job.pending, r))
  }

  ghost predicate Next(records: seq<Record>, s: State, step: Step, t: State) {
    match step
    case Uploaded =>
      s.job.Job? && s.job.phase == Uploading && t == Moved(s, Queued, Uploader).(upload := true)
    case UploadLost =>
      && s.job.Job? && s.job.phase == Uploading
      && (t == Moved(s, Failed, Ender).(upload := t.upload) || t == Moved(s, Interrupted, Ender).(upload := t.upload))
    case Claim =>
      s.job.Job? && s.job.phase == Queued && Worker !in s.owed && t == Moved(s, Processing, Worker)
    case Stop =>
      t == s.(stopping := true)
    case Read =>
      && Working(s) && !s.stopping && s.job.cursor < |records|
      && t == s.(job := AfterRead(s.job, records[s.job.cursor]))
    case FlushStep(world) =>
      && Working(s) && InEra(s.w, world) && t.job.Job?
      && (exists cs: seq<Class> :: Ingested(s.job.pending, world, cs, s.job.counts, t.job.counts))
      && t == s.(job := s.job.(counts := t.job.counts, pending := []), w := After(s.w, s.job.pending, world),
                 owed := s.owed + multiset{Worker})
    case Requeue =>
      Working(s) && s.stopping && s.job.pending == [] && t == Moved(s, Queued, Ender)
    case Finish =>
      && Working(s) && s.job.pending == [] && s.job.cursor == |records|
      && t == Moved(s, Done, Ender).(upload := t.upload)
    case Fail =>
      && Working(s) && t.job.Job? && t.job.phase == Failed && Grows(s.w, t.w)
      && t == Moved(s, Failed, Ender).(job := t.job, w := t.w, upload := t.upload)
    case Capture(origin) =>
      && s.job.Job? && origin in s.owed
      && t == s.(drafts := s.drafts + {Snapshot(s.job)}, owed := s.owed - multiset{origin})
    case Land(draft) =>
      draft in s.drafts && t == s.(disk := draft)
    case Crash =>
      t == State(s.disk, s.upload, Gone, s.w, multiset{}, {}, false)
    case Reload =>
      && s.job.Gone? && s.disk.OnDisk?
      && t == s.(job := Reloaded(s.disk, s.upload), owed := multiset{Worker})
  }

  /** A new job, over whatever stretch of time it will live. */
  ghost predicate Initial(s: State) {
    s == State(Absent, false, Job(Uploading, 0, ZERO, []), Evidence(s.w.from, s.w.until, {}, {}), multiset{}, {}, false)
  }

  // ----- What the steps keep ------------------------------------------------------------------

  /** What a reader of a job record may rely on. */
  ghost predicate RecordTallies(records: seq<Record>, d: OnDisk, w: Evidence) {
    d.OnDisk? && d.phase in {Queued, Processing, Done} ==>
      && Accounted(records, d.cursor, d.counts, w)
      && (d.phase == Done ==> d.cursor == |records|)
  }

  ghost predicate JobTallies(records: seq<Record>, s: State) {
    s.job.Job? ==>
      && (s.job.phase == Uploading ==> s.job.cursor == 0 && s.job.counts == ZERO && s.job.pending == [])
      && (s.job.phase in {Queued, Processing, Done} ==> Held(records, s.job.cursor, s.job.counts, s.job.pending, s.w))
      && (s.job.phase != Processing && s.job.phase != Failed ==> s.job.pending == [])
      && (s.job.phase == Done ==> s.job.cursor == |records|)
  }

  /** Whoever owes a write after letting go of the job leaves nothing unflushed behind. */
  ghost predicate OwedInOrder(s: State) {
    && (s.job.Gone? ==> s.owed == multiset{})
    && (s.job.Job? && Worker in s.owed ==> s.job.pending == [])
    && (s.job.Job? && Ender in s.owed ==>
          s.job.phase in {Done, Failed, Interrupted} || (s.stopping && s.job.pending == []))
  }

  ghost predicate Written(records: seq<Record>, s: State) {
    RecordTallies(records, s.disk, s.w) && forall d :: d in s.drafts ==> RecordTallies(records, d, s.w)
  }

  ghost predicate Inv(records: seq<Record>, s: State) {
    JobTallies(records, s) && OwedInOrder(s) && Written(records, s)
  }

  lemma NothingRead(records: seq<Record>, w: Evidence)
    ensures Accounted(records, 0, ZERO, w) && Held(records, 0, ZERO, [], w)
  {
    assert Accounts(records, 0, ZERO, w, []);
    EmptyBatch(records, 0, ZERO, w);
  }

  lemma FlushKeepsJob(records: seq<Record>, s: State, world: World, t: State)
    requires JobTallies(records, s) && Next(records, s, FlushStep(world), t)
    ensures JobTallies(records, t)
  {
    var cs: seq<Class> :| Ingested(s.job.pending, world, cs, s.job.counts, t.job.counts);
    FlushAccounts(records, s.job.cursor, s.job.counts, s.job.pending, s.w, world, cs, t.job.counts);
    EmptyBatch(records, t.job.cursor, t.job.counts, t.w);
  }

  /** A step that takes or lets go of a job that was uploaded before. */
  lemma HandoverKeepsJob(records: seq<Record>, s: State, step: Step, t: State)
    requires JobTallies(records, s) && Handover(step) && !step.Uploaded? && Next(records, s, step, t)
    ensures JobTallies(records, t)
  {
    match step
    case UploadLost => case Claim => case Requeue => case Finish => case Fail =>
  }

  /** A step that leaves the job alone, or drops it. */
  lemma OtherKeepsJob(records: seq<Record>, s: State, step: Step, t: State)
    requires JobTallies(records, s) && Next(records, s, step, t)
    requires step.Stop? || step.Capture? || step.Land? || step.Crash?
    ensures JobTallies(records, t)
  {
    assert t.job.Gone? || (t.job == s.job && t.w == s.w);
  }

  lemma UploadedKeepsJob(records: seq<Record>, s: State, t: State)
    requires JobTallies(records, s) && Next(records, s, Uploaded, t)
    ensures JobTallies(records, t)
  {
    NothingRead(records, t.w);
  }

  lemma ReadKeepsJob(records: seq<Record>, s: State, t: State)
    requires JobTallies(records, s) && Next(records, s, Read, t)
    ensures JobTallies(records, t)
  {
    ReadHolds(records, s.job.cursor, s.job.counts, s.job.pending, s.w);
  }

  lemma ReloadKeepsJob(records: seq<Record>, s: State, t: State)
    requires RecordTallies(records, s.disk, s.w) && Next(records, s, Reload, t)
    ensures JobTallies(records, t)
  {
    var d := s.disk;
    assert t.w == s.w && t.job == Reloaded(d, s.upload);
    if d.phase in {Queued, Processing, Done} {
      AccountedIsHeld(records, d.cursor, d.counts, s.w);
    }
  }

  /** A restart resumes unfinished work whose upload is still there, at the cursor and counters on disk,
      and gives up only work whose upload is gone; what had ended stays ended. */
  lemma ReloadResumes(records: seq<Record>, s: State, t: State)
    requires Next(records, s, Reload, t)
    ensures s.disk.phase in {Queued, Processing} && s.upload ==>
      t.job == Job(Queued, s.disk.cursor, s.disk.counts, [])
    ensures s.disk.phase in {Queued, Processing} && !s.upload ==> t.job.phase == Failed
    ensures s.disk.phase in {Done, Failed, Interrupted} ==> t.job.phase == s.disk.phase
    ensures s.disk.phase == Uploading ==> t.job.phase == Interrupted
  {
  }

  /** The job in memory stays in step with what it has read. */
  lemma StepKeepsJob(records: seq<Record>, s: State, step: Step, t: State)
    requires JobTallies(records, s) && RecordTallies(records, s.disk, s.w) && Next(records, s, step, t)
    ensures JobTallies(records, t)
  {
    if step.Uploaded? {
      UploadedKeepsJob(records, s, t);
    } else if step.Read? {
      ReadKeepsJob(records, s, t);
    } else if step.FlushStep? {
      FlushKeepsJob(records, s, step.world, t);
    } else if step.Reload? {
      ReloadKeepsJob(records, s, t);
    } else if Handover(step) {
      HandoverKeepsJob(records, s, step, t);
    } else {
      OtherKeepsJob(records, s, step, t);
    }
  }

  /** Steps that take or let go of the job. */
  predicate Handover(step: Step) {
    step.Uploaded? || step.UploadLost? || step.Claim? || step.Requeue? || step.Finish? || step.Fail?
  }

  lemma HandoverKeepsOrder(records: seq<Record>, s: State, step: Step, t: State)
    requires JobTallies(records, s) && OwedInOrder(s) && Handover(step) && Next(records, s, step, t)
    ensures OwedInOrder(t)
  {
    match step
    case Uploaded => case UploadLost => case Claim => case Requeue => case Finish => case Fail =>
  }

  lemma CaptureKeepsOrder(records: seq<Record>, s: State, origin: Origin, t: State)
    requires OwedInOrder(s) && Next(records, s, Capture(origin), t)
    ensures OwedInOrder(t)
  {
    assert forall o :: o in t.owed ==> o in s.owed;
  }

  lemma OtherKeepsOrder(records: seq<Record>, s: State, step: Step, t: State)
    requires OwedInOrder(s) && !Handover(step) && !step.Capture? && Next(records, s, step, t)
    ensures OwedInOrder(t)
  {
    match step
    case Stop => case Read => case FlushStep(_) => case Land(_) => case Crash => case Reload =>
  }

  lemma OwedStaysInOrder(records: seq<Record>, s: State, step: Step, t: State)
    requires JobTallies(records, s) && OwedInOrder(s) && Next(records, s, step, t)
    ensures OwedInOrder(t)
  {
    if Handover(step) {
      HandoverKeepsOrder(records, s, step, t);
    } else if step.Capture? {
      CaptureKeepsOrder(records, s, step.origin, t);
    } else {
      OtherKeepsOrder(records, s, step, t);
    }
  }

  lemma AfterGrows(w: Evidence, lines: seq<Line>, world: World)
    ensures Grows(w, After(w, lines, world))
  {
  }

  lemma EvidenceGrows(records: seq<Record>, s: State, step: Step, t: State)
    requires Next(records, s, step, t)
    ensures Grows(s.w, t.w)
  {
    if step.FlushStep? {
      AfterGrows(s.w, s.job.pending, step.world);
    } else if !step.Fail? {
      assert t.w == s.w;
    }
  }

  lemma RecordOutlives(records: seq<Record>, d: OnDisk, w: Evidence, more: Evidence)
    requires RecordTallies(records, d, w) && Grows(w, more)
    ensures RecordTallies(records, d, more)
  {
    if d.OnDisk? && d.phase in {Queued, Processing, Done} {
      AccountedGrows(records, d.cursor, d.counts, w, more);
    }
  }

  /** A record taken for writing is right if and only if no line of it is still in the batch. */
  lemma CaptureIsRightIff(records: seq<Record>, s: State)
    requires JobTallies(records, s) && s.job.Job?
    ensures RecordTallies(records, Snapshot(s.job), s.w) <==> (s.job.phase == Processing ==> s.job.pending == [])
  {
    if s.job.phase in {Queued, Processing, Done} {
      if s.job.pending == [] {
        EmptyBatch(records, s.job.cursor, s.job.counts, s.w);
      } else {
        HeldIsNotAccounted(records, s.job.cursor, s.job.counts, s.job.pending, s.w);
      }
    }
  }

  /** The late write of an upload finds nothing in the batch. */
  predicate Quiet(s: State, step: Step) {
    step == Capture(Uploader) && s.job.Job? && s.job.phase == Processing ==> s.job.pending == []
  }

  lemma CaptureKeepsWritten(records: seq<Record>, s: State, origin: Origin, t: State)
    requires Inv(records, s) && Next(records, s, Capture(origin), t) && Quiet(s, Capture(origin))
    ensures Written(records, t)
  {
    CaptureIsRightIff(records, s);
  }

  lemma StepKeepsDisk(records: seq<Record>, s: State, step: Step, t: State)
    requires Inv(records, s) && Next(records, s, step, t) && Quiet(s, step)
    ensures Written(records, t)
  {
    EvidenceGrows(records, s, step, t);
    if step.Capture? {
      CaptureKeepsWritten(records, s, step.origin, t);
    } else {
      RecordOutlives(records, s.disk, s.w, t.w);
      forall d | d in s.drafts ensures RecordTallies(records, d, t.w) {
        RecordOutlives(records, d, s.w, t.w);
      }
    }
  }

  lemma InvCarries(records: seq<Record>, s: State, step: Step, t: State)
    ensures Inv(records, s) && Next(records, s, step, t) && Quiet(s, step) ==> Inv(records, t)
  {
    if Inv(records, s) && Next(records, s, step, t) && Quiet(s, step) {
      StepKeepsJob(records, s, step, t);
      OwedStaysInOrder(records, s, step, t);
      StepKeepsDisk(records, s, step, t);
    }
  }

  // ----- Whole runs ---------------------------------------------------------------------------

  ghost predicate IsPath(records: seq<Record>, run: seq<State>, steps: seq<Step>) {
    && |run| == |steps| + 1
    && forall i :: 0 <= i < |steps| ==> Next(records, run[i], steps[i], run[i + 1])
  }

  ghost predicate IsRun(records: seq<Record>, run: seq<State>, steps: seq<Step>) {
    IsPath(records, run, steps) && Initial(run[0])
  }

  ghost predicate AllQuiet(run: seq<State>, steps: seq<Step>) {
    |run| == |steps| + 1 && forall i :: 0 <= i < |steps| ==> Quiet(run[i], steps[i])
  }

  lemma {:induction false} RunKeepsInv(records: seq<Record>, run: seq<State>, steps: seq<Step>, i: nat)
    requires IsRun(records, run, steps) && AllQuiet(run, steps) && i < |run|
    ensures Inv(records, run[i])
  {
    if i > 0 {
      RunKeepsInv(records, run, steps, i - 1);
      InvCarries(records, run[i - 1], steps[i - 1], run[i]);
    }
  }

  /**
   Accounting survives everything: at every point of every run whose upload writes are quiet, a
   job file in Queued, Processing or Done counts exactly its first `cursor` records, each once and
   each in a class that the clock, the store and the archive bear out.
   */
  lemma AccountingSurvives(records: seq<Record>, run: seq<State>, steps: seq<Step>, i: nat)
    requires IsRun(records, run, steps) && AllQuiet(run, steps) && i < |run|
    requires run[i].disk.OnDisk? && run[i].disk.phase in {Queued, Processing, Done}
    ensures var d := run[i].disk;
      && Accounted(records, d.cursor, d.counts, run[i].w)
      && d.counts.lines == d.counts.malformed + d.counts.undecodable + d.counts.badSignature
           + d.counts.ephemeral + d.counts.future + d.counts.duplicate + d.counts.added
  {
    RunKeepsInv(records, run, steps, i);
    CountsAddUp(records, run[i].disk.cursor, run[i].disk.counts, run[i].w);
  }

  /** A signed event that no clock reading of the job puts in the future. */
  predicate Storable(r: Record, w: Evidence) {
    r.Text? && r.line.Signed? && r.line.createdAt <= w.from + FUTURE_SLACK_SECS
  }

  /**
   A job that ends Done has read its whole file, and every storable event of it was offered to the
   archive or found known.
   */
  lemma DoneOffersEverything(records: seq<Record>, run: seq<State>, steps: seq<Step>, i: nat)
    requires IsRun(records, run, steps) && AllQuiet(run, steps) && i < |run|
    requires run[i].disk.OnDisk? && run[i].disk.phase == Done
    ensures run[i].disk.cursor == |records|
    ensures forall k :: 0 <= k < |records| && Storable(records[k], run[i].w) ==> records[k].line.id in run[i].w.reached
  {
    RunKeepsInv(records, run, steps, i);
    var d := run[i].disk;
    var cs: seq<Class> :| Accounts(records, d.cursor, d.counts, run[i].w, cs);
    forall k | 0 <= k < |records| && Storable(records[k], run[i].w)
      ensures records[k].line.id in run[i].w.reached
    {
      assert Counted(records[k], cs[k], run[i].w);
    }
  }

  // ----- When upload writes are quiet ---------------------------------------------------------

  /** No worker claims the job while its upload still owes the write. */
  predicate Unclaimed(s: State, step: Step) {
    step.Claim? ==> Uploader !in s.owed
  }

  ghost predicate WaitsQueued(s: State) {
    Uploader in s.owed ==> s.job.Job? && s.job.phase == Queued
  }

  lemma UnclaimedStaysQueued(records: seq<Record>, s: State, step: Step, t: State)
    requires WaitsQueued(s) && Next(records, s, step, t) && Unclaimed(s, step)
    ensures WaitsQueued(t) && Quiet(s, step)
  {
  }

  lemma {:induction false} UnclaimedIsQuiet(records: seq<Record>, run: seq<State>, steps: seq<Step>, i: nat)
    requires IsRun(records, run, steps) && i < |run|
    requires forall k :: 0 <= k < |steps| ==> Unclaimed(run[k], steps[k])
    ensures WaitsQueued(run[i]) && (i < |steps| ==> Quiet(run[i], steps[i]))
  {
    if i > 0 {
      UnclaimedIsQuiet(records, run, steps, i - 1);
      assert Next(records, run[i - 1], steps[i - 1], run[i]) && Unclaimed(run[i - 1], steps[i - 1]);
      UnclaimedStaysQueued(records, run[i - 1], steps[i - 1], run[i]);
    }
    if i < |steps| {
      assert Next(records, run[i], steps[i], run[i + 1]) && Unclaimed(run[i], steps[i]);
      UnclaimedStaysQueued(records, run[i], steps[i], run[i + 1]);
    }
  }

  // ----- A late upload write ------------------------------------------------------------------

  lemma Join(records: seq<Record>, run: seq<State>, steps: seq<Step>, more: seq<State>, next: seq<Step>)
    requires IsPath(records, run, steps) && IsPath(records, more, next) && run[|run| - 1] == more[0]
    ensures IsPath(records, run + more[1..], steps + next)
    ensures (run + more[1..])[|steps| + |next|] == more[|next|]
  {
    var states, all := run + more[1..], steps + next;
    forall i | 0 <= i < |all| ensures Next(records, states[i], all[i], states[i + 1]) {
      if i < |steps| {
        assert Next(records, run[i], steps[i], run[i + 1]);
      } else {
        assert Next(records, more[i - |steps|], next[i - |steps|], more[i - |steps| + 1]);
      }
    }
  }

  /** One signed event, dated at the epoch. */
  const LOST: seq<Record> := [Text(Signed(7, 0))]

  const ONE_LINE: Counts := ZERO.(lines := 1)

  /** A new job is uploaded and claimed at once; the worker's own write is under way. */
  lemma ClaimedEarly(w: Evidence) returns (run: seq<State>)
    requires w.reached == {} && w.stored == {}
    ensures IsRun(LOST, run, [Uploaded, Claim, Capture(Worker)])
    ensures run[3] == State(Absent, true, Job(Processing, 0, ZERO, []), w, run[3].owed, run[3].drafts, false)
    ensures Uploader in run[3].owed && Worker !in run[3].owed
  {
    var s0 := State(Absent, false, Job(Uploading, 0, ZERO, []), w, multiset{}, {}, false);
    var s1 := Moved(s0, Queued, Uploader).(upload := true);
    var s2 := Moved(s1, Processing, Worker);
    var s3 := s2.(drafts := s2.drafts + {Snapshot(s2.job)}, owed := s2.owed - multiset{Worker});
    run := [s0, s1, s2, s3];
  }

  /** The worker reads the only line; then the upload handler takes the job record and writes it. */
  lemma WrittenLate(s: State) returns (run: seq<State>)
    requires s.job == Job(Processing, 0, ZERO, []) && Uploader in s.owed && Worker !in s.owed && !s.stopping
    ensures IsPath(LOST, run, [Read, Capture(Uploader), Land(OnDisk(Processing, 1, ONE_LINE))]) && run[0] == s
    ensures !Quiet(run[1], Capture(Uploader))
    ensures run[3] == run[2].(disk := OnDisk(Processing, 1, ONE_LINE)) && run[2].upload == s.upload && run[2].w == s.w
  {
    var s1 := s.(job := AfterRead(s.job, LOST[0]));
    var s2 := s1.(drafts := s1.drafts + {Snapshot(s1.job)}, owed := s1.owed - multiset{Uploader});
    var s3 := s2.(disk := OnDisk(Processing, 1, ONE_LINE));
    run := [s, s1, s2, s3];
  }

  /** The server crashes and reloads the file. */
  lemma Restarted(s: State) returns (run: seq<State>)
    requires s.disk == OnDisk(Processing, 1, ONE_LINE) && s.upload
    ensures IsPath(LOST, run, [Crash, Reload, Capture(Worker)]) && run[0] == s
    ensures run[3].job == Job(Queued, 1, ONE_LINE, []) && Worker !in run[3].owed && run[3].w == s.w
  {
    var s1 := State(s.disk, s.upload, Gone, s.w, multiset{}, {}, false);
    var s2 := s1.(job := Reloaded(s1.disk, s1.upload), owed := multiset{Worker});
    var s3 := s2.(drafts := s2.drafts + {Snapshot(s2.job)}, owed := s2.owed - multiset{Worker});
    run := [s, s1, s2, s3];
  }

  /** A worker claims the job and finds nothing left to read. */
  lemma ClaimedAgain(s: State) returns (run: seq<State>)
    requires s.job == Job(Queued, 1, ONE_LINE, []) && Worker !in s.owed
    ensures IsPath(LOST, run, [Claim, Capture(Worker)]) && run[0] == s
    ensures run[2].job == Job(Processing, 1, ONE_LINE, []) && Worker !in run[2].owed && run[2].w == s.w
  {
    var s1 := Moved(s, Processing, Worker);
    var s2 := s1.(drafts := s1.drafts + {Snapshot(s1.job)}, owed := s1.owed - multiset{Worker});
    run := [s, s1, s2];
  }

  lemma FinishedEmpty(s: State) returns (run: seq<State>)
    requires s.job == Job(Processing, 1, ONE_LINE, []) && Worker !in s.owed
    ensures IsPath(LOST, run, [Finish, Capture(Ender), Land(OnDisk(Done, 1, ONE_LINE))]) && run[0] == s
    ensures run[3].disk == OnDisk(Done, 1, ONE_LINE) && run[3].w == s.w
  {
    var s1 := Moved(s, Done, Ender);
    var s2 := s1.(drafts := s1.drafts + {Snapshot(s1.job)}, owed := s1.owed - multiset{Ender});
    var s3 := s2.(disk := OnDisk(Done, 1, ONE_LINE));
    run := [s, s1, s2, s3];
  }

  /**
   Why upload writes must be quiet: a worker may claim and read before the handler's own write,
   which then puts a cursor in the file that is past unflushed lines. After a crash the job ends
   Done, and an event that was never in the future was neither offered nor known.
   */
  lemma LateWriteLosesLines(w: Evidence) returns (run: seq<State>, steps: seq<Step>)
    requires w.reached == {} && w.stored == {}
    ensures IsRun(LOST, run, steps) && |steps| == 14 && steps[4] == Capture(Uploader) && !Quiet(run[4], steps[4])
    ensures run[14].disk == OnDisk(Done, 1, ONE_LINE) && run[14].w == w
    ensures Storable(LOST[0], w) && LOST[0].line.id !in w.reached
  {
    var a := ClaimedEarly(w);
    var b := WrittenLate(a[3]);
    var c := Restarted(b[3]);
    var d := ClaimedAgain(c[3]);
    var e := FinishedEmpty(d[2]);
    var sa, sb := [Uploaded, Claim, Capture(Worker)], [Read, Capture(Uploader), Land(OnDisk(Processing, 1, ONE_LINE))];
    var sc, sd := [Crash, Reload, Capture(Worker)], [Claim, Capture(Worker)];
    var se := [Finish, Capture(Ender), Land(OnDisk(Done, 1, ONE_LINE))];
    Join(LOST, a, sa, b, sb);
    Join(LOST, a + b[1..], sa + sb, c, sc);
    Join(LOST, a + b[1..] + c[1..], sa + sb + sc, d, sd);
    Join(LOST, a + b[1..] + c[1..] + d[1..], sa + sb + sc + sd, e, se);
    run, steps := a + b[1..] + c[1..] + d[1..] + e[1..], sa + sb + sc + sd + se;
  }

  // ----- The processing loop ------------------------------------------------------------------

  datatype Ending = Finished | Stopped | Broke

  /** The worker's side of a job: what it has read, batched, seen and written. */
  datatype Session = Session(cursor: nat, counts: Counts, pending: seq<Line>, w: Evidence, written: seq<OnDisk>)

  ghost predicate AllTally(records: seq<Record>, written: seq<OnDisk>, w: Evidence) {
    forall i :: 0 <= i < |written| ==> RecordTallies(records, written[i], w)
  }

  ghost predicate Sound(records: seq<Record>, s: Session) {
    Held(records, s.cursor, s.counts, s.pending, s.w) && AllTally(records, s.written, s.w)
  }

  /** The state machine can go from `z` to `y`. */
  ghost predicate Reaches(records: seq<Record>, z: State, y: State) {
    exists run, steps :: IsPath(records, run, steps) && AllQuiet(run, steps) && run[0] == z && run[|run| - 1] == y
  }

  /** The state has the worker where this session is. */
  ghost predicate Mirrors(y: State, s: Session) {
    y.job == Job(Processing, s.cursor, s.counts, s.pending) && y.w == s.w && Worker !in y.owed
  }

  lemma ReachesItself(records: seq<Record>, z: State)
    ensures Reaches(records, z, z)
  {
    assert IsPath(records, [z], []) && AllQuiet([z], []);
  }

  lemma Extend(records: seq<Record>, run: seq<State>, steps: seq<Step>, step: Step, t: State)
    requires IsPath(records, run, steps) && AllQuiet(run, steps)
    requires Next(records, run[|run| - 1], step, t) && Quiet(run[|run| - 1], step)
    ensures IsPath(records, run + [t], steps + [step]) && AllQuiet(run + [t], steps + [step])
  {
    var more, all := run + [t], steps + [step];
    forall i | 0 <= i < |all| ensures Next(records, more[i], all[i], more[i + 1]) && Quiet(more[i], all[i]) {
      if i < |steps| {
        assert Next(records, run[i], steps[i], run[i + 1]) && Quiet(run[i], steps[i]);
      }
    }
  }

  lemma ReachesNext(records: seq<Record>, z: State, y: State, step: Step, t: State)
    requires Reaches(records, z, y) && Next(records, y, step, t) && Quiet(y, step)
    ensures Reaches(records, z, t)
  {
    var run, steps :| IsPath(records, run, steps) && AllQuiet(run, steps) && run[0] == z && run[|run| - 1] == y;
    Extend(records, run, steps, step, t);
    assert (run + [t])[0] == z && (run + [t])[|run + [t]| - 1] == t;
  }

  /** Take the next record: count it, and put it in the batch if it has to be screened. */
  function ReadNext(records: seq<Record>, s: Session): Session
    requires s.cursor < |records|
  {
    var r := records[s.cursor];
    s.(cursor := s.cursor + 1, counts := ReadCounts(s.counts, r), pending := ReadPending(s.pending, r))
  }

  lemma ReadNextIsSound(records: seq<Record>, s: Session)
    requires Sound(records, s) && s.cursor < |records|
    ensures Sound(records, ReadNext(records, s))
  {
    ReadHolds(records, s.cursor, s.counts, s.pending, s.w);
  }

  lemma ReadIsAStep(records: seq<Record>, z: State, y: State, s: Session) returns (t: State)
    requires Reaches(records, z, y) && Mirrors(y, s) && !y.stopping && s.cursor < |records|
    ensures Reaches(records, z, t) && Mirrors(t, ReadNext(records, s)) && !t.stopping
  {
    t := y.(job := AfterRead(y.job, records[s.cursor]));
    ReachesNext(records, z, y, Read, t);
  }

  lemma StopIsAStep(records: seq<Record>, z: State, y: State, s: Session) returns (t: State)
    requires Reaches(records, z, y) && Mirrors(y, s)
    ensures Reaches(records, z, t) && Mirrors(t, s) && t.stopping
  {
    t := y.(stopping := true);
    ReachesNext(records, z, y, Stop, t);
  }

  /** The session after its batch was ingested and the job record written. */
  function Flushed(s: Session, world: World, n: Counts): Session {
    Session(s.cursor, n, [], After(s.w, s.pending, world), s.written + [OnDisk(Processing, s.cursor, n)])
  }

  lemma IngestIsAStep(records: seq<Record>, y: State, s: Session, world: World, cs: seq<Class>, n: Counts) returns (t: State)
    requires Mirrors(y, s) && InEra(s.w, world) && Ingested(s.pending, world, cs, s.counts, n)
    ensures Next(records, y, FlushStep(world), t) && t.job == Job(Processing, s.cursor, n, [])
    ensures t.w == After(s.w, s.pending, world) && t.owed == y.owed + multiset{Worker} && t.stopping == y.stopping
  {
    t := y.(job := y.job.(counts := n, pending := []), w := After(s.w, s.pending, world), owed := y.owed + multiset{Worker});
  }

  lemma WritingIsTwoSteps(records: seq<Record>, y: State) returns (t: State, u: State)
    requires y.job.Job? && y.owed[Worker] == 1
    ensures Next(records, y, Capture(Worker), t) && Next(records, t, Land(Snapshot(y.job)), u)
    ensures u.job == y.job && u.w == y.w && Worker !in u.owed && u.disk == Snapshot(y.job) && u.stopping == y.stopping
  {
    t := y.(drafts := y.drafts + {Snapshot(y.job)}, owed := y.owed - multiset{Worker});
    u := t.(disk := Snapshot(y.job));
  }

  /** A flush is three steps: ingest, take the job record, write it. */
  lemma FlushIsSteps(records: seq<Record>, z: State, y: State, s: Session, world: World, cs: seq<Class>, n: Counts)
    returns (t: State)
    requires Reaches(records, z, y) && Mirrors(y, s)
    requires InEra(s.w, world) && Ingested(s.pending, world, cs, s.counts, n)
    ensures Reaches(records, z, t) && Mirrors(t, Flushed(s, world, n))
    ensures t.disk == OnDisk(Processing, s.cursor, n) && t.stopping == y.stopping
  {
    var a := IngestIsAStep(records, y, s, world, cs, n);
    ReachesNext(records, z, y, FlushStep(world), a);
    var b, c := WritingIsTwoSteps(records, a);
    ReachesNext(records, z, a, Capture(Worker), b);
    ReachesNext(records, z, b, Land(Snapshot(a.job)), c);
    t := c;
  }

  lemma AllTallyGrows(records: seq<Record>, written: seq<OnDisk>, w: Evidence, more: Evidence)
    requires AllTally(records, written, w) && Grows(w, more)
    ensures AllTally(records, written, more)
  {
    forall i | 0 <= i < |written| ensures RecordTallies(records, written[i], more) {
      RecordOutlives(records, written[i], w, more);
    }
  }

  lemma FlushedIsSound(records: seq<Record>, s: Session, world: World, cs: seq<Class>, n: Counts)
    requires Sound(records, s) && InEra(s.w, world) && Ingested(s.pending, world, cs, s.counts, n)
    ensures Sound(records, Flushed(s, world, n))
  {
    var t := Flushed(s, world, n);
    FlushAccounts(records, s.cursor, s.counts, s.pending, s.w, world, cs, n);
    EmptyBatch(records, t.cursor, t.counts, t.w);
    AfterGrows(s.w, s.pending, world);
    AllTallyGrows(records, s.written, s.w, t.w);
  }

  lemma NothingToIngest(w: Evidence, world: World, n: Counts)
    ensures Ingested([], world, [], n, n) && After(w, [], world) == w
  {
    assert ValidIds([], world.clock) == {};
  }

  /** The archive fails on none of the batch's valid ids that the store does not know. */
  ghost predicate Saves(lines: seq<Line>, world: World) {
    forall id :: id in ValidIds(lines, world.clock) - world.known ==> world.save(id) != SaveFailed
  }

  /** The batch as far as the archive: nothing to do for an empty one. */
  method IngestPending(s: Session, world: World) returns (ok: bool, n: Counts, ghost cs: seq<Class>)
    ensures ok ==> Ingested(s.pending, world, cs, s.counts, n)
    ensures ok <==> Saves(s.pending, world)
  {
    if s.pending == [] {
      NothingToIngest(s.w, world, s.counts);
      assert ValidIds(s.pending, world.clock) == {};
      return true, s.counts, [];
    }
    var offered;
    ok, n, offered, cs := IngestBatch(s.pending, world, s.counts);
  }

  /** `Batch::flush`: ingest what is pending, if anything, then write the job record. */
  method Flush(records: seq<Record>, s: Session, world: World, ghost z: State, ghost y: State)
    returns (ok: bool, t: Session, ghost y': State)
    requires Sound(records, s) && InEra(s.w, world) && Reaches(records, z, y) && Mirrors(y, s)
    ensures t == if ok then Flushed(s, world, t.counts) else s.(pending := [], w := After(s.w, s.pending, world))
    ensures AllTally(records, t.written, t.w)
    ensures ok ==> Sound(records, t) && Reaches(records, z, y') && Mirrors(y', t)
    ensures ok ==> y'.disk == OnDisk(Processing, t.cursor, t.counts) && y'.stopping == y.stopping
    ensures ok <==> Saves(s.pending, world)
  {
    var n;
    ghost var cs;
    ok, n, cs := IngestPending(s, world);
    AfterGrows(s.w, s.pending, world);
    AllTallyGrows(records, s.written, s.w, After(s.w, s.pending, world));
    if !ok {
      return false, s.(pending := [], w := After(s.w, s.pending, world)), y;
    }
    FlushedIsSound(records, s, world, cs, n);
    y' := FlushIsSteps(records, z, y, s, world, cs, n);
    t := Flushed(s, world, n);
  }

  /** The worker has the job to itself, as the file last told it. */
  ghost predicate Begins(records: seq<Record>, from: OnDisk, w: Evidence, z: State) {
    && from.OnDisk? && Accounted(records, from.cursor, from.counts, w)
    && z.job == Job(Processing, from.cursor, from.counts, []) && z.w == w && Worker !in z.owed && !z.stopping
  }

  /** The session is sound, within the era, and a state of the machine. */
  ghost predicate InStep(records: seq<Record>, w: Evidence, z: State, y: State, s: Session) {
    Sound(records, s) && s.w.from == w.from && s.w.until == w.until && Reaches(records, z, y) && Mirrors(y, s)
  }

  lemma StartsInStep(records: seq<Record>, from: OnDisk, w: Evidence, z: State)
    requires Begins(records, from, w, z)
    ensures InStep(records, w, z, z, Session(from.cursor, from.counts, [], w, []))
  {
    EmptyBatch(records, from.cursor, from.counts, w);
    ReachesItself(records, z);
  }

  /** What the loop meets, turn by turn: whether the server is stopping, whether the next record can
      be read, which batches have reached their limit, and the world a flush meets. */
  datatype Turns = Turns(stopping: nat -> bool, readable: nat -> bool, full: seq<Line> -> bool, worlds: nat -> World)

  /** The batch before turn `t`, when the loop starts at record `cursor` and every flush succeeds. */
  function Batched(records: seq<Record>, cursor: nat, full: seq<Line> -> bool, t: nat): seq<Line>
    requires cursor + t <= |records|
    decreases t, 0
  {
    if t == 0 || full(Filled(records, cursor, full, t - 1)) then [] else Filled(records, cursor, full, t - 1)
  }

  /** The batch once turn `t` has read its record. */
  function Filled(records: seq<Record>, cursor: nat, full: seq<Line> -> bool, t: nat): seq<Line>
    requires cursor + t < |records|
    decreases t, 1
  {
    var batch := Batched(records, cursor, full, t);
    if records[cursor + t].Text? then batch + [records[cursor + t].line] else batch
  }

  /** Turn `t` reads a record, and saves the batch if that fills it. */
  ghost predicate GoesOn(records: seq<Record>, cursor: nat, e: Turns, t: nat) {
    && !e.stopping(t) && e.readable(t) && cursor + t < |records|
    && (e.full(Filled(records, cursor, e.full, t)) ==> Saves(Filled(records, cursor, e.full, t), e.worlds(t)))
  }

  /** The last turn's flush succeeds. */
  ghost predicate LastFlush(records: seq<Record>, cursor: nat, e: Turns, turn: nat) {
    cursor + turn <= |records| && Saves(Batched(records, cursor, e.full, turn), e.worlds(turn))
  }

  /** How the loop ends, by what it meets: all turns before `turn` go on; there it stops for the server,
      finishes at the end of the file, or breaks on an unreadable record or a batch that is not saved. */
  ghost predicate EndsAs(records: seq<Record>, cursor: nat, e: Turns, turn: nat, ending: Ending) {
    && cursor + turn <= |records| && (forall t: nat :: t < turn ==> GoesOn(records, cursor, e, t))
    && (ending == Stopped <==> e.stopping(turn) && LastFlush(records, cursor, e, turn))
    && (ending == Finished <==>
          !e.stopping(turn) && e.readable(turn) && cursor + turn == |records| && LastFlush(records, cursor, e, turn))
    && (ending == Broke <==>
          || (!e.stopping(turn) && !e.readable(turn))
          || ((e.stopping(turn) || cursor + turn == |records|) && !LastFlush(records, cursor, e, turn))
          || (!e.stopping(turn) && cursor + turn < |records| && !GoesOn(records, cursor, e, turn)))
  }

  /** The loop's own view of the batch. */
  ghost predicate AtTurn(records: seq<Record>, cursor: nat, e: Turns, turn: nat, s: Session) {
    && cursor + turn == s.cursor <= |records| && s.pending == Batched(records, cursor, e.full, turn)
    && forall t: nat :: t < turn ==> GoesOn(records, cursor, e, t)
  }

  lemma StartsAtTurn(records: seq<Record>, from: OnDisk, w: Evidence, e: Turns, s: Session)
    requires from.OnDisk? && Accounted(records, from.cursor, from.counts, w)
    requires s.cursor == from.cursor && s.pending == []
    ensures AtTurn(records, from.cursor, e, 0, s)
  {
  }

  lemma ReadFills(records: seq<Record>, cursor: nat, e: Turns, turn: nat, s: Session)
    requires AtTurn(records, cursor, e, turn, s) && s.cursor < |records|
    ensures ReadNext(records, s).pending == Filled(records, cursor, e.full, turn)
  {
  }

  lemma NextTurn(records: seq<Record>, cursor: nat, e: Turns, turn: nat, s: Session, t: Session)
    requires AtTurn(records, cursor, e, turn, s) && !e.stopping(turn) && e.readable(turn) && s.cursor < |records|
    requires var filled := Filled(records, cursor, e.full, turn);
      (e.full(filled) ==> Saves(filled, e.worlds(turn))) && t.pending == if e.full(filled) then [] else filled
    requires t.cursor == s.cursor + 1
    ensures AtTurn(records, cursor, e, turn + 1, t)
  {
    assert GoesOn(records, cursor, e, turn);
  }

  lemma EndsUnsaved(records: seq<Record>, cursor: nat, e: Turns, turn: nat, s: Session)
    requires AtTurn(records, cursor, e, turn, s) && !e.stopping(turn) && e.readable(turn) && s.cursor < |records|
    requires var filled := Filled(records, cursor, e.full, turn); e.full(filled) && !Saves(filled, e.worlds(turn))
    ensures EndsAs(records, cursor, e, turn, Broke)
  {
  }

  lemma EndsAtTop(records: seq<Record>, cursor: nat, e: Turns, turn: nat, s: Session, saved: bool)
    requires AtTurn(records, cursor, e, turn, s) && (e.stopping(turn) || !e.readable(turn) || s.cursor == |records|)
    requires saved <==> Saves(s.pending, e.worlds(turn))
    ensures EndsAs(records, cursor, e, turn,
      if !saved then Broke else if e.stopping(turn) then Stopped else if e.readable(turn) then Finished else Broke)
  {
  }

  /** A job that is not stopped, on a readable file and with an archive that saves, finishes. */
  lemma UndisturbedFinishes(records: seq<Record>, cursor: nat, e: Turns, turn: nat, ending: Ending)
    requires EndsAs(records, cursor, e, turn, ending)
    requires forall t: nat :: !e.stopping(t) && e.readable(t)
    requires forall t: nat, id :: e.worlds(t).save(id) != SaveFailed
    ensures ending == Finished && cursor + turn == |records|
  {
    if cursor + turn < |records| {
      assert GoesOn(records, cursor, e, turn);
    }
    assert LastFlush(records, cursor, e, turn);
  }

  /**
   `process` from a persisted cursor. `turn` is the turn it ended on.

   What the loop meets decides how it ends: finished exactly at the end of a readable file, not
   stopped, with every batch saved. Every record written on the way tallies its own cursor, and all
   of it is a run of the state machine.
   */
  method Process(records: seq<Record>, from: OnDisk, w: Evidence, e: Turns, ghost z: State)
    returns (ending: Ending, s: Session, turn: nat, ghost y: State)
    requires Begins(records, from, w, z) && forall turn: nat :: InEra(w, e.worlds(turn))
    ensures EndsAs(records, from.cursor, e, turn, ending)
    ensures AllTally(records, s.written, s.w)
    ensures !ending.Broke? ==> InStep(records, w, z, y, s) && s.pending == [] && s.cursor == from.cursor + turn
    ensures !ending.Broke? ==> y.disk == OnDisk(Processing, s.cursor, s.counts)
    ensures ending.Stopped? ==> y.stopping
  {
    hide EndsAs, GoesOn, LastFlush, Saves, Batched, Filled, Reaches, RecordTallies, Held, AfterRead;
    s, y := Session(from.cursor, from.counts, [], w, []), z;
    StartsInStep(records, from, w, z);
    StartsAtTurn(records, from, w, e, s);
    turn := 0;
    var ok := true;
    while !e.stopping(turn) && e.readable(turn) && s.cursor < |records|
      invariant InStep(records, w, z, y, s) && !y.stopping
      invariant AtTurn(records, from.cursor, e, turn, s)
      decreases |records| - s.cursor
    {
      ghost var before := s;
      ReadNextIsSound(records, s);
      ReadFills(records, from.cursor, e, turn, s);
      y := ReadIsAStep(records, z, y, s);
      s := ReadNext(records, s);
      if e.full(s.pending) {
        ok, s, y := Flush(records, s, e.worlds(turn), z, y);
        if !ok {
          EndsUnsaved(records, from.cursor, e, turn, before);
          return Broke, s, turn, y;
        }
      }
      NextTurn(records, from.cursor, e, turn, before, s);
      turn := turn + 1;
    }
    ending := if e.stopping(turn) then Stopped else if !e.readable(turn) then Broke else Finished;
    if ending.Stopped? {
      y := StopIsAStep(records, z, y, s);
    }
    ghost var before := s;
    ok, s, y := Flush(records, s, e.worlds(turn), z, y);
    if !ok {
      ending := Broke;
    }
    EndsAtTop(records, from.cursor, e, turn, before, ok);
  }
}
