/**
 `run_pass` as a state machine: one loop that plans, takes permits and launches units, and the
 units it launched, each finishing (or panicking) on its own.
 */
module ScrapePass {
  import opened Prelude
  import opened ScrapePlanner

  /** A unit is scraping, has recorded its day, or has left the in-flight set but still holds
      its permit. */
  datatype Stage = Scraping | Recorded | Cleared

  datatype Task = Task(work: Unit, stage: Stage) {
    predicate Running() { !stage.Cleared? }
  }

  /** The launching loop: without a permit, with one, or with the relay already marked in flight. */
  datatype Launcher = Free | Permitted | Claimed

  datatype Pass = Pass(
    batch: seq<Unit>, launcher: Launcher, inFlight: set<Url>, tasks: map<nat, Task>, permits: nat,
    blocks: map<Url, nat>, done: Records)

  /** `busy` is the in-flight set as the planner read it: units that finish while it is planning
      may have left the set since. */
  datatype Step =
    | Plan(targets: seq<Relay>, busy: set<Url>, out: seq<Unit>, next: map<Url, nat>)
    | Acquire | Claim | Spawn(id: nat) | Record(id: nat) | Clear(id: nat) | Release(id: nat) | Panic(id: nat)

  /** `limit` is the configured concurrency, at least 1: the size of a batch and of the semaphore. */
  ghost predicate Next(c: Clock, limit: nat, s: Pass, step: Step, t: Pass) {
    match step
    case Plan(targets, busy, out, next) =>
      && s.launcher.Free? && s.batch == [] && s.inFlight <= busy
      && IsBatch(c, targets, busy, s.done, limit, out)
      && (CursorsHold(c, s.done, s.blocks) ==> CursorsHold(c, s.done, next))
      && t == s.(batch := out, blocks := next)
    case Acquire =>
      && s.launcher.Free? && s.batch != [] && s.permits > 0
      && t == s.(permits := s.permits - 1, launcher := Permitted)
    case Claim =>
      && s.launcher.Permitted? && s.batch != []
      && t == s.(inFlight := s.inFlight + {s.batch[0].url}, launcher := Claimed)
    case Spawn(id) =>
      && s.launcher.Claimed? && s.batch != [] && id !in s.tasks
      && t == s.(tasks := s.tasks[id := Task(s.batch[0], Scraping)], batch := s.batch[1..], launcher := Free)
    case Record(id) =>
      && id in s.tasks && s.tasks[id].stage.Scraping?
      && t == s.(tasks := s.tasks[id := s.tasks[id].(stage := Recorded)],
                 done := s.done + {(s.tasks[id].work.url, s.tasks[id].work.start)})
    case Clear(id) =>
      && id in s.tasks && s.tasks[id].Running()
      && t == s.(tasks := s.tasks[id := s.tasks[id].(stage := Stage.Cleared)], inFlight := s.inFlight - {s.tasks[id].work.url})
    case Release(id) =>
      && id in s.tasks && s.tasks[id].stage.Cleared?
      && t == s.(tasks := s.tasks - {id}, permits := s.permits + 1)
    case Panic(id) =>                       // the permit is dropped, the relay stays marked
      && id in s.tasks && s.tasks[id].Running()
      && t == s.(tasks := s.tasks - {id}, permits := s.permits + 1)
  }

  // ----- The invariant -----------------------------------------------------------------------------

  /** No two running units work on the same relay, and each one's relay is marked. */
  ghost predicate OneUnitPerRelay(s: Pass) {
    && (forall i :: i in s.tasks && s.tasks[i].Running() ==> s.tasks[i].work.url in s.inFlight)
    && (forall i, j :: i in s.tasks && j in s.tasks && i != j && s.tasks[i].Running() && s.tasks[j].Running() ==>
          s.tasks[i].work.url != s.tasks[j].work.url)
  }

  /** Relays waiting in the batch are not marked, except the one just claimed, which has no unit. */
  ghost predicate BatchIsFree(s: Pass) {
    && OnePerRelay(s.batch)
    && (!s.launcher.Free? ==> s.batch != [])
    && (forall k :: 0 <= k < |s.batch| ==> s.batch[k].url !in s.inFlight || (k == 0 && s.launcher.Claimed?))
    && (s.launcher.Claimed? ==> s.batch[0].url in s.inFlight)
    && (forall i :: i in s.tasks && s.tasks[i].Running() && s.launcher.Claimed? ==>
          s.tasks[i].work.url != s.batch[0].url)
  }

  /** No day that is planned or being scraped is already recorded. */
  ghost predicate WorkIsNew(s: Pass) {
    && (forall k :: 0 <= k < |s.batch| ==> (s.batch[k].url, s.batch[k].start) !in s.done)
    && (forall i :: i in s.tasks && s.tasks[i].stage.Scraping? ==>
          (s.tasks[i].work.url, s.tasks[i].work.start) !in s.done)
  }

  ghost predicate PermitsAddUp(limit: nat, s: Pass) {
    s.permits + |s.tasks| + (if s.launcher.Free? then 0 else 1) == limit
  }

  ghost predicate Inv(c: Clock, limit: nat, s: Pass) {
    OneUnitPerRelay(s) && BatchIsFree(s) && WorkIsNew(s) && PermitsAddUp(limit, s) && CursorsHold(c, s.done, s.blocks)
  }

  lemma OneUnitStays(c: Clock, limit: nat, s: Pass, step: Step, t: Pass)
    requires Inv(c, limit, s) && Next(c, limit, s, step, t)
    ensures OneUnitPerRelay(t)
  {
  }

  lemma BatchStaysFree(c: Clock, limit: nat, s: Pass, step: Step, t: Pass)
    requires Inv(c, limit, s) && Next(c, limit, s, step, t)
    ensures BatchIsFree(t)
  {
  }

  lemma WorkStaysNew(c: Clock, limit: nat, s: Pass, step: Step, t: Pass)
    requires Inv(c, limit, s) && Next(c, limit, s, step, t)
    ensures WorkIsNew(t)
  {
  }

  lemma TaskAdded(tasks: map<nat, Task>, id: nat, task: Task)
    requires id !in tasks
    ensures |tasks[id := task]| == |tasks| + 1
  {
  }

  lemma TaskChanged(tasks: map<nat, Task>, id: nat, task: Task)
    requires id in tasks
    ensures |tasks[id := task]| == |tasks|
  {
    assert tasks[id := task].Keys == tasks.Keys;
  }

  lemma TaskRemoved(tasks: map<nat, Task>, id: nat)
    requires id in tasks
    ensures |tasks - {id}| == |tasks| - 1
  {
    assert tasks.Keys == (tasks - {id}).Keys + {id};
  }

  lemma PermitsStay(c: Clock, limit: nat, s: Pass, step: Step, t: Pass)
    requires PermitsAddUp(limit, s) && Next(c, limit, s, step, t)
    ensures PermitsAddUp(limit, t)
  {
    if step.Spawn? {
      TaskAdded(s.tasks, step.id, Task(s.batch[0], Scraping));
    } else if step.Record? {
      TaskChanged(s.tasks, step.id, s.tasks[step.id].(stage := Recorded));
    } else if step.Clear? {
      TaskChanged(s.tasks, step.id, s.tasks[step.id].(stage := Stage.Cleared));
    } else if step.Release? || step.Panic? {
      TaskRemoved(s.tasks, step.id);
    }
  }

  lemma StepKeepsInv(c: Clock, limit: nat, s: Pass, step: Step, t: Pass)
    requires Inv(c, limit, s) && Next(c, limit, s, step, t)
    ensures Inv(c, limit, t) && s.done <= t.done
  {
    OneUnitStays(c, limit, s, step, t);
    BatchStaysFree(c, limit, s, step, t);
    WorkStaysNew(c, limit, s, step, t);
    PermitsStay(c, limit, s, step, t);
    CursorsOutliveRecords(c, s.done, t.done, s.blocks);
  }

  // ----- Whole passes --------------------------------------------------------------------------------

  /** A pass over whatever earlier passes have recorded. */
  ghost predicate IsRun(c: Clock, limit: nat, run: seq<Pass>, steps: seq<Step>) {
    && |run| == |steps| + 1
    && run[0] == Pass([], Free, {}, map[], limit, map[], run[0].done)
    && forall i :: 0 <= i < |steps| ==> Next(c, limit, run[i], steps[i], run[i + 1])
  }

  lemma InvCarries(c: Clock, limit: nat, s: Pass, step: Step, t: Pass)
    ensures Inv(c, limit, s) && Next(c, limit, s, step, t) ==> Inv(c, limit, t)
  {
    if Inv(c, limit, s) && Next(c, limit, s, step, t) {
      StepKeepsInv(c, limit, s, step, t);
    }
  }

  lemma StartHasInv(c: Clock, limit: nat, done: Records)
    ensures Inv(c, limit, Pass([], Free, {}, map[], limit, map[], done))
  {
  }

  lemma {:induction false} RunKeepsInv(c: Clock, limit: nat, run: seq<Pass>, steps: seq<Step>, i: nat)
    requires IsRun(c, limit, run, steps) && i < |run|
    ensures Inv(c, limit, run[i])
  {
    if i > 0 {
      RunKeepsInv(c, limit, run, steps, i - 1);
      InvCarries(c, limit, run[i - 1], steps[i - 1], run[i]);
    } else {
      StartHasInv(c, limit, run[0].done);
    }
  }

  lemma {:induction false} RecordsGrow(c: Clock, limit: nat, run: seq<Pass>, steps: seq<Step>, i: nat, j: nat)
    requires IsRun(c, limit, run, steps) && i <= j < |run|
    ensures run[i].done <= run[j].done
    decreases j
  {
    if i < j {
      RecordsGrow(c, limit, run, steps, i, j - 1);
      assert Next(c, limit, run[j - 1], steps[j - 1], run[j]);
    }
  }

  /**
   In every reachable state at most `limit` units exist, no relay has two running units, and a
   relay's cursor `k` implies that all its days in blocks `0..k` are recorded.
   */
  lemma PassIsSafe(c: Clock, limit: nat, run: seq<Pass>, steps: seq<Step>, i: nat)
    requires IsRun(c, limit, run, steps) && i < |run|
    ensures |run[i].tasks| <= limit
    ensures forall a, b :: a in run[i].tasks && b in run[i].tasks && a != b && run[i].tasks[a].Running() && run[i].tasks[b].Running() ==>
      run[i].tasks[a].work.url != run[i].tasks[b].work.url
    ensures forall url :: url in run[i].blocks ==> ScrapePlanner.Cleared(c, run[i].done, url, run[i].blocks[url])
  {
    RunKeepsInv(c, limit, run, steps, i);
  }

  /** The relay-day a recording step records. */
  function RecordedDay(s: Pass, step: Step): (Url, nat)
    requires step.Record? && step.id in s.tasks
  {
    (s.tasks[step.id].work.url, s.tasks[step.id].work.start)
  }

  /** Work is never doubled: no relay-day is recorded twice in a pass, nor one that an earlier
      pass had recorded. */
  lemma NoDayIsRecordedTwice(c: Clock, limit: nat, run: seq<Pass>, steps: seq<Step>, i: nat, j: nat)
    requires IsRun(c, limit, run, steps) && i < j < |steps| && steps[i].Record? && steps[j].Record?
    ensures steps[i].id in run[i].tasks && steps[j].id in run[j].tasks
    ensures RecordedDay(run[i], steps[i]) != RecordedDay(run[j], steps[j])
    ensures RecordedDay(run[j], steps[j]) !in run[0].done
  {
    assert Next(c, limit, run[i], steps[i], run[i + 1]) && Next(c, limit, run[j], steps[j], run[j + 1]);
    RunKeepsInv(c, limit, run, steps, j);
    RecordsGrow(c, limit, run, steps, i + 1, j);
    RecordsGrow(c, limit, run, steps, 0, j);
  }

  // ----- The end of a pass ---------------------------------------------------------------------------

  /** The loop leaves the pass in state `i`: its last plan, step `p`, was empty, and nothing is in
      flight any more. */
  ghost predicate EndsAfter(run: seq<Pass>, steps: seq<Step>, p: nat, i: nat) {
    && p < i < |run| == |steps| + 1
    && steps[p].Plan? && steps[p].out == [] && (forall k :: p < k < i ==> !steps[k].Plan?)
    && run[i].launcher.Free? && run[i].batch == [] && run[i].inFlight == {}
  }

  /** Every relay that could be drawn when the pass ends has all its days recorded. */
  ghost predicate NothingLeft(c: Clock, s: Pass, targets: seq<Relay>) {
    forall i :: 0 <= i < |targets| && Ready(targets[i], c.now, {}) ==> Finished(c, s.done, targets[i].url)
  }

  /** The same, asked only of the relays the last plan found busy. */
  ghost predicate BusyAreFinished(c: Clock, s: Pass, targets: seq<Relay>, busy: set<Url>) {
    forall i :: 0 <= i < |targets| && Ready(targets[i], c.now, {}) && targets[i].url in busy ==>
      Finished(c, s.done, targets[i].url)
  }

  lemma StaysFinished(c: Clock, done: Records, more: Records, url: Url)
    requires Finished(c, done, url) && done <= more
    ensures Finished(c, more, url)
  {
  }

  /**
   When a pass ends, nothing is left if and only if the relays that its last plan found busy are
   finished: the plan vouches for all others, and for these nobody looks again.
   */
  lemma EndLeavesNothingIff(c: Clock, limit: nat, run: seq<Pass>, steps: seq<Step>, p: nat, i: nat)
    requires limit >= 1 && IsRun(c, limit, run, steps) && EndsAfter(run, steps, p, i)
    ensures NothingLeft(c, run[i], steps[p].targets) <==> BusyAreFinished(c, run[i], steps[p].targets, steps[p].busy)
  {
    var targets, busy := steps[p].targets, steps[p].busy;
    assert Next(c, limit, run[p], steps[p], run[p + 1]);
    EmptyPlanMeansFinished(c, targets, busy, run[p].done, limit, []);
    RecordsGrow(c, limit, run, steps, p, i);
    forall k | 0 <= k < |targets| && Ready(targets[k], c.now, {}) && targets[k].url !in busy
      ensures Finished(c, run[i].done, targets[k].url)
    {
      assert Ready(targets[k], c.now, busy);
      StaysFinished(c, run[p].done, run[i].done, targets[k].url);
    }
  }

  /** One relay, nothing recorded, and a unit for its yesterday. */
  function Yesterday(c: Clock, url: Url): Unit
    requires c.Today() >= DAY
  {
    Unit(url, c.Today() - DAY, c.Today())
  }

  lemma YesterdayIsABatch(c: Clock, limit: nat, url: Url)
    requires limit >= 1 && c.minDate + DAY <= c.Today()
    ensures IsBatch(c, [Relay(url, None, 0, 0, None)], {}, {}, limit, [Yesterday(c, url)])
    ensures IsBatch(c, [Relay(url, None, 0, 0, None)], {url}, {}, limit, [])
    ensures !Finished(c, {}, url)
  {
    var u := Yesterday(c, url);
    var targets := [Relay(url, None, 0, 0, None)];
    assert IsDay(c, u.start);
    assert targets[0].url == url && Ready(targets[0], c.now, {});
    assert [u][0].url == url;
  }

  /** A pass at work on that unit. */
  function AtWork(limit: nat, batch: seq<Unit>, l: Launcher, marked: set<Url>, tasks: map<nat, Task>): Pass
    requires limit >= 1
  {
    Pass(batch, l, marked, tasks, if l.Free? && tasks == map[] then limit else limit - 1, map[], {})
  }

  /** The same once its day is recorded. */
  function Recording(c: Clock, limit: nat, url: Url, marked: set<Url>, stage: Stage): Pass
    requires limit >= 1 && c.Today() >= DAY
  {
    AtWork(limit, [], Free, marked, map[0 := Task(Yesterday(c, url), stage)]).(done := {(url, c.Today() - DAY)})
  }

  lemma LaunchesYesterday(c: Clock, limit: nat, url: Url)
    requires limit >= 1 && c.minDate + DAY <= c.Today()
    ensures var u := Yesterday(c, url);
      && Next(c, limit, AtWork(limit, [], Free, {}, map[]),
              Plan([Relay(url, None, 0, 0, None)], {}, [u], map[]), AtWork(limit, [u], Free, {}, map[]))
      && Next(c, limit, AtWork(limit, [u], Free, {}, map[]), Acquire, AtWork(limit, [u], Permitted, {}, map[]))
      && Next(c, limit, AtWork(limit, [u], Permitted, {}, map[]), Claim, AtWork(limit, [u], Claimed, {url}, map[]))
  {
    YesterdayIsABatch(c, limit, url);
    var none: set<Url> := {};
    assert none + {url} == {url};
  }

  lemma StartsYesterday(c: Clock, limit: nat, url: Url)
    requires limit >= 1 && c.minDate + DAY <= c.Today()
    ensures var u := Yesterday(c, url);
      && Next(c, limit, AtWork(limit, [u], Claimed, {url}, map[]), Spawn(0),
              AtWork(limit, [], Free, {url}, map[0 := Task(u, Scraping)]))
      && Next(c, limit, AtWork(limit, [], Free, {url}, map[0 := Task(u, Scraping)]),
              Plan([Relay(url, None, 0, 0, None)], {url}, [], map[]),
              AtWork(limit, [], Free, {url}, map[0 := Task(u, Scraping)]))
  {
    YesterdayIsABatch(c, limit, url);
    var u := Yesterday(c, url);
    var none: map<nat, Task> := map[];
    var one: map<nat, Task> := map[0 := Task(u, Scraping)];
    assert none[0 := Task(u, Scraping)] == one && [u][1..] == [];
    assert 0 in one && one != map[];
  }

  lemma RecordsYesterday(c: Clock, limit: nat, url: Url)
    requires limit >= 1 && c.minDate + DAY <= c.Today()
    ensures Next(c, limit, AtWork(limit, [], Free, {url}, map[0 := Task(Yesterday(c, url), Scraping)]), Record(0),
                 Recording(c, limit, url, {url}, Recorded))
    ensures Next(c, limit, Recording(c, limit, url, {url}, Recorded), Clear(0), Recording(c, limit, url, {}, Stage.Cleared))
  {
    var u := Yesterday(c, url);
    var one, two, three: map<nat, Task> := map[0 := Task(u, Scraping)], map[0 := Task(u, Recorded)], map[0 := Task(u, Stage.Cleared)];
    assert one[0 := Task(u, Recorded)] == two && two[0 := Task(u, Stage.Cleared)] == three;
    assert 0 in one && one != map[] && 0 in two && two != map[] && 0 in three && three != map[];
    var gone: set<Url> := {};
    assert {url} - {url} == gone;
    var nothing: Records := {};
    assert nothing + {(url, u.start)} == {(url, u.start)};
  }

  /** The seven steps are a run. */
  lemma EarlyEndIsARun(c: Clock, limit: nat, url: Url, run: seq<Pass>, steps: seq<Step>)
    requires limit >= 1 && c.minDate + DAY <= c.Today() && |run| == 8
    requires var targets, u := [Relay(url, None, 0, 0, None)], Yesterday(c, url);
      steps == [Plan(targets, {}, [u], map[]), Acquire, Claim, Spawn(0), Plan(targets, {url}, [], map[]), Record(0), Clear(0)]
    requires var u := Yesterday(c, url);
      && run[0] == AtWork(limit, [], Free, {}, map[]) && run[1] == AtWork(limit, [u], Free, {}, map[])
      && run[2] == AtWork(limit, [u], Permitted, {}, map[]) && run[3] == AtWork(limit, [u], Claimed, {url}, map[])
      && run[4] == run[5] == AtWork(limit, [], Free, {url}, map[0 := Task(u, Scraping)])
      && run[6] == Recording(c, limit, url, {url}, Recorded) && run[7] == Recording(c, limit, url, {}, Stage.Cleared)
    ensures IsRun(c, limit, run, steps)
  {
    LaunchesYesterday(c, limit, url);
    StartsYesterday(c, limit, url);
    RecordsYesterday(c, limit, url);
  }

  lemma DayBeforeIsOpen(c: Clock, url: Url)
    requires c.minDate + 2 * DAY <= c.Today()
    ensures !Finished(c, {(url, c.Today() - DAY)}, url)
  {
    assert IsDay(c, c.Today() - 2 * DAY);
  }

  /**
   The in-flight set is read twice, by the planner and by the loop. A unit that records its day and
   ends in between leaves its relay undrawn by the plan and unmarked for the loop: the pass ends
   with that relay's other days left, for every clock with two days to scrape.
   */
  lemma BusyPlanCanEndEarly(c: Clock, limit: nat, url: Url)
    returns (run: seq<Pass>, steps: seq<Step>)
    requires limit >= 1 && c.minDate + 2 * DAY <= c.Today()
    ensures IsRun(c, limit, run, steps) && |steps| == 7 && EndsAfter(run, steps, 4, 7)
    ensures steps[5] == Record(0) && steps[6] == Clear(0)
    ensures !NothingLeft(c, run[7], steps[4].targets)
  {
    var targets := [Relay(url, None, 0, 0, None)];
    var u := Yesterday(c, url);
    steps := [Plan(targets, {}, [u], map[]), Acquire, Claim, Spawn(0), Plan(targets, {url}, [], map[]), Record(0), Clear(0)];
    var working := AtWork(limit, [], Free, {url}, map[0 := Task(u, Scraping)]);
    run := [AtWork(limit, [], Free, {}, map[]), AtWork(limit, [u], Free, {}, map[]), AtWork(limit, [u], Permitted, {}, map[]),
            AtWork(limit, [u], Claimed, {url}, map[]), working, working,
            Recording(c, limit, url, {url}, Recorded), Recording(c, limit, url, {}, Stage.Cleared)];
    EarlyEndIsARun(c, limit, url, run, steps);
    DayBeforeIsOpen(c, url);
    assert Ready(targets[0], c.now, {});
  }
}
