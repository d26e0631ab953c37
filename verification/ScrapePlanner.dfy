/**
 The backfill planner: which relay-days `plan_batch` draws, and what a relay's block cursor
 promises about the days behind it.

 The clock is fixed for one plan. Completion records are a set of (relay, day start) pairs, the
 shuffle and the random choice within a block are parameters.
 */
module ScrapePlanner {
  import opened Prelude

  const DAY: nat := 86_400
  const BLOCK_DAYS: nat := 30
  const BLOCK: nat := BLOCK_DAYS * DAY

  type Url = string

  datatype Relay = Relay(url: Url, deadUntil: Option<nat>, fails: nat, lastFail: nat, nip11: Option<bool>)

  /** One unit of work: the relay and the day `[start, end)` to fetch from it. */
  datatype Unit = Unit(url: Url, start: nat, end: nat)

  type Records = set<(Url, nat)>

  /** The fixed clock and the configured floor. */
  datatype Clock = Clock(now: nat, minDate: nat) {
    function Today(): nat { now - now % DAY }
  }

  function SatSub(a: nat, b: nat): nat { if a < b then 0 else a - b }

  function BlockWindow(today: nat, k: nat): (nat, nat) {
    var end := SatSub(today, k * BLOCK);
    (SatSub(end, BLOCK), end)
  }

  function Doubled(n: nat): nat { if n == 0 then 1 else 2 * Doubled(n - 1) }

  function FailBackoff(fails: nat): nat {
    if fails == 0 then 0 else Min(60 * Doubled(Min(fails, 6)), 3600)
  }

  /** Not dead, not backing off, not already being scraped, not shown to be no relay. */
  predicate Ready(relay: Relay, now: nat, busy: set<Url>) {
    && !(relay.deadUntil.Some? && now < relay.deadUntil.value)
    && !(relay.fails > 0 && now < Min(relay.lastFail + FailBackoff(relay.fails), U64_MAX))
    && relay.url !in busy
    && relay.nip11 != Some(false)
  }

  /** The waits after one to five failures, and from the sixth on. */
  lemma BackoffTable()
    ensures FailBackoff(0) == 0 && FailBackoff(1) == 120 && FailBackoff(2) == 240 && FailBackoff(3) == 480
    ensures FailBackoff(4) == 960 && FailBackoff(5) == 1920
    ensures forall fails :: fails >= 6 ==> FailBackoff(fails) == 3600
  {
    assert Doubled(1) == 2 && Doubled(2) == 4 && Doubled(3) == 8 && Doubled(4) == 16 && Doubled(5) == 32 && Doubled(6) == 64;
  }

  /** Which relays can be drawn: not already in flight, not shown to be no relay, past the time until
      which they count as dead, and past the wait since their last failure. */
  lemma ReadyIff(relay: Relay, now: nat, busy: set<Url>)
    requires now < U64_MAX
    ensures Ready(relay, now, busy) <==>
      && relay.url !in busy && relay.nip11 != Some(false)
      && (relay.deadUntil == None || relay.deadUntil.value <= now)
      && (relay.fails == 0 || (relay.fails == 1 && relay.lastFail + 120 <= now)
          || (relay.fails == 2 && relay.lastFail + 240 <= now) || (relay.fails == 3 && relay.lastFail + 480 <= now)
          || (relay.fails == 4 && relay.lastFail + 960 <= now) || (relay.fails == 5 && relay.lastFail + 1920 <= now)
          || (relay.fails >= 6 && relay.lastFail + 3600 <= now))
  {
    BackoffTable();
  }

  // ----- What a cursor means -----------------------------------------------------------------------

  /** `d` is some whole number of days before `today`. */
  predicate OnGrid(today: nat, d: nat) {
    d <= today && (today - d) % DAY == 0
  }

  /** The start of a day a relay can be asked for. */
  predicate IsDay(c: Clock, d: nat) {
    c.minDate <= d < c.Today() && OnGrid(c.Today(), d)
  }

  /** These are the midnights of whole UTC days that have ended by now, not before the floor. */
  lemma DayIff(c: Clock, d: nat)
    ensures IsDay(c, d) <==> c.minDate <= d && d % 86_400 == 0 && d + 86_400 <= c.now
  {
    if d <= c.Today() {
      assert c.Today() % DAY == 0;
      assert (c.Today() - d) % DAY == 0 <==> d % DAY == 0;
    }
  }

  /** Every day in the newest `k` blocks is recorded. */
  ghost predicate Cleared(c: Clock, done: Records, url: Url, k: nat) {
    forall d: nat :: IsDay(c, d) && d >= c.Today() - k * BLOCK ==> (url, d) in done
  }

  ghost predicate Finished(c: Clock, done: Records, url: Url) {
    forall d: nat :: IsDay(c, d) ==> (url, d) in done
  }

  /** The cursor map says nothing false, and no block offset computed from it overflows. */
  ghost predicate CursorsHold(c: Clock, done: Records, blocks: map<Url, nat>) {
    forall url :: url in blocks ==>
      Cleared(c, done, url, blocks[url]) && (blocks[url] == U64_MAX || blocks[url] * BLOCK <= c.Today())
  }

  /** An open day of the relay, from the block of its newest open day. */
  ghost predicate GoodPick(c: Clock, done: Records, u: Unit) {
    && IsDay(c, u.start) && u.end == u.start + DAY && (u.url, u.start) !in done
    && forall d: nat :: IsDay(c, d) && (u.url, d) !in done ==> d < u.start + BLOCK
  }

  lemma ParkedIsFinished(c: Clock, done: Records, url: Url)
    requires c.now <= U64_MAX
    ensures Cleared(c, done, url, U64_MAX) <==> Finished(c, done, url)
  {
  }

  /** Completion records only grow, so a cursor never becomes wrong. */
  lemma CursorsOutliveRecords(c: Clock, done: Records, more: Records, blocks: map<Url, nat>)
    requires CursorsHold(c, done, blocks) && done <= more
    ensures CursorsHold(c, more, blocks)
  {
  }

  /** The next day's clock shifts every block: a cursor behind the present survives midnight if
      and only if the day that just ended is itself recorded. */
  lemma MidnightShiftsBlocks(c: Clock, next: Clock, done: Records, url: Url, k: nat)
    requires next.minDate == c.minDate <= c.Today() && next.Today() == c.Today() + DAY
    requires Cleared(c, done, url, k) && k >= 1
    ensures Cleared(next, done, url, k) <==> (url, c.Today()) in done
  {
    assert IsDay(next, c.Today());
    forall d | IsDay(next, d) && d != c.Today() ensures IsDay(c, d) {
    }
  }

  // ----- One block, one relay ----------------------------------------------------------------------

  /** Rounding up to the day grid: the one grid point in `[from, from + DAY)`. */
  lemma RoundsUp(today: nat, from: nat, d: nat)
    requires from <= today && d == today - (today - from) / DAY * DAY
    ensures OnGrid(today, d) && from <= d < from + DAY
    ensures forall e: nat :: from <= e < from + DAY && OnGrid(today, e) ==> e == d
  {
  }

  predicate OpenDay(today: nat, lo: nat, hi: nat, done: Records, u: Unit) {
    u.end == u.start + DAY && lo <= u.start < hi && OnGrid(today, u.start) && (u.url, u.start) !in done
  }

  /** The list holds exactly the relay's open days in `[lo, hi)`, oldest first. */
  ghost predicate ListsOpenDays(today: nat, lo: nat, hi: nat, url: Url, done: Records, days: seq<Unit>) {
    && (forall i :: 0 <= i < |days| ==> days[i].url == url && OpenDay(today, lo, hi, done, days[i]))
    && (forall u: Unit :: u.url == url && OpenDay(today, lo, hi, done, u) ==> u in days)
    && (forall i, j :: 0 <= i < j < |days| ==> days[i].start < days[j].start)
  }

  lemma ListGrows(today: nat, lo: nat, mid: nat, url: Url, done: Records, days: seq<Unit>, d: nat)
    requires ListsOpenDays(today, lo, mid, url, done, days) && lo <= mid <= today
    requires d == today - (today - mid) / DAY * DAY
    ensures ListsOpenDays(today, lo, mid + DAY, url, done,
      if (url, d) in done then days else days + [Unit(url, d, d + DAY)])
  {
    RoundsUp(today, mid, d);
    hide OnGrid;
    forall u: Unit | u.url == url && OpenDay(today, lo, mid + DAY, done, u) && u.start != d
      ensures u in days
    {
      assert OpenDay(today, lo, mid, done, u);
    }
  }

  /** Nothing on the grid lies between the last whole day of the block and its end. */
  lemma NoPartialDay(today: nat, lo: nat, hi: nat, d: nat)
    requires lo < hi <= today && OnGrid(today, hi) && OnGrid(today, d) && lo <= d
    ensures d < hi <==> d < lo + (hi - lo) / DAY * DAY
  {
    var m := (today - d) / DAY - (today - hi) / DAY;
    assert hi - d == m * DAY;
  }

  lemma ListIsWhole(today: nat, lo: nat, hi: nat, url: Url, done: Records, days: seq<Unit>)
    requires lo < hi <= today && OnGrid(today, hi)
    requires ListsOpenDays(today, lo, lo + (hi - lo) / DAY * DAY, url, done, days)
    ensures ListsOpenDays(today, lo, hi, url, done, days)
  {
    forall u: Unit | u.url == url && OpenDay(today, lo, hi, done, u)
      ensures u in days
    {
      NoPartialDay(today, lo, hi, u.start);
      assert OpenDay(today, lo, lo + (hi - lo) / DAY * DAY, done, u);
    }
  }

  /** Every day the loop below computes lies inside the block. */
  lemma StaysInside(today: nat, lo: nat, hi: nat, off: nat, d: nat)
    requires lo < hi <= today && OnGrid(today, hi) && off < (hi - lo) / DAY
    requires d == today - (today - (lo + off * DAY)) / DAY * DAY
    ensures lo <= d < hi
  {
    RoundsUp(today, lo + off * DAY, d);
    NoPartialDay(today, lo, hi, d);
  }

  /** The block's unfinished days: all of them, oldest first, each once. */
  method OpenDays(today: nat, lo: nat, hi: nat, url: Url, done: Records) returns (days: seq<Unit>)
    requires lo < hi <= today && OnGrid(today, hi)
    ensures ListsOpenDays(today, lo, hi, url, done, days)
  {
    days := [];
    for off := 0 to (hi - lo) / DAY
      invariant ListsOpenDays(today, lo, lo + off * DAY, url, done, days)
    {
      var from := lo + off * DAY;
      var start := today - (today - from) / DAY * DAY;
      StaysInside(today, lo, hi, off, start);
      ListGrows(today, lo, from, url, done, days, start);
      if start < lo || start >= hi {
        continue;
      }
      if (url, start) !in done {
        days := days + [Unit(url, start, start + DAY)];
      }
    }
    ListIsWhole(today, lo, hi, url, done, days);
  }

  lemma BlocksAreOnGrid(c: Clock, k: nat)
    ensures OnGrid(c.Today(), BlockWindow(c.Today(), k).1)
  {
    var today := c.Today();
    assert today == c.now / DAY * DAY;
    if today >= k * BLOCK {
      assert today - (today - k * BLOCK) == (k * BLOCK_DAYS) * DAY;
    }
  }

  lemma BlockAboveFloor(c: Clock, k: nat)
    requires BlockWindow(c.Today(), k).1 > c.minDate
    ensures BlockWindow(c.Today(), k).1 == c.Today() - k * BLOCK
    ensures Max(BlockWindow(c.Today(), k).0, c.minDate) < BlockWindow(c.Today(), k).1
  {
  }

  /** A block without open days extends what is cleared by one block. */
  lemma ClearsOneMore(c: Clock, done: Records, url: Url, k: nat, lo: nat, hi: nat)
    requires Cleared(c, done, url, k) && hi == c.Today() - k * BLOCK > c.minDate
    requires lo == Max(SatSub(hi, BLOCK), c.minDate) && ListsOpenDays(c.Today(), lo, hi, url, done, [])
    ensures Cleared(c, done, url, k + 1)
  {
    forall d: nat | IsDay(c, d) && d >= c.Today() - (k + 1) * BLOCK
      ensures (url, d) in done
    {
      if d < hi {
        assert !OpenDay(c.Today(), lo, hi, done, Unit(url, d, d + DAY));
      }
    }
  }

  lemma PickIsGood(c: Clock, done: Records, url: Url, k: nat, lo: nat, hi: nat, days: seq<Unit>, i: nat)
    requires Cleared(c, done, url, k) && hi == c.Today() - k * BLOCK > c.minDate
    requires lo == Max(SatSub(hi, BLOCK), c.minDate) && ListsOpenDays(c.Today(), lo, hi, url, done, days)
    requires i < |days|
    ensures days[i].url == url && GoodPick(c, done, days[i])
  {
    var u := days[i];
    assert OpenDay(c.Today(), lo, hi, done, u);
    forall d: nat | IsDay(c, d) && (url, d) !in done
      ensures d < u.start + BLOCK
    {
      assert d < hi;
    }
  }

  lemma RunsOffTheFloor(c: Clock, done: Records, url: Url, k: nat)
    requires Cleared(c, done, url, k) && BlockWindow(c.Today(), k).1 <= c.minDate
    ensures Finished(c, done, url)
  {
  }

  /** What remains of the walk: nothing once parked, and one block less at every step. */
  function BlocksLeft(c: Clock, k: nat): nat {
    if k == U64_MAX then 0 else 1 + SatSub(c.Today() + BLOCK, k * BLOCK)
  }

  /**
   Walk one relay's blocks from its cursor to the first block with an open day. The walk ends
   from any cursor. `choose` is the random draw.
   */
  method WalkRelay(c: Clock, done: Records, url: Url, cursor: nat, choose: nat)
    returns (k: nat, picked: Option<Unit>)
    requires c.now <= U64_MAX && cursor <= U64_MAX && Cleared(c, done, url, cursor)
    ensures Cleared(c, done, url, k) && (k == U64_MAX || k * BLOCK <= c.Today()) && k >= cursor
    ensures picked.Some? ==> picked.value.url == url && GoodPick(c, done, picked.value)
    ensures picked.Some? <==> k != U64_MAX
    ensures picked.None? <==> Finished(c, done, url)
  {
    k := cursor;
    picked := None;
    ParkedIsFinished(c, done, url);
    while k != U64_MAX
      invariant Cleared(c, done, url, k) && cursor <= k <= U64_MAX
      invariant k == U64_MAX ==> Finished(c, done, url)
      invariant picked.None?
      decreases BlocksLeft(c, k)
    {
      var (wLo, wHi) := BlockWindow(c.Today(), k);
      BlocksAreOnGrid(c, k);
      if wHi <= c.minDate {
        RunsOffTheFloor(c, done, url, k);
        k := U64_MAX;
        break;
      }
      BlockAboveFloor(c, k);
      var lo := Max(wLo, c.minDate);
      var hi := Min(wHi, c.Today());
      if lo < hi {
        var days := OpenDays(c.Today(), lo, hi, url, done);
        if days != [] {
          PickIsGood(c, done, url, k, lo, hi, days, choose % |days|);
          picked := Some(days[choose % |days|]);
          break;
        }
        ClearsOneMore(c, done, url, k, lo, hi);
      }
      k := k + 1;
    }
  }

  // ----- A batch -------------------------------------------------------------------------------------

  ghost predicate DistinctRelays(targets: seq<Relay>) {
    forall i, j :: 0 <= i < j < |targets| ==> targets[i].url != targets[j].url
  }

  /** `order` is a shuffle of the indices below `n`. */
  ghost predicate Shuffles(order: seq<nat>, n: nat) {
    && (forall i :: 0 <= i < |order| ==> order[i] < n)
    && (forall i, j :: 0 <= i < j < |order| ==> order[i] != order[j])
    && (forall k: nat :: k < n ==> k in order)
  }

  /** One unit per relay. */
  ghost predicate OnePerRelay(out: seq<Unit>) {
    forall i, j :: 0 <= i < j < |out| ==> out[i].url != out[j].url
  }

  ghost predicate Drawn(out: seq<Unit>, url: Url) {
    exists i :: 0 <= i < |out| && out[i].url == url
  }

  /** The unit goes to a relay that was ready, for a well-chosen day. */
  ghost predicate Sound(c: Clock, targets: seq<Relay>, busy: set<Url>, done: Records, u: Unit) {
    GoodPick(c, done, u) && exists i :: 0 <= i < |targets| && targets[i].url == u.url && Ready(targets[i], c.now, busy)
  }

  /** The relay got a unit, needs none, or could not be drawn. */
  ghost predicate Served(c: Clock, busy: set<Url>, done: Records, out: seq<Unit>, relay: Relay) {
    Ready(relay, c.now, busy) ==> Drawn(out, relay.url) || Finished(c, done, relay.url)
  }

  /** One of the first `n` relays in shuffled order. */
  ghost predicate Among(targets: seq<Relay>, order: seq<nat>, n: nat, url: Url)
    requires n <= |order| && Shuffles(order, |targets|)
  {
    exists j :: 0 <= j < n && targets[order[j]].url == url
  }

  /** The batch after the first `n` relays have been looked at. */
  ghost predicate Progress(c: Clock, targets: seq<Relay>, order: seq<nat>, busy: set<Url>, done: Records,
                           n: nat, out: seq<Unit>)
    requires n <= |order| && Shuffles(order, |targets|)
  {
    && OnePerRelay(out)
    && (forall i :: 0 <= i < |out| ==> Sound(c, targets, busy, done, out[i]) && Among(targets, order, n, out[i].url))
    && (forall j :: 0 <= j < n ==> Served(c, busy, done, out, targets[order[j]]))
  }

  lemma NotDrawnYet(targets: seq<Relay>, order: seq<nat>, n: nat)
    requires DistinctRelays(targets) && Shuffles(order, |targets|) && n < |order|
    ensures !Among(targets, order, n, targets[order[n]].url)
  {
    forall j | 0 <= j < n ensures targets[order[j]].url != targets[order[n]].url {
      assert order[j] != order[n];
    }
  }

  lemma AmongGrows(targets: seq<Relay>, order: seq<nat>, n: nat, url: Url)
    requires Shuffles(order, |targets|) && n < |order|
    requires Among(targets, order, n, url) || targets[order[n]].url == url
    ensures Among(targets, order, n + 1, url)
  {
    if targets[order[n]].url != url {
      var j :| 0 <= j < n && targets[order[j]].url == url;
    }
  }

  lemma StillServed(c: Clock, busy: set<Url>, done: Records, out: seq<Unit>, u: Unit, relay: Relay)
    requires Served(c, busy, done, out, relay) || u.url == relay.url
    ensures Served(c, busy, done, out + [u], relay)
  {
    if Drawn(out, relay.url) {
      var i :| 0 <= i < |out| && out[i].url == relay.url;
      assert (out + [u])[i].url == relay.url;
    } else {
      assert (out + [u])[|out|] == u;
    }
  }

  lemma ProgressDraws(c: Clock, targets: seq<Relay>, order: seq<nat>, busy: set<Url>, done: Records,
                      n: nat, out: seq<Unit>, u: Unit)
    requires n < |order| && Shuffles(order, |targets|) && DistinctRelays(targets)
    requires Progress(c, targets, order, busy, done, n, out)
    requires u.url == targets[order[n]].url && Sound(c, targets, busy, done, u)
    ensures Progress(c, targets, order, busy, done, n + 1, out + [u])
  {
    NotDrawnYet(targets, order, n);
    forall i | 0 <= i < |out + [u]|
      ensures Sound(c, targets, busy, done, (out + [u])[i]) && Among(targets, order, n + 1, (out + [u])[i].url)
    {
      AmongGrows(targets, order, n, (out + [u])[i].url);
    }
    forall j | 0 <= j < n + 1 ensures Served(c, busy, done, out + [u], targets[order[j]]) {
      StillServed(c, busy, done, out, u, targets[order[j]]);
    }
  }

  lemma ProgressPasses(c: Clock, targets: seq<Relay>, order: seq<nat>, busy: set<Url>, done: Records,
                       n: nat, out: seq<Unit>)
    requires n < |order| && Shuffles(order, |targets|) && DistinctRelays(targets)
    requires Progress(c, targets, order, busy, done, n, out)
    requires Served(c, busy, done, out, targets[order[n]])
    ensures Progress(c, targets, order, busy, done, n + 1, out)
  {
    forall i | 0 <= i < |out| ensures Among(targets, order, n + 1, out[i].url) {
      AmongGrows(targets, order, n, out[i].url);
    }
  }

  lemma AllServed(c: Clock, targets: seq<Relay>, order: seq<nat>, busy: set<Url>, done: Records, out: seq<Unit>)
    requires Shuffles(order, |targets|) && Progress(c, targets, order, busy, done, |order|, out)
    ensures forall i :: 0 <= i < |targets| ==> Served(c, busy, done, out, targets[i])
  {
    forall i: nat | i < |targets| ensures Served(c, busy, done, out, targets[i]) {
      assert i in order;
    }
  }

  /** What a batch promises: see PlanBatch. */
  ghost predicate IsBatch(c: Clock, targets: seq<Relay>, busy: set<Url>, done: Records, limit: nat, out: seq<Unit>) {
    && |out| <= limit && OnePerRelay(out)
    && (forall i :: 0 <= i < |out| ==> Sound(c, targets, busy, done, out[i]))
    && (|out| < limit ==> forall i :: 0 <= i < |targets| ==> Served(c, busy, done, out, targets[i]))
  }

  /**
   Draw up to `limit` units. Every cursor stays truthful; each relay gets at most one unit, from
   the block of its newest open day; a batch below the limit leaves out no relay with work.
   */
  method PlanBatch(c: Clock, targets: seq<Relay>, order: seq<nat>, choose: Url -> nat,
                   blocks: map<Url, nat>, busy: set<Url>, done: Records, limit: nat)
    returns (out: seq<Unit>, next: map<Url, nat>)
    requires c.now <= U64_MAX && DistinctRelays(targets) && Shuffles(order, |targets|)
    requires CursorsHold(c, done, blocks)
    ensures CursorsHold(c, done, next) && IsBatch(c, targets, busy, done, limit, out)
    ensures forall url :: url in blocks ==> url in next && blocks[url] <= next[url]
  {
    out, next := [], blocks;
    var n := 0;
    while n < |order| && |out| < limit
      invariant 0 <= n <= |order| && |out| <= limit
      invariant CursorsHold(c, done, next)
      invariant forall url :: url in blocks ==> url in next && blocks[url] <= next[url]
      invariant Progress(c, targets, order, busy, done, n, out)
    {
      var relay := targets[order[n]];
      if Ready(relay, c.now, busy) {
        var cursor := if relay.url in next then next[relay.url] else 0;
        var k, picked := WalkRelay(c, done, relay.url, cursor, choose(relay.url));
        next := next[relay.url := k];
        if picked.Some? {
          ProgressDraws(c, targets, order, busy, done, n, out, picked.value);
          out := out + [picked.value];
        } else {
          ProgressPasses(c, targets, order, busy, done, n, out);
        }
      } else {
        ProgressPasses(c, targets, order, busy, done, n, out);
      }
      n := n + 1;
    }
    if |out| < limit {
      AllServed(c, targets, order, busy, done, out);
    }
  }

  /** An empty batch means that every drawable relay is finished, and the other way round. */
  lemma EmptyPlanMeansFinished(c: Clock, targets: seq<Relay>, busy: set<Url>, done: Records, limit: nat, out: seq<Unit>)
    requires limit >= 1 && IsBatch(c, targets, busy, done, limit, out)
    ensures out == [] <==>
      forall i :: 0 <= i < |targets| && Ready(targets[i], c.now, busy) ==> Finished(c, done, targets[i].url)
  {
    if out != [] {
      assert Sound(c, targets, busy, done, out[0]);
      var i :| 0 <= i < |targets| && targets[i].url == out[0].url && Ready(targets[i], c.now, busy);
      assert !Finished(c, done, targets[i].url);
    } else {
      forall i | 0 <= i < |targets| && Ready(targets[i], c.now, busy)
        ensures Finished(c, done, targets[i].url)
      {
        assert Served(c, busy, done, out, targets[i]);
      }
    }
  }
}
