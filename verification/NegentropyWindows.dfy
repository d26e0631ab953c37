/**
 The negentropy half of `scrape_day`: one-hour windows on a stack, newest on top, each
 reconciled with the relay and split in two when the set it presents looks truncated.

 The relay is an arbitrary function of (reconciliation number, window), so every pattern of
 answers, splits and failures is covered.
 */
module NegentropyWindows {
  import opened Prelude

  const NEG_WINDOW_SECS: nat := 3_600
  const NEG_CAP_FLOOR: nat := 5_000
  const U32: nat := 0x1_0000_0000

  /** The half-open window `[lo, hi)` in seconds. */
  datatype Span = Span(lo: nat, hi: nat)

  /** How one reconciliation ends: an id set of this size (and whether its gaps could be
      fetched), a refusal of the protocol, or any other error. */
  datatype Answer = Synced(remote: nat, fetched: bool) | Unsupported | Broken

  datatype Outcome = Done | FallBack | UnitFailed

  datatype Accepted = Accepted(span: Span, remote: nat)

  /** The windows on the stack, bottom first, tile `[lo, hi)`. */
  predicate TilesUp(stack: seq<Span>, lo: nat, hi: nat)
    decreases |stack|
  {
    if stack == [] then lo == hi
    else
      var top := stack[|stack| - 1];
      top.lo < top.hi == hi && TilesUp(stack[..|stack| - 1], lo, top.lo)
  }

  /** The accepted windows, newest first, tile `[lo, hi)`. */
  predicate TilesDown(done: seq<Accepted>, lo: nat, hi: nat)
    decreases |done|
  {
    if done == [] then lo == hi
    else
      var last := done[|done| - 1].span;
      lo == last.lo < last.hi && TilesDown(done[..|done| - 1], last.hi, hi)
  }

  function Total(done: seq<Accepted>): nat {
    if done == [] then 0 else Total(done[..|done| - 1]) + done[|done| - 1].remote
  }

  /** Wide enough to be split again without going below the floor. */
  predicate Wide(span: Span, floor: nat) {
    span.lo <= span.hi && (span.hi - span.lo) / 2 >= floor
  }

  /** No wide window was taken at face value at or above the ceiling. */
  predicate TakenBelow(done: seq<Accepted>, floor: nat, negCap: nat) {
    forall i :: 0 <= i < |done| && Wide(done[i].span, floor) ==> done[i].remote < Max(negCap, NEG_CAP_FLOOR)
  }

  /** How many whole floors fit into `len` seconds. */
  function Slots(len: nat, floor: nat): nat
    requires floor >= 1
  {
    if len < floor then 0 else 1 + Slots(len - floor, floor)
  }

  /** Hour windows plus two reconciliations for every floor-width of the day. */
  function AskBound(start: nat, end: nat, floor: nat): nat
    requires start <= end && floor >= 1
  {
    (end - start + NEG_WINDOW_SECS - 1) / NEG_WINDOW_SECS + 2 * Slots(end - start, floor)
  }

  // ----- Bounding the number of reconciliations ----------------------------------------

  /** How many reconciliations a window can still cost, itself included. */
  function Cost(span: Span, floor: nat): nat
    requires floor >= 1 && span.lo <= span.hi
  {
    var n := Slots(span.hi - span.lo, floor);
    if n == 0 then 1 else 2 * n - 1
  }

  function CostOf(stack: seq<Span>, floor: nat): nat
    requires floor >= 1 && forall w :: w in stack ==> w.lo <= w.hi
    decreases |stack|
  {
    if stack == [] then 0 else CostOf(stack[..|stack| - 1], floor) + Cost(stack[|stack| - 1], floor)
  }

  lemma {:induction false} SlotsAdd(a: nat, b: nat, floor: nat)
    requires floor >= 1
    ensures Slots(a, floor) + Slots(b, floor) <= Slots(a + b, floor)
    decreases a + b
  {
    if a >= floor {
      SlotsAdd(a - floor, b, floor);
    } else if b >= floor {
      SlotsAdd(a, b - floor, floor);
    }
  }

  /** Slots are the integer quotient. */
  lemma {:induction false} SlotsAreQuotient(len: nat, floor: nat)
    requires floor >= 1
    ensures Slots(len, floor) * floor <= len < (Slots(len, floor) + 1) * floor
  {
    if len >= floor {
      SlotsAreQuotient(len - floor, floor);
    }
  }

  /** Splitting a window at its middle pays for the reconciliation that asked for it. */
  lemma SplitPays(lo: nat, mid: nat, hi: nat, floor: nat)
    requires floor >= 1 && lo + floor <= mid && mid + floor <= hi
    ensures Cost(Span(lo, mid), floor) + Cost(Span(mid, hi), floor) < Cost(Span(lo, hi), floor)
  {
    SlotsAdd(mid - lo, hi - mid, floor);
  }

  lemma {:induction false} TilingIsOrdered(stack: seq<Span>, lo: nat, hi: nat)
    requires TilesUp(stack, lo, hi)
    ensures lo <= hi
    ensures forall w :: w in stack ==> lo <= w.lo < w.hi <= hi
    decreases |stack|
  {
    if stack != [] {
      var rest, top := stack[..|stack| - 1], stack[|stack| - 1];
      TilingIsOrdered(rest, lo, top.lo);
      assert stack == rest + [top];
    }
  }

  lemma {:induction false} TilingCost(stack: seq<Span>, lo: nat, hi: nat, floor: nat)
    requires floor >= 1 && TilesUp(stack, lo, hi)
    ensures lo <= hi && forall w :: w in stack ==> w.lo <= w.hi
    ensures CostOf(stack, floor) <= |stack| + 2 * Slots(hi - lo, floor)
    decreases |stack|
  {
    TilingIsOrdered(stack, lo, hi);
    if stack != [] {
      var rest, top := stack[..|stack| - 1], stack[|stack| - 1];
      TilingCost(rest, lo, top.lo, floor);
      SlotsAdd(top.lo - lo, top.hi - top.lo, floor);
    }
  }

  // ----- Counting events over a tiling -------------------------------------------------

  function Within(times: multiset<nat>, lo: nat, hi: nat): nat
    requires lo <= hi
    decreases hi - lo
  {
    if lo == hi then 0 else times[lo] + Within(times, lo + 1, hi)
  }

  lemma {:induction false} WithinSplits(times: multiset<nat>, lo: nat, mid: nat, hi: nat)
    requires lo <= mid <= hi
    ensures Within(times, lo, hi) == Within(times, lo, mid) + Within(times, mid, hi)
    decreases mid - lo
  {
    if lo < mid {
      WithinSplits(times, lo + 1, mid, hi);
    }
  }

  /** If every accepted window saw the relay's true set, `seen` is the day's true total. */
  lemma {:induction false} HonestTotal(times: multiset<nat>, done: seq<Accepted>, lo: nat, hi: nat)
    requires TilesDown(done, lo, hi)
    requires forall a :: a in done && a.span.lo <= a.span.hi ==> a.remote == Within(times, a.span.lo, a.span.hi)
    ensures lo <= hi && Total(done) == Within(times, lo, hi)
    decreases |done|
  {
    if done != [] {
      var rest, last := done[..|done| - 1], done[|done| - 1];
      assert last in done;
      HonestTotal(times, rest, last.span.hi, hi);
      WithinSplits(times, lo, last.span.hi, hi);
    }
  }

  // ----- The code -----------------------------------------------------------------------

  /** Hour-wide windows over `[start, end)`, oldest at the bottom. */
  method HourWindows(start: nat, end: nat) returns (stack: seq<Span>)
    requires start <= end
    ensures TilesUp(stack, start, end)
    ensures forall w :: w in stack ==> w.hi - w.lo <= NEG_WINDOW_SECS
    ensures |stack| == (end - start + NEG_WINDOW_SECS - 1) / NEG_WINDOW_SECS
  {
    stack := [];
    var s := start;
    while s < end
      invariant start <= s <= end && TilesUp(stack, start, s)
      invariant forall w :: w in stack ==> w.hi - w.lo <= NEG_WINDOW_SECS
      invariant s == Min(start + |stack| * NEG_WINDOW_SECS, end)
      invariant stack == [] || start + (|stack| - 1) * NEG_WINDOW_SECS < end
    {
      var e := Min(s + NEG_WINDOW_SECS, end);
      ghost var below := stack;
      stack := stack + [Span(s, e)];
      assert stack[..|stack| - 1] == below;
      s := e;
    }
  }

  /** The stack below the top window. */
  function Below(stack: seq<Span>): seq<Span>
    requires stack != []
  {
    stack[..|stack| - 1]
  }

  /** The stack with its top window halved, the newer half on top. */
  function Halved(stack: seq<Span>): seq<Span>
    requires stack != [] && stack[|stack| - 1].lo <= stack[|stack| - 1].hi
  {
    var top := stack[|stack| - 1];
    var mid := top.lo + (top.hi - top.lo) / 2;
    Below(stack) + [Span(top.lo, mid), Span(mid, top.hi)]
  }

  /** The windows tile `[lo, hi)`, and `budget` covers what they can still cost. */
  ghost predicate Affordable(stack: seq<Span>, lo: nat, hi: nat, floor: nat, budget: nat) {
    floor >= 1 && TilesUp(stack, lo, hi) && (forall w :: w in stack ==> w.lo <= w.hi) && CostOf(stack, floor) <= budget
  }

  /** Popping a window keeps the tiling of what is left and pays for one reconciliation. */
  lemma PopPays(stack: seq<Span>, lo: nat, hi: nat, floor: nat, budget: nat)
    requires Affordable(stack, lo, hi, floor, budget) && stack != []
    ensures var top := stack[|stack| - 1];
      && lo <= top.lo < top.hi == hi && budget > 0
      && Affordable(Below(stack), lo, top.lo, floor, budget - 1)
  {
    var top := stack[|stack| - 1];
    TilingIsOrdered(stack, lo, hi);
    TilingIsOrdered(Below(stack), lo, top.lo);
  }

  lemma CostAppend(stack: seq<Span>, w: Span, floor: nat)
    requires floor >= 1 && (forall x :: x in stack ==> x.lo <= x.hi) && w.lo <= w.hi
    ensures forall x :: x in stack + [w] ==> x.lo <= x.hi
    ensures CostOf(stack + [w], floor) == CostOf(stack, floor) + Cost(w, floor)
  {
    assert (stack + [w])[..|stack|] == stack;
  }

  lemma TilesAppend(stack: seq<Span>, lo: nat, w: Span)
    requires TilesUp(stack, lo, w.lo) && w.lo < w.hi
    ensures TilesUp(stack + [w], lo, w.hi)
  {
    assert (stack + [w])[..|stack|] == stack;
  }

  /** And so does halving it. */
  lemma HalvingPays(stack: seq<Span>, lo: nat, hi: nat, floor: nat, budget: nat)
    requires Affordable(stack, lo, hi, floor, budget) && stack != [] && Wide(stack[|stack| - 1], floor)
    ensures budget > 0 && Affordable(Halved(stack), lo, hi, floor, budget - 1)
  {
    var below, top := Below(stack), stack[|stack| - 1];
    PopPays(stack, lo, hi, floor, budget);
    var mid := top.lo + (top.hi - top.lo) / 2;
    var older, newer := Span(top.lo, mid), Span(mid, top.hi);
    SplitPays(top.lo, mid, top.hi, floor);
    TilesAppend(below, lo, older);
    TilesAppend(below + [older], lo, newer);
    CostAppend(below, older, floor);
    CostAppend(below + [older], newer, floor);
    assert Halved(stack) == below + [older] + [newer];
  }

  lemma Accept(done: seq<Accepted>, span: Span, remote: nat, end: nat, floor: nat, negCap: nat)
    requires TilesDown(done, span.hi, end) && span.lo < span.hi && TakenBelow(done, floor, negCap)
    requires Wide(span, floor) ==> remote < Max(negCap, NEG_CAP_FLOOR)
    ensures TilesDown(done + [Accepted(span, remote)], span.lo, end)
    ensures Total(done + [Accepted(span, remote)]) == Total(done) + remote
    ensures TakenBelow(done + [Accepted(span, remote)], floor, negCap)
  {
    assert (done + [Accepted(span, remote)])[..|done|] == done;
  }

  /** A higher ceiling takes back nothing. */
  lemma CeilingRises(done: seq<Accepted>, floor: nat, negCap: nat, higher: nat)
    requires TakenBelow(done, floor, negCap) && negCap <= higher
    ensures TakenBelow(done, floor, higher)
  {
  }

  /** The hour windows of a day are within its bound, and no windows are left only for no time. */
  lemma DayIsAffordable(stack: seq<Span>, start: nat, end: nat, floor: nat)
    requires start <= end && floor >= 1 && TilesUp(stack, start, end)
    requires |stack| == (end - start + NEG_WINDOW_SECS - 1) / NEG_WINDOW_SECS
    ensures Affordable(stack, start, end, floor, AskBound(start, end, floor))
  {
    TilingCost(stack, start, end, floor);
  }

  lemma NothingLeft(lo: nat, hi: nat, floor: nat, budget: nat)
    requires Affordable([], lo, hi, floor, budget)
    ensures lo == hi
  {
  }

  // ----- What the answers decide ------------------------------------------------------------

  type Relay = (nat, Span) -> Answer

  /** The answer to the last window of a log of windows asked. */
  function LastAnswer(relay: Relay, log: seq<Span>): Answer
    requires log != []
  {
    relay(|log| - 1, log[|log| - 1])
  }

  /** The largest set the relay has presented so far, as a u32. */
  function CapAfter(relay: Relay, log: seq<Span>, negCap: nat): nat {
    if log == [] then negCap
    else
      var before := CapAfter(relay, log[..|log| - 1], negCap);
      match LastAnswer(relay, log)
      case Synced(n, _) => Max(before, n % 0x1_0000_0000)
      case _ => before
  }

  /** The last window's set is taken at face value: it is below the ceiling, or too narrow to split. */
  predicate TakesLast(relay: Relay, log: seq<Span>, floor: nat, negCap: nat) {
    && log != [] && LastAnswer(relay, log).Synced?
    && var n, span := LastAnswer(relay, log).remote, log[|log| - 1];
    n < CapAfter(relay, log, negCap) || n < 5_000 || span.hi < span.lo || (span.hi - span.lo) / 2 < floor
  }

  /** The windows taken, each with the size of the set it was answered with. */
  function Takings(relay: Relay, log: seq<Span>, floor: nat, negCap: nat): seq<Accepted> {
    if log == [] then []
    else
      var before := Takings(relay, log[..|log| - 1], floor, negCap);
      if TakesLast(relay, log, floor, negCap) then before + [Accepted(log[|log| - 1], LastAnswer(relay, log).remote)]
      else before
  }

  /** The last window was reconciled, and fetched if it was taken. */
  predicate LastIsFine(relay: Relay, log: seq<Span>, floor: nat, negCap: nat)
    requires log != []
  {
    LastAnswer(relay, log).Synced? && (TakesLast(relay, log, floor, negCap) ==> LastAnswer(relay, log).fetched)
  }

  /** So was every window. */
  predicate AllFine(relay: Relay, log: seq<Span>, floor: nat, negCap: nat) {
    log == [] || (AllFine(relay, log[..|log| - 1], floor, negCap) && LastIsFine(relay, log, floor, negCap))
  }

  /** How the loop ends, by the answers: done if all is fine; abandoned for plain requests if the last
      answer is a refusal, or an error before any window was taken; failed if it is an error after one,
      or if a window taken could not be fetched. */
  ghost predicate EndsAs(relay: Relay, log: seq<Span>, floor: nat, negCap: nat, outcome: Outcome) {
    && (outcome == Done <==> AllFine(relay, log, floor, negCap))
    && (outcome == FallBack <==> (log != [] &&
          (LastAnswer(relay, log).Unsupported? ||
           (LastAnswer(relay, log).Broken? && Takings(relay, log, floor, negCap) == []))))
    && (outcome == UnitFailed <==> (log != [] &&
          ((LastAnswer(relay, log).Broken? && Takings(relay, log, floor, negCap) != []) ||
           (TakesLast(relay, log, floor, negCap) && !LastAnswer(relay, log).fetched))))
  }

  /** Asking one more window. */
  lemma OneMoreAsk(relay: Relay, log: seq<Span>, span: Span, floor: nat, negCap: nat)
    ensures var more, reply := log + [span], relay(|log|, span);
      && LastAnswer(relay, more) == reply
      && CapAfter(relay, more, negCap) ==
           (if reply.Synced? then Max(CapAfter(relay, log, negCap), reply.remote % 0x1_0000_0000) else CapAfter(relay, log, negCap))
      && Takings(relay, more, floor, negCap) == Takings(relay, log, floor, negCap)
           + (if TakesLast(relay, more, floor, negCap) then [Accepted(span, reply.remote)] else [])
      && (TakesLast(relay, more, floor, negCap) <==> (reply.Synced? &&
            !(reply.remote >= Max(CapAfter(relay, more, negCap), NEG_CAP_FLOOR) && Wide(span, floor))))
      && (AllFine(relay, more, floor, negCap) <==> (AllFine(relay, log, floor, negCap) && reply.Synced?
            && (TakesLast(relay, more, floor, negCap) ==> reply.fetched)))
  {
    assert (log + [span])[..|log|] == log;
  }

  lemma NothingAsked(relay: Relay, end: nat, floor: nat, negCap: nat)
    ensures AllFine(relay, [], floor, negCap) && Takings(relay, [], floor, negCap) == [] && CapAfter(relay, [], negCap) == negCap
    ensures TilesDown([], end, end) && Total([]) == 0 && TakenBelow([], floor, negCap)
  {
  }

  lemma EndsDone(relay: Relay, log: seq<Span>, floor: nat, negCap: nat)
    requires AllFine(relay, log, floor, negCap)
    ensures EndsAs(relay, log, floor, negCap, Done)
  {
  }

  /** A last answer that is not fine, after windows that were. */
  lemma EndsEarly(relay: Relay, log: seq<Span>, span: Span, floor: nat, negCap: nat, outcome: Outcome)
    requires !AllFine(relay, log + [span], floor, negCap) && AllFine(relay, log, floor, negCap)
    requires outcome == match relay(|log|, span)
      case Unsupported => FallBack
      case Broken => if Takings(relay, log, floor, negCap) != [] then UnitFailed else FallBack
      case Synced(_, _) => UnitFailed
    ensures EndsAs(relay, log + [span], floor, negCap, outcome)
  {
    OneMoreAsk(relay, log, span, floor, negCap);
  }

  /**
   The window loop. `negCap` is the relay's largest set so far (a u32); `asks` counts the
   reconciliations spent.

   On `Done` the accepted windows tile the day exactly, newest first, and `seen` is their
   sum. A window wide enough to split is only ever accepted below the relay's ceiling. `log` is the
   windows asked, in order: the answers to them decide the outcome and what was accepted.
   */
  method Sync(answer: Relay, start: nat, end: nat, floor: nat, negCap: nat)
    returns (outcome: Outcome, seen: nat, done: seq<Accepted>, asks: nat, negCap': nat, ghost log: seq<Span>)
    requires start <= end && floor >= 1
    ensures exists lo: nat :: start <= lo <= end && TilesDown(done, lo, end)
    ensures outcome.Done? ==> TilesDown(done, start, end) && seen == Total(done)
    ensures outcome.FallBack? ==> seen == 0
    ensures outcome.UnitFailed? ==> seen == Total(done)
    ensures TakenBelow(done, floor, negCap') && negCap <= negCap'
    ensures asks <= AskBound(start, end, floor)
    ensures |log| == asks && EndsAs(answer, log, floor, negCap, outcome)
    ensures done == Takings(answer, log, floor, negCap) && negCap' == CapAfter(answer, log, negCap)
  {
    hide AllFine, Takings, CapAfter, TakesLast, EndsAs, LastAnswer;
    hide AskBound, Affordable, TilesUp, TilesDown, TakenBelow, Total, Wide;
    NothingAsked(answer, end, floor, negCap);
    var stack := HourWindows(start, end);
    DayIsAffordable(stack, start, end, floor);
    ghost var bound, lo: nat := AskBound(start, end, floor), end;
    seen, done, asks, negCap', log := 0, [], 0, negCap, [];
    while stack != []
      invariant start <= lo <= end && TilesDown(done, lo, end) && seen == Total(done)
      invariant asks <= bound && Affordable(stack, start, lo, floor, bound - asks)
      invariant TakenBelow(done, floor, negCap') && negCap <= negCap'
      invariant |log| == asks && AllFine(answer, log, floor, negCap)
      invariant done == Takings(answer, log, floor, negCap) && negCap' == CapAfter(answer, log, negCap)
      decreases bound - asks
    {
      PopPays(stack, start, lo, floor, bound - asks);
      var span := stack[|stack| - 1];
      var reply := answer(asks, span);
      OneMoreAsk(answer, log, span, floor, negCap);
      assert (log + [span])[..|log|] == log;
      asks, log := asks + 1, log + [span];
      if reply.Unsupported? {
        outcome, seen := FallBack, 0;
        EndsEarly(answer, log[..asks - 1], span, floor, negCap, outcome);
        return;
      }
      if reply.Broken? {
        outcome := if done != [] then UnitFailed else FallBack;
        EndsEarly(answer, log[..asks - 1], span, floor, negCap, outcome);
        return;
      }
      var n := reply.remote;
      CeilingRises(done, floor, negCap', Max(negCap', n % U32));
      negCap' := Max(negCap', n % U32);
      if n >= Max(negCap', NEG_CAP_FLOOR) && Wide(span, floor) {
        HalvingPays(stack, start, lo, floor, bound - asks + 1);
        stack := Halved(stack);
        continue;
      }
      Accept(done, span, n, end, floor, negCap');
      stack, lo := Below(stack), span.lo;
      seen, done := seen + n, done + [Accepted(span, n)];
      if !reply.fetched {
        outcome := UnitFailed;
        EndsEarly(answer, log[..asks - 1], span, floor, negCap, outcome);
        return;
      }
    }
    outcome := Done;
    NothingLeft(start, lo, floor, bound - asks);
    EndsDone(answer, log, floor, negCap);
  }

  /** The stack after `n` reconciliations against a relay that is always at its ceiling. */
  function AlwaysSplit(stack: seq<Span>, n: nat): (r: seq<Span>)
    requires stack != [] && stack[|stack| - 1].lo <= stack[|stack| - 1].hi
    ensures r != []
    decreases n
  {
    if n == 0 then stack
    else
      var top := stack[|stack| - 1];
      var mid := top.lo + (top.hi - top.lo) / 2;
      AlwaysSplit(stack[..|stack| - 1] + [Span(top.lo, mid), Span(mid, top.hi)], n - 1)
  }

  /** Why the floor must be positive: with floor 0 the split guard always passes, and a
      one-second window is still on top of the stack after any number of reconciliations. */
  lemma {:induction false} ZeroFloorNeverEnds(stack: seq<Span>, s: nat, n: nat)
    requires stack != [] && stack[|stack| - 1] == Span(s, s + 1)
    ensures var r := AlwaysSplit(stack, n); r[|r| - 1] == Span(s, s + 1) && |r| == |stack| + n
    decreases n
  {
    if n > 0 {
      ZeroFloorNeverEnds(stack[..|stack| - 1] + [Span(s, s), Span(s, s + 1)], s, n - 1);
    }
  }
}
