/**
 Submitted dumps: a job reads its upload record by record, batches what has to be screened,
 and persists a cursor with its counters so that a restart continues where it stopped.

 The job on disk and the job in memory are separate. Clocks, the id store, the archive and
 the disk itself answer arbitrarily, so every verdict, save failure, lost write and crash
 point is covered.
 */
module Submission {

  /** What the event parser and the signature check say about one line. */
  datatype Line = Unparsable | BadSignature | Ephemeral | Signed(id: nat, createdAt: nat)

  /** One record of an upload: a line of text, or an entry of an uploaded database. */
  datatype Record = Blank | TooLong | Undecodable | Text(line: Line)

  /** The one counter a record ends up in. `Waiting` is a line still in the batch. */
  datatype Class =
    | NotCounted | Malformed | NoPayload | Forged | Fleeting | Future | Duplicate | Fresh | Waiting

  datatype Counts = Counts(
    lines: nat, malformed: nat, undecodable: nat, badSignature: nat, ephemeral: nat,
    future: nat, valid: nat, duplicate: nat, added: nat)

  const FUTURE_SLACK_SECS: nat := 86_400

  const ZERO: Counts := Counts(0, 0, 0, 0, 0, 0, 0, 0, 0)

  // ----- What the counters are supposed to mean ------------------------------------------

  /** What the world has shown a job: its clock stays within `[from, until]`; `reached` are the ids
      offered to the archive or found known, `stored` those the archive took as new. */
  datatype Evidence = Evidence(from: nat, until: nat, reached: set<nat>, stored: set<nat>)

  predicate Grows(w: Evidence, more: Evidence) {
    more.from == w.from && more.until == w.until && w.reached <= more.reached && w.stored <= more.stored
  }

  /** Whether a signed event may be counted in `c`: as future only if it is dated past the slack of the
      earliest clock reading, as new only if the archive took it, as duplicate only if the archive was
      offered it or the id store knew it. */
  predicate SignedCounted(id: nat, createdAt: nat, c: Class, w: Evidence) {
    match c
    case Future => createdAt > w.from + FUTURE_SLACK_SECS
    case Duplicate => createdAt <= w.until + FUTURE_SLACK_SECS && id in w.reached
    case Fresh => createdAt <= w.until + FUTURE_SLACK_SECS && id in w.reached && id in w.stored
    case _ => false
  }

  predicate Counted(r: Record, c: Class, w: Evidence) {
    match r
    case Blank => c == NotCounted
    case TooLong => c == Malformed
    case Undecodable => c == NoPayload
    case Text(Unparsable) => c == Malformed
    case Text(BadSignature) => c == Forged
    case Text(Ephemeral) => c == Fleeting
    case Text(Signed(id, createdAt)) => SignedCounted(id, createdAt, c, w)
  }

  ghost predicate Tallies(n: Counts, cs: seq<Class>) {
    var m := multiset(cs);
    && n.lines == |cs| - m[NotCounted]
    && n.malformed == m[Malformed]
    && n.undecodable == m[NoPayload]
    && n.badSignature == m[Forged]
    && n.ephemeral == m[Fleeting]
    && n.future == m[Future]
    && n.duplicate == m[Duplicate]
    && n.added == m[Fresh]
    && n.valid == m[Duplicate] + m[Fresh]
  }

  ghost predicate Accounts(records: seq<Record>, cursor: nat, n: Counts, w: Evidence, cs: seq<Class>) {
    && cursor == |cs| <= |records|
    && Tallies(n, cs)
    && forall i :: 0 <= i < cursor ==> Counted(records[i], cs[i], w)
  }

  /** The counters tally exactly the first `cursor` records, each in one fitting class. */
  ghost predicate Accounted(records: seq<Record>, cursor: nat, n: Counts, w: Evidence) {
    exists cs: seq<Class> :: Accounts(records, cursor, n, w, cs)
  }

  lemma {:induction false} ClassesAreExhaustive(cs: seq<Class>)
    ensures var m := multiset(cs);
      |cs| == m[NotCounted] + m[Malformed] + m[NoPayload] + m[Forged] + m[Fleeting]
              + m[Future] + m[Duplicate] + m[Fresh] + m[Waiting]
  {
    if cs != [] {
      var init, last := cs[..|cs| - 1], cs[|cs| - 1];
      ClassesAreExhaustive(init);
      assert cs == init + [last];
      assert multiset(cs) == multiset(init) + multiset{last};
      match last
      case NotCounted => case Malformed => case NoPayload => case Forged => case Fleeting =>
      case Future => case Duplicate => case Fresh => case Waiting =>
    }
  }

  /** Conservation: every counted record is in exactly one counter. */
  lemma CountsAddUp(records: seq<Record>, cursor: nat, n: Counts, w: Evidence)
    requires Accounted(records, cursor, n, w)
    ensures n.lines == n.malformed + n.undecodable + n.badSignature + n.ephemeral + n.future
                       + n.duplicate + n.added
    ensures n.valid == n.duplicate + n.added
  {
    var cs: seq<Class> :| Accounts(records, cursor, n, w, cs);
    ClassesAreExhaustive(cs);
    assert Waiting !in cs by {
      forall i | 0 <= i < |cs| ensures cs[i] != Waiting { assert Counted(records[i], cs[i], w); }
    }
  }

  // ----- One batch ------------------------------------------------------------------------

  /** A signed event that passed screening, with its place in the batch. */
  datatype Screened = Screened(id: nat, at: nat)

  datatype Saved = Stored | AlreadyThere | SaveFailed

  /** What one call of `ingest_batch` meets outside the process: the clock at each line, the ids the
      store knows, and the archive's answers. */
  datatype World = World(clock: nat -> nat, known: set<nat>, save: nat -> Saved)

  /** `screen`: where a line goes at time `now`, `Waiting` meaning it is a valid event. */
  function Screen(line: Line, now: nat): Class {
    match line
    case Unparsable => Malformed
    case BadSignature => Forged
    case Ephemeral => Fleeting
    case Signed(_, createdAt) => if createdAt > now + FUTURE_SLACK_SECS then Future else Waiting
  }

  predicate Valid(lines: seq<Line>, clock: nat -> nat, i: nat) {
    i < |lines| && Screen(lines[i], clock(i)) == Waiting
  }

  /** An earlier valid line of the batch has the same id. */
  ghost predicate Repeat(lines: seq<Line>, clock: nat -> nat, i: nat) {
    && Valid(lines, clock, i)
    && exists j: nat :: j < i && Valid(lines, clock, j) && lines[j].id == lines[i].id
  }

  /**
   The class of each line of a batch: a signed event is future past the slack of its own clock
   reading; otherwise the first copy that the store does not know and the archive stores is new,
   and everything else is a duplicate.
   */
  ghost function ClassOf(lines: seq<Line>, world: World, i: nat): Class
    requires i < |lines|
  {
    var c := Screen(lines[i], world.clock(i));
    if c != Waiting then c
    else if !Repeat(lines, world.clock, i) && lines[i].id !in world.known && world.save(lines[i].id) == Stored then Fresh
    else Duplicate
  }

  /** The ids of the valid lines: each is offered to the archive or known to the store. */
  function ValidIds(lines: seq<Line>, clock: nat -> nat): set<nat> {
    set i: nat | i < |lines| && Valid(lines, clock, i) :: lines[i].id
  }

  /** The counters moved from `n` to `n'` by exactly the classes in `cs`. */
  ghost predicate Added(n: Counts, n': Counts, cs: seq<Class>) {
    var m := multiset(cs);
    && n'.lines == n.lines && n'.undecodable == n.undecodable
    && n'.malformed == n.malformed + m[Malformed]
    && n'.badSignature == n.badSignature + m[Forged]
    && n'.ephemeral == n.ephemeral + m[Fleeting]
    && n'.future == n.future + m[Future]
    && n'.duplicate == n.duplicate + m[Duplicate]
    && n'.added == n.added + m[Fresh]
    && n'.valid == n.valid + m[Duplicate] + m[Fresh] + m[Waiting]
  }

  /** What ingesting `lines` did: the counters moved by the class of each line. */
  ghost predicate Ingested(lines: seq<Line>, world: World, cs: seq<Class>, n: Counts, n': Counts) {
    && |cs| == |lines|
    && Added(n, n', cs)
    && forall i: nat :: i < |lines| ==> cs[i] == ClassOf(lines, world, i)
  }

  function KeepIf(kept: seq<Screened>, line: Line, at: nat, c: Class): seq<Screened> {
    if c == Waiting && line.Signed? then kept + [Screened(line.id, at)] else kept
  }

  /** The waiting lines, in order. */
  function Waiters(lines: seq<Line>, cs: seq<Class>): seq<Screened>
    requires |cs| <= |lines|
    decreases |cs|
  {
    if cs == [] then []
    else
      var k: nat := |cs| - 1;
      KeepIf(Waiters(lines, cs[..k]), lines[k], k, cs[k])
  }

  ghost predicate Open(lines: seq<Line>, cs: seq<Class>, open: seq<Screened>) {
    |cs| <= |lines| && open == Waiters(lines, cs)
  }

  lemma {:induction false} OpenAt(lines: seq<Line>, cs: seq<Class>, open: seq<Screened>, i: nat)
    requires Open(lines, cs, open) && i < |open|
    ensures open[i].at < |cs| && cs[open[i].at] == Waiting
    ensures lines[open[i].at].Signed? && lines[open[i].at].id == open[i].id
    decreases |cs|
  {
    var k: nat := |cs| - 1;
    if i < |Waiters(lines, cs[..k])| {
      OpenAt(lines, cs[..k], Waiters(lines, cs[..k]), i);
    }
  }

  lemma {:induction false} OpenIncreases(lines: seq<Line>, cs: seq<Class>, open: seq<Screened>, i: nat, j: nat)
    requires Open(lines, cs, open) && i < j < |open|
    ensures open[i].at < open[j].at
    decreases |cs|
  {
    var k: nat := |cs| - 1;
    if j < |Waiters(lines, cs[..k])| {
      OpenIncreases(lines, cs[..k], Waiters(lines, cs[..k]), i, j);
    } else {
      OpenAt(lines, cs[..k], Waiters(lines, cs[..k]), i);
    }
  }

  lemma {:induction false} OpenLists(lines: seq<Line>, cs: seq<Class>, open: seq<Screened>, p: nat) returns (i: nat)
    requires Open(lines, cs, open) && p < |cs| && cs[p] == Waiting && lines[p].Signed?
    ensures i < |open| && open[i] == Screened(lines[p].id, p)
    decreases |cs|
  {
    var k: nat := |cs| - 1;
    if p < k {
      i := OpenLists(lines, cs[..k], Waiters(lines, cs[..k]), p);
    } else {
      i := |open| - 1;
    }
  }

  function Bump(n: Counts, c: Class): Counts {
    if c == Duplicate then n.(duplicate := n.duplicate + 1)
    else if c == Fresh then n.(added := n.added + 1)
    else n
  }

  /** Deciding one waiting line takes it, and no other, off the list. */
  lemma {:induction false} DecideOpen(lines: seq<Line>, cs: seq<Class>, before: seq<Screened>, e: Screened,
                                      after: seq<Screened>, c: Class)
    requires Open(lines, cs, before + [e] + after) && c != Waiting
    ensures e.at < |cs| && cs[e.at] == Waiting && lines[e.at].Signed? && lines[e.at].id == e.id
    ensures Open(lines, cs[e.at := c], before + after)
    decreases |cs|
  {
    var open, k: nat := before + [e] + after, |cs| - 1;
    assert open[|before|] == e;
    OpenAt(lines, cs, open, |before|);
    if cs[k] == Waiting && lines[k].Signed? {
      if after == [] {
        assert open[..|open| - 1] == before && before + after == before;
        assert Waiters(lines, cs[..k]) == before;
        assert cs[e.at := c][..k] == cs[..k];
      } else {
        var init := after[..|after| - 1];
        assert open == (before + [e] + init) + [after[|after| - 1]];
        assert Waiters(lines, cs[..k]) == before + [e] + init;
        DecideOpen(lines, cs[..k], before, e, init, c);
        assert cs[e.at := c][..k] == cs[..k][e.at := c];
        assert before + after == (before + init) + [after[|after| - 1]];
      }
    } else {
      DecideOpen(lines, cs[..k], before, e, after, c);
      assert cs[e.at := c][..k] == cs[..k][e.at := c];
    }
  }

  lemma DecideAdded(cs: seq<Class>, at: nat, n: Counts, n': Counts, c: Class)
    requires at < |cs| && cs[at] == Waiting && Added(n, n', cs)
    requires c == Duplicate || c == Fresh
    ensures Added(n, Bump(n', c), cs[at := c])
  {
    assert multiset(cs[at := c]) == multiset(cs) - multiset{Waiting} + multiset{c};
  }

  function Tick(n: Counts, c: Class): Counts {
    match c
    case Malformed => n.(malformed := n.malformed + 1)
    case Forged => n.(badSignature := n.badSignature + 1)
    case Fleeting => n.(ephemeral := n.ephemeral + 1)
    case Future => n.(future := n.future + 1)
    case Waiting => n.(valid := n.valid + 1)
    case _ => n
  }

  lemma TickAdds(n: Counts, n': Counts, cs: seq<Class>, c: Class)
    requires Added(n, n', cs) && c in {Malformed, Forged, Fleeting, Future, Waiting}
    ensures Added(n, Tick(n', c), cs + [c])
  {
    assert multiset(cs + [c]) == multiset(cs) + multiset{c};
  }

  lemma OpenNext(lines: seq<Line>, cs: seq<Class>, open: seq<Screened>, c: Class)
    requires Open(lines, cs, open) && |cs| < |lines|
    ensures Open(lines, cs + [c], KeepIf(open, lines[|cs|], |cs|, c))
  {
    assert (cs + [c])[..|cs|] == cs;
  }

  /** The classes `screen` gives to the first `k` lines. */
  function Verdicts(lines: seq<Line>, clock: nat -> nat, k: nat): seq<Class>
    requires k <= |lines|
  {
    seq(k, i requires 0 <= i < k => Screen(lines[i], clock(i)))
  }

  lemma VerdictsGrow(lines: seq<Line>, clock: nat -> nat, k: nat)
    requires k < |lines|
    ensures Verdicts(lines, clock, k) + [Screen(lines[k], clock(k))] == Verdicts(lines, clock, k + 1)
  {
  }

  /** `screen_all`: counts what is refused and keeps the rest, in order. */
  method ScreenAll(lines: seq<Line>, clock: nat -> nat, n: Counts) returns (kept: seq<Screened>, n': Counts)
    ensures Open(lines, Verdicts(lines, clock, |lines|), kept)
    ensures Added(n, n', Verdicts(lines, clock, |lines|))
  {
    kept, n' := [], n;
    for i := 0 to |lines|
      invariant Open(lines, Verdicts(lines, clock, i), kept)
      invariant Added(n, n', Verdicts(lines, clock, i))
    {
      var c := Screen(lines[i], clock(i));
      VerdictsGrow(lines, clock, i);
      TickAdds(n, n', Verdicts(lines, clock, i), c);
      OpenNext(lines, Verdicts(lines, clock, i), kept, c);
      kept, n' := KeepIf(kept, lines[i], i, c), Tick(n', c);
    }
  }

  /** The ids of a list of events. */
  function Ids(s: seq<Screened>): set<nat> {
    if s == [] then {} else Ids(s[..|s| - 1]) + {s[|s| - 1].id}
  }

  lemma IdsOfSnoc(done: seq<Screened>, e: Screened)
    ensures Ids(done + [e]) == Ids(done) + {e.id}
  {
    assert (done + [e])[..|done|] == done;
  }

  lemma IdsOfPrefix(s: seq<Screened>, i: nat)
    requires i < |s|
    ensures Ids(s[..i + 1]) == Ids(s[..i]) + {s[i].id}
  {
    assert s[..i + 1] == s[..i] + [s[i]];
    IdsOfSnoc(s[..i], s[i]);
  }

  lemma {:induction false} IdsHold(s: seq<Screened>, id: nat)
    ensures id in Ids(s) <==> exists e :: e in s && e.id == id
    decreases |s|
  {
    if s != [] {
      IdsHold(s[..|s| - 1], id);
      assert s == s[..|s| - 1] + [s[|s| - 1]];
    }
  }

  /** Peel the next event off the list still to be looked at. */
  lemma Peel(done: seq<Screened>, s: seq<Screened>, i: nat)
    requires i < |s|
    ensures done + s[i..] == done + [s[i]] + s[i + 1..]
  {
  }

  // ----- Deciding the waiting lines -----------------------------------------------------------

  /** How a waiting line fares in one part of `ingest_batch`; `Waiting` passes it on. */
  datatype Rule = Repeats(clock: nat -> nat) | Knows(known: set<nat>) | Saves(save: nat -> Saved)

  ghost function Ruling(lines: seq<Line>, rule: Rule, p: nat): Class {
    if p >= |lines| || !lines[p].Signed? then Waiting
    else match rule
      case Repeats(clock) => if Repeat(lines, clock, p) then Duplicate else Waiting
      case Knows(known) => if lines[p].id in known then Duplicate else Waiting
      case Saves(save) => if save(lines[p].id) == Stored then Fresh else Duplicate
  }

  /** The rule has been applied to every waiting line. */
  ghost predicate Ruled(lines: seq<Line>, rule: Rule, was: seq<Class>, cs: seq<Class>) {
    |cs| == |was| && forall p: nat :: p < |cs| ==> cs[p] == if was[p] == Waiting then Ruling(lines, rule, p) else was[p]
  }

  /** It has been applied to some; `done` are the survivors so far. */
  ghost predicate PartlyRuled(lines: seq<Line>, rule: Rule, was: seq<Class>, cs: seq<Class>, done: seq<Screened>) {
    && |cs| == |was|
    && (forall p: nat :: p < |cs| ==>
          cs[p] == was[p] || (was[p] == Waiting && cs[p] == Ruling(lines, rule, p) != Waiting))
    && forall e :: e in done ==> Ruling(lines, rule, e.at) == Waiting
  }

  lemma RuleIsDone(lines: seq<Line>, rule: Rule, was: seq<Class>, cs: seq<Class>, done: seq<Screened>)
    requires PartlyRuled(lines, rule, was, cs, done) && Open(lines, cs, done)
    ensures Ruled(lines, rule, was, cs)
  {
    forall p: nat | p < |cs| && was[p] == Waiting ensures cs[p] == Ruling(lines, rule, p) {
      if cs[p] == Waiting && lines[p].Signed? {
        var i := OpenLists(lines, cs, done, p);
        assert done[i] in done;
      }
    }
  }

  lemma PassOn(lines: seq<Line>, rule: Rule, was: seq<Class>, cs: seq<Class>, done: seq<Screened>, e: Screened)
    requires PartlyRuled(lines, rule, was, cs, done) && Ruling(lines, rule, e.at) == Waiting
    ensures PartlyRuled(lines, rule, was, cs, done + [e])
  {
  }

  /** Part way through a batch: `open` are the lines still to be decided. */
  ghost predicate Narrowing(lines: seq<Line>, cs: seq<Class>, open: seq<Screened>, n: Counts, n': Counts) {
    |cs| == |lines| && Added(n, n', cs) && Open(lines, cs, open)
  }

  /** Decide one open line. */
  lemma DecideOne(lines: seq<Line>, rule: Rule, was: seq<Class>, cs: seq<Class>, before: seq<Screened>, e: Screened,
                  after: seq<Screened>, n: Counts, n': Counts, c: Class)
    requires Narrowing(lines, cs, before + [e] + after, n, n') && PartlyRuled(lines, rule, was, cs, before)
    requires c == Ruling(lines, rule, e.at) && (c == Duplicate || c == Fresh)
    ensures e.at < |cs|
    ensures Narrowing(lines, cs[e.at := c], before + after, n, Bump(n', c))
    ensures PartlyRuled(lines, rule, was, cs[e.at := c], before)
  {
    DecideOpen(lines, cs, before, e, after, c);
    DecideAdded(cs, e.at, n, n', c);
  }

  /** A rule has been applied up to `s[i..]`, with `done` surviving. */
  ghost predicate Deciding(lines: seq<Line>, rule: Rule, was: seq<Class>, done: seq<Screened>, s: seq<Screened>, i: nat,
                           n: Counts, n': Counts) {
    i <= |s| && exists cs: seq<Class> ::
      Narrowing(lines, cs, done + s[i..], n, n') && PartlyRuled(lines, rule, was, cs, done)
  }

  lemma DecidingStarts(lines: seq<Line>, rule: Rule, was: seq<Class>, s: seq<Screened>, n: Counts, n': Counts)
    requires Narrowing(lines, was, s, n, n')
    ensures Deciding(lines, rule, was, [], s, 0, n, n')
  {
    assert [] + s[0..] == s;
    assert PartlyRuled(lines, rule, was, was, []);
  }

  lemma DecidingDrops(lines: seq<Line>, rule: Rule, was: seq<Class>, done: seq<Screened>, s: seq<Screened>, i: nat,
                      n: Counts, n': Counts, c: Class)
    requires Deciding(lines, rule, was, done, s, i, n, n') && i < |s|
    requires c == Ruling(lines, rule, s[i].at) && (c == Duplicate || c == Fresh)
    ensures Deciding(lines, rule, was, done, s, i + 1, n, Bump(n', c))
  {
    var cs: seq<Class> :| Narrowing(lines, cs, done + s[i..], n, n') && PartlyRuled(lines, rule, was, cs, done);
    Peel(done, s, i);
    DecideOne(lines, rule, was, cs, done, s[i], s[i + 1..], n, n', c);
  }

  lemma DecidingPasses(lines: seq<Line>, rule: Rule, was: seq<Class>, done: seq<Screened>, s: seq<Screened>, i: nat,
                       n: Counts, n': Counts)
    requires Deciding(lines, rule, was, done, s, i, n, n') && i < |s| && Ruling(lines, rule, s[i].at) == Waiting
    ensures Deciding(lines, rule, was, done + [s[i]], s, i + 1, n, n')
  {
    var cs: seq<Class> :| Narrowing(lines, cs, done + s[i..], n, n') && PartlyRuled(lines, rule, was, cs, done);
    Peel(done, s, i);
    PassOn(lines, rule, was, cs, done, s[i]);
  }

  lemma DecidingEnds(lines: seq<Line>, rule: Rule, was: seq<Class>, done: seq<Screened>, s: seq<Screened>,
                     n: Counts, n': Counts) returns (cs: seq<Class>)
    requires Deciding(lines, rule, was, done, s, |s|, n, n')
    ensures Narrowing(lines, cs, done, n, n') && Ruled(lines, rule, was, cs)
  {
    cs :| Narrowing(lines, cs, done + s[|s|..], n, n') && PartlyRuled(lines, rule, was, cs, done);
    assert done + s[|s|..] == done;
    RuleIsDone(lines, rule, was, cs, done);
  }

  lemma SeenBefore(lines: seq<Line>, clock: nat -> nat, kept: seq<Screened>, i: nat, k: nat)
    requires Open(lines, Verdicts(lines, clock, |lines|), kept) && k < i < |kept| && kept[k].id == kept[i].id
    ensures Repeat(lines, clock, kept[i].at)
  {
    OpenAt(lines, Verdicts(lines, clock, |lines|), kept, i);
    OpenAt(lines, Verdicts(lines, clock, |lines|), kept, k);
    OpenIncreases(lines, Verdicts(lines, clock, |lines|), kept, k, i);
    assert Valid(lines, clock, kept[k].at);
  }

  lemma RepeatedBefore(lines: seq<Line>, clock: nat -> nat, kept: seq<Screened>, i: nat) returns (k: nat)
    requires Open(lines, Verdicts(lines, clock, |lines|), kept) && i < |kept| && Repeat(lines, clock, kept[i].at)
    ensures k < i && kept[k].id == kept[i].id
  {
    OpenAt(lines, Verdicts(lines, clock, |lines|), kept, i);
    var j: nat :| j < kept[i].at && Valid(lines, clock, j) && lines[j].id == kept[i].id;
    k := OpenLists(lines, Verdicts(lines, clock, |lines|), kept, j);
    if i < k {
      OpenIncreases(lines, Verdicts(lines, clock, |lines|), kept, i, k);
    }
  }

  /** An id has come up before in the list of valid lines exactly if it is a repeat in the batch. */
  lemma RepeatIff(lines: seq<Line>, clock: nat -> nat, kept: seq<Screened>, i: nat)
    requires Open(lines, Verdicts(lines, clock, |lines|), kept) && i < |kept|
    ensures kept[i].id in Ids(kept[..i]) <==> Repeat(lines, clock, kept[i].at)
  {
    IdsHold(kept[..i], kept[i].id);
    if kept[i].id in Ids(kept[..i]) {
      var x :| x in kept[..i] && x.id == kept[i].id;
      var k :| 0 <= k < i && kept[..i][k] == x;
      SeenBefore(lines, clock, kept, i, k);
    }
    if Repeat(lines, clock, kept[i].at) {
      var k := RepeatedBefore(lines, clock, kept, i);
      assert kept[..i][k] in kept[..i];
    }
  }

  ghost predicate DistinctIds(s: seq<Screened>) {
    forall j, k :: 0 <= j < k < |s| ==> s[j].id != s[k].id
  }

  lemma DistinctSnoc(s: seq<Screened>, e: Screened)
    requires DistinctIds(s) && e.id !in Ids(s)
    ensures DistinctIds(s + [e])
  {
    forall j | 0 <= j < |s| ensures s[j].id != e.id {
      IdsHold(s, s[j].id);
    }
  }

  /** `unique` has one copy of every id among the first `i`. */
  ghost predicate OneCopyEach(kept: seq<Screened>, i: nat, unique: seq<Screened>) {
    i <= |kept| && Ids(unique) == Ids(kept[..i]) && DistinctIds(unique)
  }

  lemma RepeatRuling(lines: seq<Line>, clock: nat -> nat, kept: seq<Screened>, i: nat)
    requires Open(lines, Verdicts(lines, clock, |lines|), kept) && i < |kept|
    ensures Ruling(lines, Repeats(clock), kept[i].at) == if kept[i].id in Ids(kept[..i]) then Duplicate else Waiting
  {
    RepeatIff(lines, clock, kept, i);
    OpenAt(lines, Verdicts(lines, clock, |lines|), kept, i);
  }

  lemma OneCopyNext(kept: seq<Screened>, i: nat, unique: seq<Screened>)
    requires OneCopyEach(kept, i, unique) && i < |kept|
    ensures OneCopyEach(kept, i + 1, if kept[i].id in Ids(unique) then unique else unique + [kept[i]])
    ensures Ids(unique + [kept[i]]) == Ids(unique) + {kept[i].id}
  {
    IdsOfPrefix(kept, i);
    IdsOfSnoc(unique, kept[i]);
    if kept[i].id !in Ids(unique) {
      DistinctSnoc(unique, kept[i]);
    }
  }

  /** First occurrence of each id in the batch stays; the rest are duplicates. */
  method DropRepeats(lines: seq<Line>, ghost clock: nat -> nat, kept: seq<Screened>, ghost n: Counts, n0: Counts)
    returns (unique: seq<Screened>, n': Counts, ghost cs: seq<Class>)
    requires Narrowing(lines, Verdicts(lines, clock, |lines|), kept, n, n0)
    ensures Narrowing(lines, cs, unique, n, n')
    ensures Ruled(lines, Repeats(clock), Verdicts(lines, clock, |lines|), cs)
    ensures Ids(unique) == Ids(kept) && DistinctIds(unique)
  {
    ghost var rule, was := Repeats(clock), Verdicts(lines, clock, |lines|);
    unique, n' := [], n0;
    var inBatch: set<nat> := {};
    DecidingStarts(lines, rule, was, kept, n, n');
    for i := 0 to |kept|
      invariant Deciding(lines, rule, was, unique, kept, i, n, n')
      invariant inBatch == Ids(unique) && OneCopyEach(kept, i, unique)
    {
      var e := kept[i];
      OneCopyNext(kept, i, unique);
      RepeatRuling(lines, clock, kept, i);
      if e.id !in inBatch {
        DecidingPasses(lines, rule, was, unique, kept, i, n, n');
        inBatch, unique := inBatch + {e.id}, unique + [e];
      } else {
        DecidingDrops(lines, rule, was, unique, kept, i, n, n', Duplicate);
        n' := Bump(n', Duplicate);
      }
    }
    assert kept[..|kept|] == kept;
    cs := DecidingEnds(lines, rule, was, unique, kept, n, n');
  }

  /** `novel` has the ids among the first `i` that the store does not know. */
  ghost predicate Unknown(unique: seq<Screened>, i: nat, known: set<nat>, novel: seq<Screened>) {
    i <= |unique| && Ids(novel) == Ids(unique[..i]) - known
  }

  lemma UnknownNext(unique: seq<Screened>, i: nat, known: set<nat>, novel: seq<Screened>)
    requires Unknown(unique, i, known, novel) && i < |unique|
    ensures Unknown(unique, i + 1, known, if unique[i].id in known then novel else novel + [unique[i]])
  {
    IdsOfPrefix(unique, i);
    IdsOfSnoc(novel, unique[i]);
  }

  lemma KnownRuling(lines: seq<Line>, was: seq<Class>, unique: seq<Screened>, known: set<nat>, i: nat)
    requires Open(lines, was, unique) && i < |unique|
    ensures Ruling(lines, Knows(known), unique[i].at) == if unique[i].id in known then Duplicate else Waiting
  {
    OpenAt(lines, was, unique, i);
  }

  /** Events the id store already knows are duplicates; the rest go on to the archive. */
  method DropKnown(lines: seq<Line>, unique: seq<Screened>, known: set<nat>, ghost n: Counts, n0: Counts,
                   ghost was: seq<Class>)
    returns (novel: seq<Screened>, n': Counts, ghost cs: seq<Class>)
    requires Narrowing(lines, was, unique, n, n0)
    ensures Narrowing(lines, cs, novel, n, n')
    ensures Ruled(lines, Knows(known), was, cs)
    ensures Ids(novel) == Ids(unique) - known
  {
    ghost var rule := Knows(known);
    novel, n' := [], n0;
    DecidingStarts(lines, rule, was, unique, n, n');
    for i := 0 to |unique|
      invariant Deciding(lines, rule, was, novel, unique, i, n, n')
      invariant Unknown(unique, i, known, novel)
    {
      var e := unique[i];
      UnknownNext(unique, i, known, novel);
      KnownRuling(lines, was, unique, known, i);
      if e.id in known {
        DecidingDrops(lines, rule, was, novel, unique, i, n, n', Duplicate);
        n' := Bump(n', Duplicate);
      } else {
        DecidingPasses(lines, rule, was, novel, unique, i, n, n');
        novel := novel + [e];
      }
    }
    assert unique[..|unique|] == unique;
    cs := DecidingEnds(lines, rule, was, novel, unique, n, n');
  }

  predicate AllSaved(novel: seq<Screened>, i: nat, save: nat -> Saved) {
    i <= |novel| && forall j :: 0 <= j < i ==> save(novel[j].id) != SaveFailed
  }

  lemma SavedRuling(lines: seq<Line>, was: seq<Class>, novel: seq<Screened>, save: nat -> Saved, i: nat)
    requires Open(lines, was, novel) && i < |novel|
    ensures Ruling(lines, Saves(save), novel[i].at) == if save(novel[i].id) == Stored then Fresh else Duplicate
  {
    OpenAt(lines, was, novel, i);
  }

  /** Count what the archive answered; the first failure abandons the batch. */
  method CountSaved(lines: seq<Line>, novel: seq<Screened>, save: nat -> Saved, ghost n: Counts, n0: Counts,
                    ghost was: seq<Class>)
    returns (ok: bool, n': Counts, ghost cs: seq<Class>)
    requires Narrowing(lines, was, novel, n, n0)
    ensures ok <==> AllSaved(novel, |novel|, save)
    ensures ok ==> Narrowing(lines, cs, [], n, n') && Ruled(lines, Saves(save), was, cs)
  {
    ghost var rule := Saves(save);
    n', cs, ok := n0, was, true;
    DecidingStarts(lines, rule, was, novel, n, n');
    for i := 0 to |novel|
      invariant AllSaved(novel, i, save)
      invariant Deciding(lines, rule, was, [], novel, i, n, n')
    {
      var e := novel[i];
      var status := save(e.id);
      if status == SaveFailed {
        ok := false;
        return;
      }
      var c := if status == Stored then Fresh else Duplicate;
      SavedRuling(lines, was, novel, save, i);
      DecidingDrops(lines, rule, was, [], novel, i, n, n', c);
      n' := Bump(n', c);
    }
    cs := DecidingEnds(lines, rule, was, [], novel, n, n');
  }

  lemma ScreenedSigned(lines: seq<Line>, clock: nat -> nat, p: nat)
    requires Valid(lines, clock, p)
    ensures lines[p].Signed? && lines[p].createdAt <= clock(p) + FUTURE_SLACK_SECS
  {
  }

  /** The three rules in turn give each line its class. */
  lemma RulesClassify(lines: seq<Line>, world: World, cs1: seq<Class>, cs2: seq<Class>, cs3: seq<Class>)
    requires Ruled(lines, Repeats(world.clock), Verdicts(lines, world.clock, |lines|), cs1)
    requires Ruled(lines, Knows(world.known), cs1, cs2) && Ruled(lines, Saves(world.save), cs2, cs3)
    ensures forall p: nat :: p < |lines| ==> cs3[p] == ClassOf(lines, world, p)
  {
    forall p: nat | p < |lines| ensures cs3[p] == ClassOf(lines, world, p) {
      if Valid(lines, world.clock, p) {
        ScreenedSigned(lines, world.clock, p);
      }
    }
  }

  lemma KeptAreValid(lines: seq<Line>, clock: nat -> nat, kept: seq<Screened>)
    requires Open(lines, Verdicts(lines, clock, |lines|), kept)
    ensures Ids(kept) == ValidIds(lines, clock)
  {
    var cs := Verdicts(lines, clock, |lines|);
    forall id ensures id in Ids(kept) <==> id in ValidIds(lines, clock) {
      IdsHold(kept, id);
      if id in Ids(kept) {
        var e :| e in kept && e.id == id;
        var k :| 0 <= k < |kept| && kept[k] == e;
        OpenAt(lines, cs, kept, k);
        assert Valid(lines, clock, e.at);
      }
      if id in ValidIds(lines, clock) {
        var i: nat :| i < |lines| && Valid(lines, clock, i) && lines[i].id == id;
        var k := OpenLists(lines, cs, kept, i);
        assert kept[k] in kept;
      }
    }
  }

  /**
   `ingest_batch`: screen, drop repeats within the batch, drop ids the store knows, offer
   the rest to the archive. Every line gets its class; what is offered, whatever the archive
   answers, are the valid ids the store does not know.
   */
  method IngestBatch(lines: seq<Line>, world: World, n: Counts)
    returns (ok: bool, n': Counts, offered: set<nat>, ghost cs: seq<Class>)
    ensures ok ==> Ingested(lines, world, cs, n, n')
    ensures ok <==> forall id :: id in offered ==> world.save(id) != SaveFailed
    ensures offered == ValidIds(lines, world.clock) - world.known
  {
    var kept, n1 := ScreenAll(lines, world.clock, n);
    KeptAreValid(lines, world.clock, kept);
    var unique, n2, cs1 := DropRepeats(lines, world.clock, kept, n, n1);
    var novel, n3, cs2 := DropKnown(lines, unique, world.known, n, n2, cs1);
    offered := Ids(novel);
    ok, n', cs := CountSaved(lines, novel, world.save, n, n3, cs2);
    if ok {
      RulesClassify(lines, world, cs1, cs2, cs);
    }
    SavedIds(novel, world.save);
  }

  lemma {:induction false} SavedIds(novel: seq<Screened>, save: nat -> Saved)
    ensures AllSaved(novel, |novel|, save) <==> forall id :: id in Ids(novel) ==> save(id) != SaveFailed
    decreases |novel|
  {
    if novel != [] {
      var init := novel[..|novel| - 1];
      SavedIds(init, save);
      assert forall j :: 0 <= j < |init| ==> init[j] == novel[j];
    }
  }

  /** No id is counted as new twice in a batch. */
  lemma NewOnlyOnce(lines: seq<Line>, world: World, i: nat, j: nat)
    requires i < j < |lines| && ClassOf(lines, world, i) == Fresh && ClassOf(lines, world, j) == Fresh
    ensures lines[i].Signed? && lines[j].Signed? && lines[i].id != lines[j].id
  {
    ScreenedSigned(lines, world.clock, i);
    ScreenedSigned(lines, world.clock, j);
    if lines[i].id == lines[j].id {
      assert Repeat(lines, world.clock, j);
    }
  }

  // ----- What a batch shows -----------------------------------------------------------------

  /** The batch's clock readings lie within the job's. */
  ghost predicate InEra(w: Evidence, world: World) {
    forall i: nat :: w.from <= world.clock(i) <= w.until
  }

  /** The evidence after a batch was offered. */
  function After(w: Evidence, lines: seq<Line>, world: World): Evidence {
    w.(reached := w.reached + ValidIds(lines, world.clock),
       stored := w.stored + set id | id in ValidIds(lines, world.clock) - world.known && world.save(id) == Stored)
  }

  /** The classes of an ingested batch are right by the evidence it leaves. */
  lemma BatchIsCounted(lines: seq<Line>, world: World, w: Evidence, i: nat)
    requires i < |lines| && InEra(w, world)
    ensures Counted(Text(lines[i]), ClassOf(lines, world, i), After(w, lines, world))
  {
    if Valid(lines, world.clock, i) {
      ScreenedSigned(lines, world.clock, i);
      assert lines[i].id in ValidIds(lines, world.clock);
    }
    assert w.from <= world.clock(i) <= w.until;
  }

  // ----- Lines read but not yet ingested ---------------------------------------------------

  /** The lines of the waiting records, in file order. */
  ghost function WaitingLines(records: seq<Record>, cs: seq<Class>): (lines: seq<Line>)
    requires |cs| <= |records|
    ensures |lines| <= |cs|
    decreases |cs|
  {
    if cs == [] then []
    else
      var k := |cs| - 1;
      WaitingLines(records, cs[..k])
        + (if cs[k] == Waiting && records[k].Text? then [records[k].line] else [])
  }

  /** Give the waiting records the classes of their batch. */
  ghost function Fill(records: seq<Record>, cs: seq<Class>, batch: seq<Class>): (filled: seq<Class>)
    requires |cs| <= |records| && |batch| == |WaitingLines(records, cs)|
    ensures |filled| == |cs|
    decreases |cs|
  {
    if cs == [] then []
    else
      var k := |cs| - 1;
      if cs[k] == Waiting && records[k].Text?
      then Fill(records, cs[..k], batch[..|batch| - 1]) + [batch[|batch| - 1]]
      else Fill(records, cs[..k], batch) + [cs[k]]
  }

  ghost predicate Placed(records: seq<Record>, cs: seq<Class>, w: Evidence) {
    && |cs| <= |records|
    && forall i :: 0 <= i < |cs| ==>
         Counted(records[i], cs[i], w) || (cs[i] == Waiting && records[i].Text?)
  }

  /** The counters tally the first `cursor` records but for the ones whose lines are `pending`. */
  ghost predicate Holds(records: seq<Record>, cursor: nat, n: Counts, pending: seq<Line>, w: Evidence,
                        cs: seq<Class>) {
    && cursor == |cs| && Placed(records, cs, w)
    && Tallies(n, cs)
    && pending == WaitingLines(records, cs)
  }

  ghost predicate Held(records: seq<Record>, cursor: nat, n: Counts, pending: seq<Line>, w: Evidence) {
    exists cs: seq<Class> :: Holds(records, cursor, n, pending, w, cs)
  }

  lemma CountSnoc(cs: seq<Class>, x: Class, c: Class)
    ensures multiset(cs + [x])[c] == multiset(cs)[c] + (if x == c then 1 else 0)
  {
    assert multiset(cs + [x]) == multiset(cs) + multiset{x};
  }

  lemma CountLast(cs: seq<Class>, c: Class)
    requires cs != []
    ensures multiset(cs)[c] == multiset(cs[..|cs| - 1])[c] + (if cs[|cs| - 1] == c then 1 else 0)
  {
    assert cs == cs[..|cs| - 1] + [cs[|cs| - 1]];
    CountSnoc(cs[..|cs| - 1], cs[|cs| - 1], c);
  }

  lemma {:induction false} FillCounts(records: seq<Record>, cs: seq<Class>, batch: seq<Class>, c: Class)
    requires |cs| <= |records| && |batch| == |WaitingLines(records, cs)|
    requires c != Waiting
    ensures multiset(Fill(records, cs, batch))[c] == multiset(cs)[c] + multiset(batch)[c]
    decreases |cs|
  {
    if cs != [] {
      var k := |cs| - 1;
      CountLast(cs, c);
      if cs[k] == Waiting && records[k].Text? {
        var j := |batch| - 1;
        CountLast(batch, c);
        FillCounts(records, cs[..k], batch[..j], c);
        CountSnoc(Fill(records, cs[..k], batch[..j]), batch[j], c);
      } else {
        FillCounts(records, cs[..k], batch, c);
        CountSnoc(Fill(records, cs[..k], batch), cs[k], c);
      }
    }
  }

  ghost predicate AllCounted(records: seq<Record>, cs: seq<Class>, w: Evidence) {
    |cs| <= |records| && forall i :: 0 <= i < |cs| ==> Counted(records[i], cs[i], w)
  }

  ghost predicate LinesCounted(lines: seq<Line>, cs: seq<Class>, w: Evidence) {
    |cs| == |lines| && forall i :: 0 <= i < |lines| ==> Counted(Text(lines[i]), cs[i], w)
  }

  lemma PlacedPrefix(records: seq<Record>, cs: seq<Class>, w: Evidence)
    requires Placed(records, cs, w) && cs != []
    ensures Placed(records, cs[..|cs| - 1], w)
  {
  }

  lemma LinesCountedPrefix(lines: seq<Line>, line: Line, cs: seq<Class>, w: Evidence)
    requires LinesCounted(lines + [line], cs, w)
    ensures cs != [] && LinesCounted(lines, cs[..|cs| - 1], w) && Counted(Text(line), cs[|cs| - 1], w)
  {
    var all := lines + [line];
    assert all[|lines|] == line;
    forall i | 0 <= i < |lines|
      ensures Counted(Text(lines[i]), cs[i], w)
    {
      assert all[i] == lines[i];
    }
  }

  lemma AllCountedSnoc(records: seq<Record>, cs: seq<Class>, c: Class, w: Evidence)
    requires AllCounted(records, cs, w) && |cs| < |records| && Counted(records[|cs|], c, w)
    ensures AllCounted(records, cs + [c], w)
  {
  }

  lemma {:induction false} FillPlaces(records: seq<Record>, cs: seq<Class>, batch: seq<Class>, w: Evidence)
    requires Placed(records, cs, w)
    requires LinesCounted(WaitingLines(records, cs), batch, w)
    ensures AllCounted(records, Fill(records, cs, batch), w)
    decreases |cs|
  {
    if cs != [] {
      var k := |cs| - 1;
      PlacedPrefix(records, cs, w);
      if cs[k] == Waiting && records[k].Text? {
        LinesCountedPrefix(WaitingLines(records, cs[..k]), records[k].line, batch, w);
        FillPlaces(records, cs[..k], batch[..|batch| - 1], w);
        AllCountedSnoc(records, Fill(records, cs[..k], batch[..|batch| - 1]), batch[|batch| - 1], w);
      } else {
        assert WaitingLines(records, cs) == WaitingLines(records, cs[..k]);
        FillPlaces(records, cs[..k], batch, w);
        assert Counted(records[k], cs[k], w);
        AllCountedSnoc(records, Fill(records, cs[..k], batch), cs[k], w);
      }
    }
  }

  lemma AllFillCounts(records: seq<Record>, cs: seq<Class>, batch: seq<Class>)
    requires |cs| <= |records| && |batch| == |WaitingLines(records, cs)|
    ensures forall c :: c in {NotCounted, Malformed, NoPayload, Forged, Fleeting, Future, Duplicate, Fresh} ==>
      multiset(Fill(records, cs, batch))[c] == multiset(cs)[c] + multiset(batch)[c]
  {
    forall c | c in {NotCounted, Malformed, NoPayload, Forged, Fleeting, Future, Duplicate, Fresh}
      ensures multiset(Fill(records, cs, batch))[c] == multiset(cs)[c] + multiset(batch)[c]
    {
      FillCounts(records, cs, batch, c);
    }
  }

  lemma OnlyTextClasses(lines: seq<Line>, batch: seq<Class>, w: Evidence)
    requires LinesCounted(lines, batch, w)
    ensures multiset(batch)[NotCounted] == 0 && multiset(batch)[NoPayload] == 0 && multiset(batch)[Waiting] == 0
  {
    forall i | 0 <= i < |batch| ensures batch[i] !in {NotCounted, NoPayload, Waiting} {
      assert Counted(Text(lines[i]), batch[i], w);
    }
    assert NotCounted !in batch && NoPayload !in batch && Waiting !in batch;
  }

  lemma MoreEvidence(records: seq<Record>, cs: seq<Class>, w: Evidence, more: Evidence)
    requires Placed(records, cs, w) && Grows(w, more)
    ensures Placed(records, cs, more)
  {
  }

  lemma AccountedGrows(records: seq<Record>, cursor: nat, n: Counts, w: Evidence, more: Evidence)
    requires Accounted(records, cursor, n, w) && Grows(w, more)
    ensures Accounted(records, cursor, n, more)
  {
    var cs: seq<Class> :| Accounts(records, cursor, n, w, cs);
    assert Accounts(records, cursor, n, more, cs);
  }

  lemma FillTallies(records: seq<Record>, cs: seq<Class>, batch: seq<Class>, n: Counts, n': Counts, w: Evidence)
    requires |cs| <= |records| && Tallies(n, cs) && Added(n, n', batch)
    requires LinesCounted(WaitingLines(records, cs), batch, w)
    ensures Tallies(n', Fill(records, cs, batch))
  {
    AllFillCounts(records, cs, batch);
    OnlyTextClasses(WaitingLines(records, cs), batch, w);
  }

  /** Flushing the batch turns `Held` into a complete account. */
  lemma FlushAccounts(records: seq<Record>, cursor: nat, n: Counts, pending: seq<Line>, w: Evidence,
                      world: World, batch: seq<Class>, n': Counts)
    requires Held(records, cursor, n, pending, w) && InEra(w, world)
    requires Ingested(pending, world, batch, n, n')
    ensures Accounted(records, cursor, n', After(w, pending, world))
  {
    var cs: seq<Class> :| Holds(records, cursor, n, pending, w, cs);
    var more := After(w, pending, world);
    forall i | 0 <= i < |pending| ensures Counted(Text(pending[i]), batch[i], more) {
      BatchIsCounted(pending, world, w, i);
    }
    MoreEvidence(records, cs, w, more);
    FillPlaces(records, cs, batch, more);
    FillTallies(records, cs, batch, n, n', more);
    assert Accounts(records, cursor, n', more, Fill(records, cs, batch));
  }

  lemma {:induction false} NothingWaiting(records: seq<Record>, cs: seq<Class>)
    requires |cs| <= |records| && forall i :: 0 <= i < |cs| ==> cs[i] != Waiting || !records[i].Text?
    ensures WaitingLines(records, cs) == []
    decreases |cs|
  {
    if cs != [] {
      NothingWaiting(records, cs[..|cs| - 1]);
    }
  }

  lemma {:induction false} NoLinesNoWaiting(records: seq<Record>, cs: seq<Class>)
    requires |cs| <= |records| && WaitingLines(records, cs) == []
    ensures forall i :: 0 <= i < |cs| ==> cs[i] != Waiting || !records[i].Text?
    decreases |cs|
  {
    if cs != [] {
      NoLinesNoWaiting(records, cs[..|cs| - 1]);
    }
  }

  lemma HeldIsAccounted(records: seq<Record>, cursor: nat, n: Counts, w: Evidence)
    requires Held(records, cursor, n, [], w)
    ensures Accounted(records, cursor, n, w)
  {
    var cs: seq<Class> :| Holds(records, cursor, n, [], w, cs);
    NoLinesNoWaiting(records, cs);
    assert Accounts(records, cursor, n, w, cs);
  }

  lemma AccountedIsHeld(records: seq<Record>, cursor: nat, n: Counts, w: Evidence)
    requires Accounted(records, cursor, n, w)
    ensures Held(records, cursor, n, [], w)
  {
    var cs: seq<Class> :| Accounts(records, cursor, n, w, cs);
    forall i | 0 <= i < |cs|
      ensures cs[i] != Waiting || !records[i].Text?
    {
      assert Counted(records[i], cs[i], w);
    }
    NothingWaiting(records, cs);
    assert Holds(records, cursor, n, [], w, cs);
  }

  /** Lines still in the batch are missing from every counter but one. */
  lemma HeldIsNotAccounted(records: seq<Record>, cursor: nat, n: Counts, pending: seq<Line>, w: Evidence)
    requires Held(records, cursor, n, pending, w) && pending != []
    ensures !Accounted(records, cursor, n, w)
  {
    var cs: seq<Class> :| Holds(records, cursor, n, pending, w, cs);
    ClassesAreExhaustive(cs);
    if multiset(cs)[Waiting] == 0 {
      assert forall i :: 0 <= i < |cs| ==> cs[i] in multiset(cs);
      NothingWaiting(records, cs);
    }
    if Accounted(records, cursor, n, w) {
      CountsAddUp(records, cursor, n, w);
    }
  }

  /** With an empty batch, holding and accounting are the same thing. */
  lemma EmptyBatch(records: seq<Record>, cursor: nat, n: Counts, w: Evidence)
    ensures Held(records, cursor, n, [], w) <==> Accounted(records, cursor, n, w)
  {
    if Held(records, cursor, n, [], w) {
      HeldIsAccounted(records, cursor, n, w);
    }
    if Accounted(records, cursor, n, w) {
      AccountedIsHeld(records, cursor, n, w);
    }
  }

  /** The counters right after record `r` has been read. */
  function ReadCounts(n: Counts, r: Record): Counts {
    match r
    case Blank => n
    case TooLong => n.(lines := n.lines + 1, malformed := n.malformed + 1)
    case Undecodable => n.(lines := n.lines + 1, undecodable := n.undecodable + 1)
    case Text(_) => n.(lines := n.lines + 1)
  }

  function ReadPending(pending: seq<Line>, r: Record): seq<Line> {
    if r.Text? then pending + [r.line] else pending
  }

  /** The class a record has as soon as it is read. */
  function FirstClass(r: Record): Class {
    match r
    case Blank => NotCounted
    case TooLong => Malformed
    case Undecodable => NoPayload
    case Text(_) => Waiting
  }

  lemma ReadTallies(n: Counts, cs: seq<Class>, r: Record)
    requires Tallies(n, cs)
    ensures Tallies(ReadCounts(n, r), cs + [FirstClass(r)])
  {
    assert multiset(cs + [FirstClass(r)]) == multiset(cs) + multiset{FirstClass(r)};
  }

  lemma ReadPlaced(records: seq<Record>, cs: seq<Class>, w: Evidence)
    requires Placed(records, cs, w) && |cs| < |records|
    ensures Placed(records, cs + [FirstClass(records[|cs|])], w)
  {
  }

  lemma ReadWaits(records: seq<Record>, cs: seq<Class>)
    requires |cs| < |records|
    ensures WaitingLines(records, cs + [FirstClass(records[|cs|])])
              == ReadPending(WaitingLines(records, cs), records[|cs|])
  {
    var cs' := cs + [FirstClass(records[|cs|])];
    assert cs'[..|cs'| - 1] == cs && cs'[|cs'| - 1] == FirstClass(records[|cs|]);
  }

  lemma ReadHolds(records: seq<Record>, cursor: nat, n: Counts, pending: seq<Line>, w: Evidence)
    requires Held(records, cursor, n, pending, w) && cursor < |records|
    ensures Held(records, cursor + 1, ReadCounts(n, records[cursor]), ReadPending(pending, records[cursor]), w)
  {
    var cs: seq<Class> :| Holds(records, cursor, n, pending, w, cs);
    var r := records[cursor];
    ReadTallies(n, cs, r);
    ReadPlaced(records, cs, w);
    ReadWaits(records, cs);
    assert Holds(records, cursor + 1, ReadCounts(n, r), ReadPending(pending, r), w, cs + [FirstClass(r)]);
  }
}
