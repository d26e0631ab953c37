/**
 The windowed-REQ fallback of the scraper: one relay-day is read newest first through
 pages that the relay may cut at a hidden cap, splitting a second wherever it likes.

 The relay is an arbitrary function of (round, until). It is only asked to be honest in
 the sense of NIP-01: every page is the newest min(C, n) matching events of a fixed set.
 */
module ReqPagination {
  import opened Prelude

  /** The `limit` sent with every REQ. */
  const REQ_LIMIT: nat := 10_000

  /** An event, reduced to what the loop looks at. */
  datatype Event = Event(id: nat, createdAt: nat)

  datatype Reply = Page(events: seq<Event>) | Failed

  type Relay = (nat, nat) -> Reply

  /** The effective page size of a relay whose own cap is `cap`. */
  function PageSize(cap: nat): nat {
    if cap < REQ_LIMIT then cap else REQ_LIMIT
  }

  ghost predicate UniqueIds(stored: set<Event>) {
    forall a, b :: a in stored && b in stored && a.id == b.id ==> a == b
  }

  /** Events the filter `since = start, until` matches. */
  function Window(stored: set<Event>, start: nat, until: nat): set<Event> {
    set e | e in stored && start <= e.createdAt <= until
  }

  function AtSecond(stored: set<Event>, t: nat): set<Event> {
    set e | e in stored && e.createdAt == t
  }

  /** `p` is a newest-first cut of `w` at `c` events; ties at the cut are arbitrary. */
  ghost predicate IsNewest(p: set<Event>, w: set<Event>, c: nat) {
    && p <= w
    && |p| == (if |w| <= c then |w| else c)
    && forall x, y :: x in p && y in w - p ==> y.createdAt <= x.createdAt
  }

  ghost predicate Honest(stored: set<Event>, c: nat, start: nat, relay: Relay) {
    forall k: nat, u: nat ::
      relay(k, u).Page? ==> IsNewest(Members(relay(k, u).events), Window(stored, start, u), c)
  }

  /** Request number `k`, up to second `u`, was answered with a page. */
  predicate Answered(relay: Relay, k: nat, u: nat) {
    relay(k, u).Page?
  }

  /** No second strictly inside the day holds more events than a page. */
  ghost predicate SecondsFit(stored: set<Event>, c: nat, start: nat, end: nat) {
    forall t: nat :: start < t < end ==> |AtSecond(stored, t)| <= c
  }

  ghost predicate Shown(relay: Relay, e: Event) {
    exists k: nat, u: nat :: relay(k, u).Page? && e in relay(k, u).events
  }

  /**
   What one page proves: everything newer than its oldest event is on it, and a page
   holding nothing older than `until` holds the whole of that second.
   */
  lemma PageCovers(stored: set<Event>, c: nat, start: nat, until: nat, page: seq<Event>, oldest: nat)
    requires IsNewest(Members(page), Window(stored, start, until), c)
    requires page != []
    requires forall e :: e in page ==> oldest <= e.createdAt
    requires exists e :: e in page && e.createdAt == oldest
    ensures forall e :: e in stored && oldest < e.createdAt <= until ==> e in page
    ensures start <= oldest <= until
    ensures |Window(stored, start, until)| <= c ==> Members(page) == Window(stored, start, until)
    ensures oldest == until && |AtSecond(stored, until)| <= c ==> AtSecond(stored, until) <= Members(page)
  {
    var p, w := Members(page), Window(stored, start, until);
    var last :| last in page && last.createdAt == oldest;
    assert last in p && last in w;
    forall e | e in stored && oldest < e.createdAt <= until
      ensures e in page
    {
      assert e in w;
    }
    SubsetSize(p, w);
    if oldest == until && |AtSecond(stored, until)| <= c {
      var s := AtSecond(stored, until);
      assert p <= s;
      SubsetSize(p, s);
      if |w| <= c {
        assert s <= w;
      }
    }
  }

  /** The smallest timestamp on a page. */
  method Oldest(page: seq<Event>) returns (oldest: nat)
    requires page != []
    ensures exists e :: e in page && e.createdAt == oldest
    ensures forall e :: e in page ==> oldest <= e.createdAt
  {
    oldest := page[0].createdAt;
    for i := 0 to |page|
      invariant exists e :: e in page && e.createdAt == oldest
      invariant forall j :: 0 <= j < i ==> oldest <= page[j].createdAt
    {
      if page[i].createdAt < oldest {
        oldest := page[i].createdAt;
      }
    }
  }

  /** Keep the events whose id is new, recording each id as it is kept. */
  method TakeUnseen(page: seq<Event>, have: set<nat>) returns (unseen: seq<Event>, have': set<nat>)
    ensures NoRepeats(unseen)
    ensures forall e :: e in unseen ==> e in page && e.id !in have
    ensures have' == have + set e | e in unseen :: e.id
    ensures forall e :: e in page ==> e.id in have'
  {
    unseen, have' := [], have;
    for i := 0 to |page|
      invariant NoRepeats(unseen)
      invariant forall e :: e in unseen ==> e in page && e.id !in have
      invariant have' == have + set e | e in unseen :: e.id
      invariant forall j :: 0 <= j < i ==> page[j].id in have'
    {
      if page[i].id !in have' {
        ghost var before := unseen;
        unseen := unseen + [page[i]];
        assert forall e :: e in unseen <==> e in before || e == page[i];
        have' := have' + {page[i].id};
      }
    }
  }

  ghost predicate Delivered(stored: set<Event>, start: nat, end: nat, have: set<nat>, delivered: seq<Event>) {
    && NoRepeats(delivered)
    && (forall e :: e in delivered ==> e in stored && start <= e.createdAt < end)
    && have == set e | e in delivered :: e.id
  }

  /** Appending a unseen batch keeps the delivery record and holds the whole page. */
  lemma Deliver(stored: set<Event>, start: nat, end: nat, have: set<nat>, delivered: seq<Event>,
                page: seq<Event>, unseen: seq<Event>, have': set<nat>)
    requires UniqueIds(stored)
    requires Delivered(stored, start, end, have, delivered)
    requires forall e :: e in page ==> e in stored && start <= e.createdAt < end
    requires NoRepeats(unseen)
    requires forall e :: e in unseen ==> e in page && e.id !in have
    requires have' == have + set e | e in unseen :: e.id
    requires forall e :: e in page ==> e.id in have'
    ensures Delivered(stored, start, end, have', delivered + unseen)
    ensures forall e :: e in page ==> e in delivered + unseen
  {
    var all := delivered + unseen;
    assert forall e :: e in all <==> e in delivered || e in unseen;
    forall i, j | 0 <= i < j < |all|
      ensures all[i] != all[j]
    {
      if i < |delivered| <= j {
        assert all[i] in delivered && all[j] in unseen;
      }
    }
    forall e | e in page
      ensures e in all
    {
      assert e.id in have';
    }
  }

  /** An empty page means that nothing above `start` is in the window, and nothing at all unless the
      window overflows a page. */
  lemma EmptyPage(stored: set<Event>, c: nat, start: nat, end: nat, until: nat, e: Event)
    requires SecondsFit(stored, c, start, end) && until < end
    requires IsNewest({}, Window(stored, start, until), c)
    requires e in Window(stored, start, until)
    ensures e.createdAt == start && |Window(stored, start, until)| > c
  {
    var t := e.createdAt;
    assert e in AtSecond(stored, t);
    assert |AtSecond(stored, t)| > 0;
  }

  lemma Progress(stored: set<Event>, was: seq<Event>, unseen: seq<Event>)
    requires unseen != []
    requires forall e :: e in unseen ==> e in stored && e !in was
    ensures |stored - Members(was + unseen)| < |stored - Members(was)|
  {
    var a, b := stored - Members(was + unseen), stored - Members(was);
    assert unseen[0] in b;
    assert unseen[0] in was + unseen;
    assert unseen[0] !in a;
    assert forall e :: e in was ==> e in was + unseen;
    assert a <= b;
    SubsetSize(a, b);
  }

  /** What holds each time the loop is about to send a REQ ending at `until`. */
  ghost predicate Paging(stored: set<Event>, c: nat, relay: Relay, start: nat, end: nat,
                         until: nat, have: set<nat>, delivered: seq<Event>) {
    && start <= until < end
    && UniqueIds(stored)
    && Delivered(stored, start, end, have, delivered)
    && (forall e :: e in delivered ==> until <= e.createdAt && Shown(relay, e))
    && (SecondsFit(stored, c, start, end) ==> forall e :: e in stored && until < e.createdAt < end ==> e in delivered)
  }

  /** What is promised once the loop has ended normally, its last request having asked up to `last`:
      the day above its first second, and that second too if the last window fits a page. */
  ghost predicate Complete(stored: set<Event>, c: nat, start: nat, end: nat, last: nat, delivered: seq<Event>) {
    SecondsFit(stored, c, start, end) ==>
      && (forall e :: e in stored && start < e.createdAt < end ==> e in delivered)
      && (|Window(stored, start, last)| <= c ==>
            forall e :: e in stored && start <= e.createdAt < end ==> e in delivered)
  }

  /** The page a round works on: the relay's answer, with its facts made explicit. */
  ghost predicate PageOf(stored: set<Event>, c: nat, relay: Relay, start: nat, until: nat, page: seq<Event>) {
    && IsNewest(Members(page), Window(stored, start, until), c)
    && exists k: nat :: relay(k, until) == Page(page)
  }

  lemma EmptyEnds(stored: set<Event>, c: nat, relay: Relay, start: nat, end: nat,
                  until: nat, have: set<nat>, delivered: seq<Event>)
    requires Paging(stored, c, relay, start, end, until, have, delivered)
    requires PageOf(stored, c, relay, start, until, [])
    ensures Complete(stored, c, start, end, until, delivered)
  {
    if SecondsFit(stored, c, start, end) {
      assert Members<Event>([]) == {};
      forall e | e in stored && start <= e.createdAt < end && e !in delivered
        ensures e.createdAt == start && |Window(stored, start, until)| > c
      {
        assert e in Window(stored, start, until);
        EmptyPage(stored, c, start, end, until, e);
      }
    }
  }

  /** A page of known events only: it lies in second `until`, which is thereby finished. */
  lemma StalePage(stored: set<Event>, c: nat, relay: Relay, start: nat, end: nat, until: nat,
                  have: set<nat>, delivered: seq<Event>, page: seq<Event>, oldest: nat)
    requires Paging(stored, c, relay, start, end, until, have, delivered)
    requires PageOf(stored, c, relay, start, until, page)
    requires exists e :: e in page && e.createdAt == oldest
    requires forall e :: e in page ==> oldest <= e.createdAt
    requires forall e :: e in page ==> e in delivered
    ensures oldest == until
    ensures until > start ==> Paging(stored, c, relay, start, end, until - 1, have, delivered)
    ensures until == start ==> Complete(stored, c, start, end, until, delivered)
  {
    PageCovers(stored, c, start, until, page, oldest);
    if SecondsFit(stored, c, start, end) {
      assert forall e :: e in stored && e.createdAt == until ==> e in AtSecond(stored, until);
      assert forall e :: e in Members(page) ==> e in page;
    }
  }

  lemma Deliverable(stored: set<Event>, c: nat, relay: Relay, start: nat, end: nat, until: nat, page: seq<Event>)
    requires PageOf(stored, c, relay, start, until, page) && until < end
    ensures forall e :: e in page ==> e in stored && start <= e.createdAt < end && Shown(relay, e)
  {
    var k: nat :| relay(k, until) == Page(page);
    forall e | e in page
      ensures e in stored && start <= e.createdAt < end && Shown(relay, e)
    {
      assert e in Members(page) && e in Window(stored, start, until);
      assert relay(k, until).Page? && e in relay(k, until).events;
    }
  }

  /** A page with new events: everything above its oldest second is now delivered. */
  lemma NewPage(stored: set<Event>, c: nat, relay: Relay, start: nat, end: nat, until: nat,
                have: set<nat>, delivered: seq<Event>, page: seq<Event>, oldest: nat,
                unseen: seq<Event>, have': set<nat>)
    requires Paging(stored, c, relay, start, end, until, have, delivered)
    requires PageOf(stored, c, relay, start, until, page)
    requires exists e :: e in page && e.createdAt == oldest
    requires forall e :: e in page ==> oldest <= e.createdAt
    requires NoRepeats(unseen)
    requires forall e :: e in unseen ==> e in page && e.id !in have
    requires have' == have + set e | e in unseen :: e.id
    requires forall e :: e in page ==> e.id in have'
    ensures start <= oldest <= until
    ensures Paging(stored, c, relay, start, end, oldest, have', delivered + unseen)
    ensures oldest == start ==> Complete(stored, c, start, end, until, delivered + unseen)
    ensures forall e :: e in page ==> e in delivered + unseen
    ensures forall e :: e in unseen ==> e in stored && e !in delivered
  {
    PageCovers(stored, c, start, until, page, oldest);
    Deliverable(stored, c, relay, start, end, until, page);
    Deliver(stored, start, end, have, delivered, page, unseen, have');
    var all := delivered + unseen;
    assert forall e :: e in all <==> e in delivered || e in unseen;
    if oldest == start {
      if SecondsFit(stored, c, start, end) && |Window(stored, start, until)| <= c {
        forall e | e in stored && start <= e.createdAt < end
          ensures e in all
        {
          assert e.createdAt > until || e in Members(page);
        }
      }
    }
  }

  /** One REQ, asked again if it came back empty below the top of the day. */
  method Ask(ghost stored: set<Event>, ghost c: nat, relay: Relay, start: nat, end: nat, until: nat, round: nat)
    returns (reply: Reply, round': nat, ghost last: nat)
    requires Honest(stored, c, start, relay)
    ensures reply.Page? ==> PageOf(stored, c, relay, start, until, reply.events)
    ensures round <= last < round' && relay(last, until) == reply
    ensures reply.Page? <==> Answered(relay, last, until)
    ensures reply == Page([]) && until + 1 < end ==> round' == round + 2
  {
    reply, round' := relay(round, until), round + 1;
    if reply == Page([]) && until + 1 < end {
      reply, round' := relay(round', until), round' + 1;
    }
    last := round' - 1;
  }

  /** What to do after a page: stop, or ask again up to this second. */
  datatype Verdict = Stop | AskUpTo(until: nat)

  /** Digest one non-empty page. Either `until` falls or the delivered events grow. */
  method Digest(ghost stored: set<Event>, ghost c: nat, ghost relay: Relay, start: nat, ghost end: nat, until: nat,
                have: set<nat>, delivered: seq<Event>, page: seq<Event>)
    returns (verdict: Verdict, have': set<nat>, delivered': seq<Event>)
    requires Paging(stored, c, relay, start, end, until, have, delivered)
    requires page != [] && PageOf(stored, c, relay, start, until, page)
    ensures verdict.Stop? ==>
      exists u: nat :: Paging(stored, c, relay, start, end, u, have', delivered')
    ensures verdict.Stop? ==> Complete(stored, c, start, end, until, delivered')
    ensures verdict.AskUpTo? ==> Paging(stored, c, relay, start, end, verdict.until, have', delivered')
    ensures verdict.AskUpTo? ==> verdict.until <= until
    ensures verdict.AskUpTo? && verdict.until == until ==>
      |stored - Members(delivered')| < |stored - Members(delivered)|
  {
    var oldest := Oldest(page);
    var unseen;
    unseen, have' := TakeUnseen(page, have);
    delivered' := delivered + unseen;
    NewPage(stored, c, relay, start, end, until, have, delivered, page, oldest, unseen, have');
    if unseen == [] {
      assert delivered' == delivered;
      StalePage(stored, c, relay, start, end, until, have', delivered', page, oldest);
      if oldest == until && until > start {
        return AskUpTo(until - 1), have', delivered';
      }
      return Stop, have', delivered';
    }
    Progress(stored, delivered, unseen);
    verdict := if oldest <= start then Stop else AskUpTo(oldest);
  }

  /**
   The pagination loop. `ok` is false when a REQ failed and the unit gives up.

   Whatever an honest relay does the loop ends and hands nothing to the sink twice; when no
   second inside the day holds more events than a page, success means the day is complete above
   `start`, and at `start` too if the window of the last request (number `asked`, up to `last`)
   fits a page.
   */
  method Paginate(ghost stored: set<Event>, ghost cap: nat, relay: Relay, start: nat, end: nat)
    returns (ok: bool, delivered: seq<Event>, seen: nat, ghost asked: nat, ghost last: nat)
    requires start < end
    requires UniqueIds(stored)
    requires Honest(stored, PageSize(cap), start, relay)
    ensures seen == |delivered| && NoRepeats(delivered)
    ensures forall e :: e in delivered ==> e in stored && start <= e.createdAt < end && Shown(relay, e)
    ensures ok ==> Complete(stored, PageSize(cap), start, end, last, delivered)
    ensures start <= last < end && (ok <==> Answered(relay, asked, last))
  {
    ghost var c := PageSize(cap);
    var until: nat := end - 1;
    var have: set<nat> := {};
    var round := 0;
    delivered, ok, asked, last := [], false, 0, until;
    while true
      invariant Paging(stored, c, relay, start, end, until, have, delivered)
      decreases until, |stored - Members(delivered)|
    {
      var reply, round', k := Ask(stored, c, relay, start, end, until, round);
      round, asked, last := round', k, until;
      if reply.Failed? {
        break;
      }
      if reply.events == [] {
        EmptyEnds(stored, c, relay, start, end, until, have, delivered);
        ok := true;
        break;
      }
      var verdict, have', delivered' := Digest(stored, c, relay, start, end, until, have, delivered, reply.events);
      have, delivered := have', delivered';
      if verdict.Stop? {
        ok := true;
        break;
      }
      until := verdict.until;
    }
    seen := |delivered|;
  }

  // ----- The page-size hypothesis is exact ---------------------------------------------

  /** Some honest page of `w` at size `c`, as a sequence. */
  ghost function NewestOf(w: set<Event>, c: nat): (p: seq<Event>)
    ensures IsNewest(Members(p), w, c)
  {
    NewestExists(w, c);
    var p: seq<Event> :| IsNewest(Members(p), w, c);
    p
  }

  lemma NewestCons(w: set<Event>, c: nat, top: Event, q: seq<Event>)
    requires c > 0 && top in w && forall e :: e in w ==> e.createdAt <= top.createdAt
    requires IsNewest(Members(q), w - {top}, c - 1)
    ensures IsNewest(Members([top] + q), w, c)
  {
    assert forall e :: e in [top] + q <==> e == top || e in q;
    assert Members([top] + q) == {top} + Members(q);
    assert |w| == |w - {top}| + 1;
  }

  lemma {:induction false} NewestExists(w: set<Event>, c: nat)
    ensures exists p: seq<Event> :: IsNewest(Members(p), w, c)
    decreases c
  {
    if c == 0 || w == {} {
      assert Members<Event>([]) == {};
      assert IsNewest(Members([]), w, c);
    } else {
      var top := NewestEvent(w);
      NewestExists(w - {top}, c - 1);
      var q: seq<Event> :| IsNewest(Members(q), w - {top}, c - 1);
      NewestCons(w, c, top, q);
    }
  }

  lemma {:induction false} NewestEvent(w: set<Event>) returns (top: Event)
    requires w != {}
    ensures top in w && forall e :: e in w ==> e.createdAt <= top.createdAt
    decreases |w|
  {
    top :| top in w;
    if w != {top} {
      assert w - {top} != {};
      var other := NewestEvent(w - {top});
      if top.createdAt < other.createdAt {
        top := other;
      }
    }
  }

  /** A page of everything but `x` passes for a page of `w` when `x`'s second overflows. */
  lemma HidingIsHonest(stored: set<Event>, c: nat, start: nat, until: nat, x: Event, p: set<Event>)
    requires x in stored && start <= x.createdAt
    requires |AtSecond(stored, x.createdAt)| > c
    requires IsNewest(p, Window(stored, start, until) - {x}, c)
    ensures IsNewest(p, Window(stored, start, until), c)
  {
    var w, t := Window(stored, start, until), AtSecond(stored, x.createdAt);
    if x in w {
      assert t <= w;
      SubsetSize(t - {x}, w - {x});
      assert |p| == c;
      forall e | e in p
        ensures x.createdAt <= e.createdAt
      {
        if e.createdAt < x.createdAt {
          forall y | y in t - {x}
            ensures y in p - {e}
          {
            assert y in w - {x};
          }
          SubsetSize(t - {x}, p - {e});
          assert false;
        }
      }
    } else {
      assert w - {x} == w;
    }
  }

  /**
   The other half of the page-size hypothesis: if some second inside the day overflows a page, some
   relay that is honest about the very same events, and always answers, never shows one of them, so
   by `Paginate`'s second postcondition no run against it can deliver that event.
   */
  lemma OverflowingSecondCanHide(stored: set<Event>, c: nat, start: nat, end: nat) returns (x: Event, relay: Relay)
    requires !SecondsFit(stored, c, start, end)
    ensures x in stored && start < x.createdAt < end
    ensures Honest(stored, c, start, relay)
    ensures forall k: nat, u: nat :: relay(k, u).Page?
    ensures !Shown(relay, x)
  {
    var t: nat :| start < t < end && |AtSecond(stored, t)| > c;
    x :| x in AtSecond(stored, t);
    var hidden := x;
    relay := (k: nat, u: nat) => Page(NewestOf(Window(stored, start, u) - {hidden}, c));
    forall k: nat, u: nat
      ensures IsNewest(Members(relay(k, u).events), Window(stored, start, u), c)
      ensures x !in relay(k, u).events
    {
      var p := Members(relay(k, u).events);
      HidingIsHonest(stored, c, start, u, x, p);
      assert x !in p;
    }
  }
}
