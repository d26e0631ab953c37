/**
 Monthly shards: the calendar arithmetic that routes an event to its shard, shard names, and
 the pruning of a time range to the shards that can hold matches.

 Timestamps are non-negative, so years start at 1970. The calendar is the proleptic Gregorian
 one, with no upper limit on the year.
 */
module MonthShards {
  import opened Prelude

  const DAY: nat := 86_400

  datatype ShardId = ShardId(year: nat, month: nat) {
    predicate Valid() {
      year >= 1970 && 1 <= month <= 12
    }

    /** The next shard in sequence. */
    function Next(): ShardId {
      if month == 12 then ShardId(year + 1, 1) else ShardId(year, month + 1)
    }

    function Prev(): ShardId
      requires Valid() && this != ShardId(1970, 1)
    {
      if month == 1 then ShardId(year - 1, 12) else ShardId(year, month - 1)
    }

    /** Position in the sequence of all months; the derived order of shard ids. */
    function Ordinal(): int {
      12 * year + month
    }
  }

  // ----- The calendar --------------------------------------------------------------------

  predicate Leap(year: nat) {
    year % 4 == 0 && (year % 100 != 0 || year % 400 == 0)
  }

  function DaysIn(year: nat, month: nat): (n: nat)
    ensures 28 <= n <= 31
  {
    if month == 2 then (if Leap(year) then 29 else 28)
    else if month in {4, 6, 9, 11} then 30
    else 31
  }

  /** Days from the epoch to the first of a month, month by month. */
  function DaysBefore(s: ShardId): nat
    requires s.Valid()
    decreases s.Ordinal()
  {
    if s == ShardId(1970, 1) then 0
    else DaysBefore(s.Prev()) + DaysIn(s.Prev().year, s.Prev().month)
  }

  /** Leap days in the years before `year`, counted from year 1. */
  function LeapsBefore(year: nat): int
    requires year >= 1
  {
    (year - 1) / 4 - (year - 1) / 100 + (year - 1) / 400
  }

  lemma QuotientStep(n: nat, k: nat)
    requires n >= 1 && k in {4, 100, 400}
    ensures n / k == (n - 1) / k + (if n % k == 0 then 1 else 0)
  {
  }

  lemma CenturiesDivide(year: nat)
    ensures year % 400 == 0 ==> year % 100 == 0
    ensures year % 100 == 0 ==> year % 4 == 0
  {
    var q, c := year / 400, year / 100;
    assert year % 400 == 0 ==> year == 100 * (4 * q);
    assert year % 100 == 0 ==> year == 4 * (25 * c);
  }

  lemma LeapStep(year: nat)
    requires year >= 1
    ensures LeapsBefore(year + 1) == LeapsBefore(year) + (if Leap(year) then 1 else 0)
  {
    CenturiesDivide(year);
    var a := year / 4 - (year - 1) / 4;
    var b := year / 100 - (year - 1) / 100;
    var c := year / 400 - (year - 1) / 400;
    assert a == (if year % 4 == 0 then 1 else 0) by { QuotientStep(year, 4); }
    assert b == (if year % 100 == 0 then 1 else 0) by { QuotientStep(year, 100); }
    assert c == (if year % 400 == 0 then 1 else 0) by { QuotientStep(year, 400); }
  }

  lemma NextMonth(s: ShardId)
    requires s.Valid()
    ensures s.Next().Valid() && DaysBefore(s.Next()) == DaysBefore(s) + DaysIn(s.year, s.month)
  {
    assert s.Next().Prev() == s;
  }

  /** Three months on. */
  lemma Quarter(year: nat, month: nat)
    requires year >= 1970 && month in {1, 4, 7, 10}
    ensures DaysBefore(if month == 10 then ShardId(year + 1, 1) else ShardId(year, month + 3))
            == DaysBefore(ShardId(year, month)) + DaysIn(year, month) + DaysIn(year, month + 1) + DaysIn(year, month + 2)
  {
    NextMonth(ShardId(year, month));
    NextMonth(ShardId(year, month + 1));
    NextMonth(ShardId(year, month + 2));
  }

  lemma YearLength(year: nat)
    requires year >= 1970
    ensures DaysBefore(ShardId(year + 1, 1)) == DaysBefore(ShardId(year, 1)) + (if Leap(year) then 366 else 365)
  {
    Quarter(year, 1);
    Quarter(year, 4);
    Quarter(year, 7);
    Quarter(year, 10);
  }

  /** The month-by-month count agrees with the Gregorian closed form at every New Year. */
  lemma {:induction false} NewYearClosedForm(year: nat)
    requires year >= 1970
    ensures DaysBefore(ShardId(year, 1)) == 365 * (year - 1970) + LeapsBefore(year) - LeapsBefore(1970)
  {
    if year > 1970 {
      NewYearClosedForm(year - 1);
      YearLength(year - 1);
      LeapStep(year - 1);
    }
  }

  /** Days of the months before `m` of a year: the rounded slope of 367/12 days, less the days that
      February lacks. */
  function MonthOffset(leap: bool, m: nat): int {
    (367 * m - 362) / 12 - (if m <= 2 then 0 else if leap then 1 else 2)
  }

  lemma OffsetStep(year: nat, m: nat)
    requires 1 <= m < 12
    ensures MonthOffset(Leap(year), m + 1) == MonthOffset(Leap(year), m) + DaysIn(year, m)
  {
  }

  /** The same at the first of every month: days from the epoch, in closed form. */
  lemma {:induction false} MonthClosedForm(year: nat, m: nat)
    requires year >= 1970 && 1 <= m <= 12
    ensures DaysBefore(ShardId(year, m)) ==
      365 * (year - 1970) + LeapsBefore(year) - LeapsBefore(1970)
      + (367 * m - 362) / 12 - (if m <= 2 then 0 else if Leap(year) then 1 else 2)
    decreases m
  {
    if m == 1 {
      NewYearClosedForm(year);
    } else {
      MonthClosedForm(year, m - 1);
      NextMonth(ShardId(year, m - 1));
      OffsetStep(year, m - 1);
    }
  }

  /** A leap year by its number. */
  lemma LeapIff(year: nat)
    requires year >= 1
    ensures Leap(year) <==> year / 4 - year / 100 + year / 400 == (year - 1) / 4 - (year - 1) / 100 + (year - 1) / 400 + 1
  {
    LeapStep(year);
  }

  // ----- Shards of timestamps --------------------------------------------------------------

  function StartTs(s: ShardId): nat
    requires s.Valid()
  {
    DAY * DaysBefore(s)
  }

  function EndTs(s: ShardId): nat
    requires s.Valid()
  {
    StartTs(if s.month == 12 then ShardId(s.year + 1, 1) else ShardId(s.year, s.month + 1))
  }

  /** The month holding the `days`-th day after the first of `s`. */
  function MonthOf(days: nat, s: ShardId): ShardId
    requires s.Valid()
    decreases days
  {
    var n := DaysIn(s.year, s.month);
    if days < n then s else MonthOf(days - n, s.Next())
  }

  function FromTimestamp(ts: nat): ShardId {
    MonthOf(ts / DAY, ShardId(1970, 1))
  }

  lemma {:induction false} MonthOfHolds(days: nat, s: ShardId)
    requires s.Valid()
    ensures var m := MonthOf(days, s);
      m.Valid() && DaysBefore(m) <= DaysBefore(s) + days < DaysBefore(m.Next())
    decreases days
  {
    assert DaysBefore(s.Next()) == DaysBefore(s) + DaysIn(s.year, s.month);
    var n := DaysIn(s.year, s.month);
    if days >= n {
      MonthOfHolds(days - n, s.Next());
    }
  }

  /** The first second of a month, in closed form. */
  lemma StartOfMonth(year: nat, m: nat)
    requires year >= 1970 && 1 <= m <= 12
    ensures StartTs(ShardId(year, m)) == 86_400 *
      (365 * (year - 1970) + LeapsBefore(year) - LeapsBefore(1970)
       + (367 * m - 362) / 12 - (if m <= 2 then 0 else if Leap(year) then 1 else 2))
  {
    MonthClosedForm(year, m);
  }

  /** Routing: an event belongs to the shard whose month contains it. */
  lemma ShardHoldsTimestamp(ts: nat)
    ensures FromTimestamp(ts).Valid()
    ensures StartTs(FromTimestamp(ts)) <= ts < EndTs(FromTimestamp(ts))
  {
    MonthOfHolds(ts / DAY, ShardId(1970, 1));
  }

  lemma SameOrdinal(a: ShardId, b: ShardId)
    requires a.Valid() && b.Valid() && a.Ordinal() == b.Ordinal()
    ensures a == b
  {
  }

  /** Later months start later. */
  lemma {:induction false} StartsAreOrdered(a: ShardId, b: ShardId)
    requires a.Valid() && b.Valid() && a.Ordinal() < b.Ordinal()
    ensures EndTs(a) <= StartTs(b) && StartTs(a) < StartTs(b)
    decreases b.Ordinal() - a.Ordinal()
  {
    var n := a.Next();
    assert DaysBefore(n) == DaysBefore(a) + DaysIn(a.year, a.month);
    if n.Ordinal() < b.Ordinal() {
      StartsAreOrdered(n, b);
    } else {
      SameOrdinal(n, b);
    }
  }

  /** And to no other: months do not overlap. */
  lemma OnlyOneShard(ts: nat, s: ShardId)
    requires s.Valid() && StartTs(s) <= ts < EndTs(s)
    ensures s == FromTimestamp(ts)
  {
    var f := FromTimestamp(ts);
    ShardHoldsTimestamp(ts);
    if s.Ordinal() < f.Ordinal() {
      StartsAreOrdered(s, f);
    } else if f.Ordinal() < s.Ordinal() {
      StartsAreOrdered(f, s);
    } else {
      SameOrdinal(f, s);
    }
  }

  lemma RoutingIsMonotone(a: nat, b: nat)
    requires a <= b
    ensures FromTimestamp(a).Ordinal() <= FromTimestamp(b).Ordinal()
  {
    var f, h := FromTimestamp(a), FromTimestamp(b);
    ShardHoldsTimestamp(a);
    ShardHoldsTimestamp(b);
    if h.Ordinal() < f.Ordinal() {
      StartsAreOrdered(h, f);
    }
  }

  // ----- Pruning -------------------------------------------------------------------------

  ghost predicate MonthsBetween(shards: seq<ShardId>, first: ShardId, last: ShardId) {
    && |shards| == (if first.Ordinal() <= last.Ordinal() then last.Ordinal() - first.Ordinal() + 1 else 0)
    && forall k :: 0 <= k < |shards| ==> shards[k].Valid() && shards[k].Ordinal() == first.Ordinal() + k
  }

  /** The first shard a range may touch; an open `since` starts at the earliest known shard. */
  function FirstShard(since: Option<nat>, earliest: ShardId): ShardId {
    if since.Some? then FromTimestamp(since.value) else earliest
  }

  /** The last one: `until` is exclusive, and an open `until` ends at the current month. */
  function LastShard(until: Option<nat>, now: nat): ShardId {
    if until.Some? then FromTimestamp(if until.value == 0 then 0 else until.value - 1) else FromTimestamp(now)
  }

  lemma BoundsAreValid(since: Option<nat>, until: Option<nat>, earliest: ShardId, now: nat)
    requires earliest.Valid()
    ensures FirstShard(since, earliest).Valid() && LastShard(until, now).Valid()
  {
    if since.Some? { ShardHoldsTimestamp(since.value); }
    ShardHoldsTimestamp(if until.None? then now else if until.value > 0 then until.value - 1 else 0);
  }

  /** `shards_in_range`: every month from the first to the last, in order, each once. */
  method ShardsInRange(since: Option<nat>, until: Option<nat>, earliest: ShardId, now: nat)
    returns (out: seq<ShardId>)
    requires earliest.Valid()
    ensures MonthsBetween(out, FirstShard(since, earliest), LastShard(until, now))
    ensures since.Some? && until.Some? && since.value < until.value ==>
      forall s :: s in out <==> exists ts: nat :: since.value <= ts < until.value && FromTimestamp(ts) == s
    ensures since.None? && until.None? ==> MonthsBetween(out, earliest, FromTimestamp(now))
  {
    BoundsAreValid(since, until, earliest, now);
    out := WalkMonths(FirstShard(since, earliest), LastShard(until, now));
    if since.Some? && until.Some? && since.value < until.value {
      forall s ensures s in out <==> exists ts: nat :: since.value <= ts < until.value && FromTimestamp(ts) == s {
        PruningIsExact(since.value, until.value, out, s);
      }
    }
  }

  method WalkMonths(start: ShardId, end: ShardId) returns (out: seq<ShardId>)
    requires start.Valid() && end.Valid()
    ensures MonthsBetween(out, start, end)
  {
    out := [];
    if start.Ordinal() > end.Ordinal() {
      return;
    }
    var cur := start;
    while true
      invariant cur.Valid() && start.Ordinal() <= cur.Ordinal() <= end.Ordinal()
      invariant |out| == cur.Ordinal() - start.Ordinal()
      invariant forall k :: 0 <= k < |out| ==> out[k].Valid() && out[k].Ordinal() == start.Ordinal() + k
      decreases end.Ordinal() - cur.Ordinal()
    {
      out := out + [cur];
      if cur == end {
        break;
      }
      if cur.Ordinal() == end.Ordinal() { SameOrdinal(cur, end); }
      cur := cur.Next();
    }
  }

  /** A planned shard owns the first second of the range or of its month. */
  lemma PlannedIsTouched(since: nat, until: nat, k: nat, s: ShardId) returns (ts: nat)
    requires since < until && s.Valid()
    requires s.Ordinal() == FromTimestamp(since).Ordinal() + k <= FromTimestamp(until - 1).Ordinal()
    ensures since <= ts < until && FromTimestamp(ts) == s
  {
    var first, last := FromTimestamp(since), FromTimestamp(until - 1);
    ShardHoldsTimestamp(since);
    ShardHoldsTimestamp(until - 1);
    if k == 0 {
      SameOrdinal(s, first);
      ts := since;
    } else {
      ts := StartTs(s);
      StartsAreOrdered(first, s);
      NextMonth(s);
      OnlyOneShard(ts, s);
      if s.Ordinal() < last.Ordinal() { StartsAreOrdered(s, last); } else { SameOrdinal(s, last); }
    }
  }

  lemma TouchedIsPlanned(since: nat, until: nat, shards: seq<ShardId>, ts: nat)
    requires since <= ts < until && MonthsBetween(shards, FromTimestamp(since), FromTimestamp(until - 1))
    ensures FromTimestamp(ts) in shards
  {
    var s := FromTimestamp(ts);
    RoutingIsMonotone(since, ts);
    RoutingIsMonotone(ts, until - 1);
    ShardHoldsTimestamp(ts);
    SameOrdinal(s, shards[s.Ordinal() - FromTimestamp(since).Ordinal()]);
  }

  /**
   Pruning is exact: for a non-empty range the planned shards are precisely those that own
   some timestamp of the range.
   */
  lemma PruningIsExact(since: nat, until: nat, shards: seq<ShardId>, s: ShardId)
    requires since < until && MonthsBetween(shards, FromTimestamp(since), FromTimestamp(until - 1))
    ensures s in shards <==> exists ts: nat :: since <= ts < until && FromTimestamp(ts) == s
  {
    if s in shards {
      var k :| 0 <= k < |shards| && shards[k] == s;
      var ts := PlannedIsTouched(since, until, k, s);
    }
    if ts: nat :| since <= ts < until && FromTimestamp(ts) == s {
      TouchedIsPlanned(since, until, shards, ts);
    }
  }

  // ----- Names ---------------------------------------------------------------------------

  function Digit(d: nat): char
    requires d < 10
  {
    '0' + d as char
  }

  predicate IsDigit(c: char) { '0' <= c <= '9' }

  /** Decimal digits of `n`, without leading zeros. */
  function Decimal(n: nat): string {
    if n < 10 then [Digit(n)] else Decimal(n / 10) + [Digit(n % 10)]
  }

  /** `{:0w}`: decimal, padded with zeros on the left to `w` characters. */
  function Padded(n: nat, w: nat): string {
    var s := Decimal(n);
    if |s| >= w then s else seq(w - |s|, _ => '0') + s
  }

  function Name(s: ShardId): string {
    Padded(s.year, 4) + "-" + Padded(s.month, 2)
  }

  /** An unsigned decimal, as `str::parse` reads it; `max` is the type's largest value. */
  function ParseDigits(s: string): Option<nat> {
    if s == [] || !IsDigit(s[|s| - 1]) then None
    else
      var d := (s[|s| - 1] - '0') as nat;
      if |s| == 1 then Some(d)
      else
        match ParseDigits(s[..|s| - 1])
        case None => None
        case Some(n) => Some(10 * n + d)
  }

  function ParseUpTo(s: string, max: nat): Option<nat> {
    var digits := if s != [] && s[0] == '+' then s[1..] else s;
    match ParseDigits(digits)
    case Some(n) => if n <= max then Some(n) else None
    case None => None
  }

  function FirstDash(s: string): (k: nat)
    ensures k <= |s|
    ensures forall i :: 0 <= i < k ==> s[i] != '-'
    ensures k < |s| ==> s[k] == '-'
  {
    if s == [] || s[0] == '-' then 0 else 1 + FirstDash(s[1..])
  }

  /** `ShardId::parse`: split at the first dash, year as i32 (never signed here), month as u32. */
  function Parse(name: string): Option<ShardId> {
    var k := FirstDash(name);
    if k == |name| then None
    else
      match (ParseUpTo(name[..k], 0x7fff_ffff), ParseUpTo(name[k + 1..], 0xffff_ffff))
      case (Some(y), Some(m)) => Some(ShardId(y, m))
      case _ => None
  }

  lemma DigitReads(d: nat)
    requires d < 10
    ensures IsDigit(Digit(d)) && (Digit(d) - '0') as nat == d
  {
  }

  lemma {:induction false} DecimalReads(n: nat)
    ensures Decimal(n) != [] && ParseDigits(Decimal(n)) == Some(n)
    ensures forall c :: c in Decimal(n) ==> IsDigit(c)
  {
    DigitReads(n % 10);
    if n >= 10 {
      DecimalReads(n / 10);
      var s := Decimal(n);
      assert s[..|s| - 1] == Decimal(n / 10);
    }
  }

  lemma {:induction false} ZerosReadAsNothing(k: nat, s: string)
    requires s != [] && ParseDigits(s).Some?
    ensures ParseDigits(seq(k, _ => '0') + s) == ParseDigits(s)
    decreases |s|, k
  {
    var zs := seq(k, _ => '0');
    var t := zs + s;
    if k > 0 {
      if |s| > 1 {
        assert t[..|t| - 1] == zs + s[..|s| - 1];
        ZerosReadAsNothing(k, s[..|s| - 1]);
      } else {
        assert t[..|t| - 1] == zs;
        ZerosAreZero(k);
      }
    } else {
      assert t == s;
    }
  }

  lemma {:induction false} ZerosAreZero(k: nat)
    requires k > 0
    ensures ParseDigits(seq(k, _ => '0')) == Some(0)
  {
    var zs := seq(k, _ => '0');
    if k > 1 {
      assert zs[..|zs| - 1] == seq(k - 1, _ => '0');
      ZerosAreZero(k - 1);
    }
  }

  lemma PaddedReads(n: nat, w: nat)
    ensures Padded(n, w) != [] && ParseDigits(Padded(n, w)) == Some(n)
    ensures forall c :: c in Padded(n, w) ==> IsDigit(c)
  {
    DecimalReads(n);
    if |Decimal(n)| < w {
      ZerosReadAsNothing(w - |Decimal(n)|, Decimal(n));
    }
  }

  lemma {:induction false} FirstDashAfter(y: string, rest: string)
    requires (forall c :: c in y ==> IsDigit(c)) && rest != [] && rest[0] == '-'
    ensures FirstDash(y + rest) == |y|
  {
    if y == [] {
      assert y + rest == rest;
    } else {
      assert y[0] in y;
      assert (y + rest)[1..] == y[1..] + rest;
      FirstDashAfter(y[1..], rest);
    }
  }

  lemma DigitsParse(s: string, n: nat, max: nat)
    requires s != [] && (forall c :: c in s ==> IsDigit(c)) && ParseDigits(s) == Some(n) && n <= max
    ensures ParseUpTo(s, max) == Some(n)
  {
    assert s[0] in s;
  }

  /** A shard directory's name leads back to its shard. */
  lemma NameRoundTrips(s: ShardId)
    requires s.year <= 0x7fff_ffff && s.month <= 0xffff_ffff
    ensures Parse(Name(s)) == Some(s)
  {
    var y, m, name := Padded(s.year, 4), Padded(s.month, 2), Name(s);
    PaddedReads(s.year, 4);
    PaddedReads(s.month, 2);
    assert name == y + ("-" + m);
    FirstDashAfter(y, "-" + m);
    assert name[..|y|] == y && name[|y| + 1..] == m;
    DigitsParse(y, s.year, 0x7fff_ffff);
    DigitsParse(m, s.month, 0xffff_ffff);
  }

  lemma TwoDigits(m: nat)
    requires m < 100
    ensures Padded(m, 2) == [Digit(m / 10), Digit(m % 10)]
  {
    if m < 10 {
      var zeros := seq(1, _ => '0');
      assert zeros == ['0'] && Digit(0) == '0';
      assert Decimal(m) == [Digit(m)];
      assert Padded(m, 2) == zeros + [Digit(m)];
    } else {
      assert Decimal(m / 10) == [Digit(m / 10)];
    }
  }

  /** A name shows the year in four digits and the month in two. */
  lemma NameInDigits(s: ShardId)
    requires 1000 <= s.year <= 9999 && s.Valid()
    ensures Name(s) == [Digit(s.year / 1000), Digit(s.year / 100 % 10), Digit(s.year / 10 % 10), Digit(s.year % 10),
                        '-', Digit(s.month / 10), Digit(s.month % 10)]
  {
    var y := s.year;
    assert y / 10 / 10 == y / 100 && y / 100 / 10 == y / 1000;
    assert Decimal(y / 1000) == [Digit(y / 1000)];
    assert Decimal(y / 100) == [Digit(y / 1000), Digit(y / 100 % 10)];
    assert Decimal(y / 10) == [Digit(y / 1000), Digit(y / 100 % 10), Digit(y / 10 % 10)];
    TwoDigits(s.month);
  }
}
