// Months merged into quarters, halves and years: a whole list of them, or as
// new ones come.
module Candles {
  import opened Basics
  import opened Ordering
  import opened Calendar

  datatype Candle = Candle(
    openTime: nat, open: real, high: real, low: real, close: real, volume: real)

  // ---- Groups of months -----------------------------------------------

  function FirstMonth(month: int, months: nat): int
    requires months > 0
  {
    (month - 1) / months * months + 1
  }

  // The opening of a time's group, and whether its month is the group's first.
  function GroupOpen(ms: nat, months: nat): (nat, bool)
    requires months > 0
  {
    var (year, month) := YearMonth(ms);
    var first := FirstMonth(month, months);
    (MonthStart(year, first), month == first)
  }

  lemma SignOfFactor(x: int, m: nat)
    requires x * m > 0
    ensures x > 0
  {
  }

  // One quotient for one number.
  lemma OneQuotient(q: int, r: int, m: nat, over: nat)
    requires q * m == r * m + over && over < m
    ensures q == r
  {
    assert (q - r + 1) * m == q * m - r * m + m;
    assert (r - q + 1) * m == r * m - q * m + m;
    SignOfFactor(q - r + 1, m);
    SignOfFactor(r - q + 1, m);
  }

  lemma QuotientOfMultiple(q: int, m: nat)
    requires m > 0
    ensures q * m / m == q
  {
    var n := q * m;
    OneQuotient(q, n / m, m, n % m);
  }

  lemma FirstMonthIsFirst(month: int, months: nat)
    requires months > 0 && month >= 1
    ensures 1 <= FirstMonth(month, months) <= month < FirstMonth(month, months) + months
    ensures (FirstMonth(month, months) - 1) % months == 0
    ensures FirstMonth(FirstMonth(month, months), months) == FirstMonth(month, months)
  {
    var q := (month - 1) / months;
    assert q * months == (month - 1) - (month - 1) % months;
    assert q >= 0;
    assert 0 <= q * months <= month - 1;
    QuotientOfMultiple(q, months);
    assert q * months % months == 0;
  }

  lemma FirstMonthRises(a: int, b: int, months: nat)
    requires months > 0 && 1 <= a <= b
    ensures FirstMonth(a, months) <= FirstMonth(b, months)
  {
    var p, q := (a - 1) / months, (b - 1) / months;
    assert p <= q by { QuotientRises(a - 1, b - 1, months); }
    assert p * months <= q * months;
  }

  lemma QuotientRises(a: int, b: int, m: nat)
    requires m > 0 && 0 <= a <= b
    ensures a / m <= b / m
  {
    var p, q := a / m, b / m;
    assert a == p * m + a % m && b == q * m + b % m;
    assert (q - p + 1) * m == b - b % m - a + a % m + m > 0;
    assert q - p + 1 > 0;
  }

  // A group opens on a month boundary not after any time in it, and that
  // opening is in the same group, in its first month.
  lemma GroupIsAligned(ms: nat, months: nat)
    requires months > 0
    ensures var open := GroupOpen(ms, months).0;
            open <= ms && GroupOpen(open, months) == (open, true)
  {
    hide CivilFromDays, DaysFromCivil, FirstOf;
    var (year, month) := YearMonth(ms);
    DayLiesInItsMonth(DayOf(ms));
    FirstMonthIsFirst(month, months);
    var first := FirstMonth(month, months);
    MonthStartReadsBack(year, first);
    MonthStartIsGreatest(ms, year, first);
    FirstOfIndex(year, first);
    FirstOfIndex(year, month);
    FirstsRise(MonthIndex(year, first), MonthIndex(year, month));
    MonthStartReadsBack(year, month);
  }

  // A group is so many months of one year, counted from its first, and opens when the
  // month it starts with does.
  lemma GroupSpans(ms: nat, months: nat)
    requires months > 0
    ensures var (year, month) := YearMonth(ms);
            exists first ::
              && 1 <= first <= month < first + months && (first - 1) % months == 0
              && GroupOpen(ms, months) == (MonthStart(year, first), month == first)
  {
    hide CivilFromDays, DaysFromCivil, MonthStart;
    var (year, month) := YearMonth(ms);
    DayLiesInItsMonth(DayOf(ms));
    FirstMonthIsFirst(month, months);
    assert GroupOpen(ms, months) == (MonthStart(year, FirstMonth(month, months)), month == FirstMonth(month, months));
  }

  // Times in order are in groups in order.
  lemma GroupsInOrder(a: nat, b: nat, months: nat)
    requires months > 0 && a <= b
    ensures GroupOpen(a, months).0 <= GroupOpen(b, months).0
  {
    hide CivilFromDays, DaysFromCivil, FirstOf, FirstMonth;
    var (y, m) := YearMonth(a);
    var (z, n) := YearMonth(b);
    MonthsInOrder(a, b);
    DayLiesInItsMonth(DayOf(a));
    DayLiesInItsMonth(DayOf(b));
    FirstMonthIsFirst(m, months);
    FirstMonthIsFirst(n, months);
    var f, g := FirstMonth(m, months), FirstMonth(n, months);
    if y == z {
      FirstMonthRises(m, n, months);
    }
    FirstsRise(MonthIndex(y, f), MonthIndex(z, g));
    FirstOfIndex(y, f);
    FirstOfIndex(z, g);
    MonthStartReadsBack(y, f);
    MonthStartReadsBack(z, g);
  }

  // ---- All at once ----------------------------------------------------

  function Merge(group: Candle, part: Candle): Candle {
    group.(high := Max(group.high, part.high), low := Min(group.low, part.low),
           close := part.close, volume := group.volume + part.volume)
  }

  function Grouped(parts: seq<Candle>, months: nat): seq<Candle>
    requires months > 0
  {
    if parts == [] then []
    else
      var n := |parts| - 1;
      var out := Grouped(parts[..n], months);
      var open := GroupOpen(parts[n].openTime, months).0;
      if out != [] && out[|out| - 1].openTime == open
      then out[|out| - 1 := Merge(out[|out| - 1], parts[n])]
      else out + [parts[n].(openTime := open)]
  }

  predicate DropsFirst(parts: seq<Candle>, months: nat, complete: bool)
    requires months > 0
  {
    !complete && parts != [] && !GroupOpen(parts[0].openTime, months).1
  }

  lemma GroupedIsEmpty(parts: seq<Candle>, months: nat)
    requires months > 0
    ensures Grouped(parts, months) == [] <==> parts == []
  {
  }

  // The loop over months in time order. A first group begun late is left out,
  // but not where nothing older exists.
  method GroupMonths(parts: seq<Candle>, months: nat, complete: bool) returns (out: seq<Candle>)
    requires months > 0
    ensures out == if DropsFirst(parts, months, complete) then Grouped(parts, months)[1..]
                   else Grouped(parts, months)
  {
    hide GroupOpen;
    out := [];
    for i := 0 to |parts|
      invariant out == Grouped(parts[..i], months)
    {
      assert parts[..i + 1][..i] == parts[..i];
      var part := parts[i];
      var open := GroupOpen(part.openTime, months).0;
      if out != [] && out[|out| - 1].openTime == open {
        var group := out[|out| - 1];
        group := group.(high := Max(group.high, part.high));
        group := group.(low := Min(group.low, part.low));
        group := group.(close := part.close);
        group := group.(volume := group.volume + part.volume);
        out := out[|out| - 1 := group];
      } else {
        out := out + [part.(openTime := open)];
      }
    }
    assert parts[..|parts|] == parts;
    GroupedIsEmpty(parts, months);
    if !complete && parts != [] && !GroupOpen(parts[0].openTime, months).1 {
      out := out[1..];
    }
  }

  // ---- What a group is ------------------------------------------------

  predicate OldestFirst(parts: seq<Candle>) {
    forall i, j :: 0 <= i < j < |parts| ==> parts[i].openTime < parts[j].openTime
  }

  // The months that fall in the group opening at `open`.
  function InGroup(parts: seq<Candle>, open: nat, months: nat): seq<Candle>
    requires months > 0
  {
    if parts == [] then []
    else
      var n := |parts| - 1;
      var rest := InGroup(parts[..n], open, months);
      if GroupOpen(parts[n].openTime, months).0 == open then rest + [parts[n]] else rest
  }

  // One candle of several.
  function Whole(parts: seq<Candle>, open: nat): Candle
    requires parts != []
  {
    var n := |parts| - 1;
    if n == 0 then parts[0].(openTime := open) else Merge(Whole(parts[..n], open), parts[n])
  }

  function Volumes(parts: seq<Candle>): real {
    if parts == [] then 0.0 else Volumes(parts[..|parts| - 1]) + parts[|parts| - 1].volume
  }

  // It opens as its first month does and closes as its last; its high and low
  // are the highest and lowest of them, and its volume is all of theirs.
  lemma {:induction false} WholeIsOne(parts: seq<Candle>, open: nat)
    requires parts != []
    ensures var w := Whole(parts, open);
            && w.openTime == open && w.open == parts[0].open && w.close == parts[|parts| - 1].close
            && (forall i :: 0 <= i < |parts| ==> w.low <= parts[i].low && parts[i].high <= w.high)
            && (exists i :: 0 <= i < |parts| && w.high == parts[i].high)
            && (exists i :: 0 <= i < |parts| && w.low == parts[i].low)
            && w.volume == Volumes(parts)
  {
    var n := |parts| - 1;
    if n == 0 {
      assert parts[..0] == [];
      var w := Whole(parts, open);
      assert w.high == parts[0].high && w.low == parts[0].low && w.volume == parts[0].volume;
    } else {
      var rest := parts[..n];
      WholeIsOne(rest, open);
      var w := Whole(rest, open);
      var i :| 0 <= i < n && w.high == rest[i].high;
      var j :| 0 <= j < n && w.low == rest[j].low;
      assert rest[i] == parts[i] && rest[j] == parts[j];
      assert forall k :: 0 <= k < n ==> parts[k] == rest[k];
    }
  }

  // Each group is one candle of exactly its own months, the groups come oldest
  // first, and every month is in one.
  ghost predicate GroupsAreWhole(out: seq<Candle>, parts: seq<Candle>, months: nat)
    requires months > 0
  {
    && OldestFirst(out)
    && EachWhole(out, parts, months)
    && (forall p :: p in parts ==> HasGroup(out, GroupOpen(p.openTime, months).0))
    && (parts != [] ==> EndsWith(out, GroupOpen(parts[|parts| - 1].openTime, months).0))
  }

  ghost predicate EachWhole(out: seq<Candle>, parts: seq<Candle>, months: nat)
    requires months > 0
  {
    forall c :: c in out ==>
      var group := InGroup(parts, c.openTime, months); group != [] && c == Whole(group, c.openTime)
  }

  ghost predicate HasGroup(out: seq<Candle>, open: nat) { exists c :: c in out && c.openTime == open }

  predicate EndsWith(out: seq<Candle>, open: nat) { out != [] && out[|out| - 1].openTime == open }

  lemma {:induction false} NothingLater(parts: seq<Candle>, open: nat, months: nat)
    requires months > 0
    requires forall p :: p in parts ==> GroupOpen(p.openTime, months).0 != open
    ensures InGroup(parts, open, months) == []
  {
    hide GroupOpen;
    if parts != [] {
      NothingLater(parts[..|parts| - 1], open, months);
    }
  }

  lemma {:induction false} GroupedIsWhole(parts: seq<Candle>, months: nat)
    requires months > 0 && OldestFirst(parts)
    ensures GroupsAreWhole(Grouped(parts, months), parts, months)
  {
    if parts != [] {
      GroupedIsWhole(parts[..|parts| - 1], months);
      OneMoreMonth(parts, months);
    }
  }

  lemma OneMoreMonth(parts: seq<Candle>, months: nat)
    requires months > 0 && OldestFirst(parts) && parts != []
    requires GroupsAreWhole(Grouped(parts[..|parts| - 1], months), parts[..|parts| - 1], months)
    ensures GroupsAreWhole(Grouped(parts, months), parts, months)
  {
    hide GroupOpen, Whole, EachWhole, OldestFirst, InGroup;
    var n := |parts| - 1;
    var before, p := parts[..n], parts[n];
    assert before + [p] == parts;
    var out, next := Grouped(before, months), Grouped(parts, months);
    var open := GroupOpen(p.openTime, months).0;
    NoneLater(parts, months);
    GroupedIsEmpty(before, months);
    if EndsWith(out, open) {
      Joins(out, before, p, months);
    } else {
      Starts(out, before, p, months);
    }
    assert EndsWith(next, open);
    assert next[|next| - 1] in next;
    forall q | q in parts ensures HasGroup(next, GroupOpen(q.openTime, months).0) {
      if q in before {
        KeepsGroups(out, next, GroupOpen(q.openTime, months).0);
      } else {
        assert q == p;
      }
    }
  }

  lemma KeepsGroups(out: seq<Candle>, next: seq<Candle>, open: nat)
    requires |out| <= |next| && forall k :: 0 <= k < |out| ==> next[k].openTime == out[k].openTime
    requires HasGroup(out, open)
    ensures HasGroup(next, open)
  {
    var c :| c in out && c.openTime == open;
    var k :| 0 <= k < |out| && out[k] == c;
    assert next[k] in next;
  }

  lemma NoneLater(parts: seq<Candle>, months: nat)
    requires months > 0 && OldestFirst(parts) && parts != []
    ensures forall q :: q in parts[..|parts| - 1] ==>
      GroupOpen(q.openTime, months).0 <= GroupOpen(parts[|parts| - 1].openTime, months).0
  {
    hide GroupOpen;
    var p := parts[|parts| - 1];
    forall q | q in parts[..|parts| - 1]
      ensures GroupOpen(q.openTime, months).0 <= GroupOpen(p.openTime, months).0
    {
      GroupsInOrder(q.openTime, p.openTime, months);
    }
  }

  lemma WholeOfMore(group: seq<Candle>, p: Candle, open: nat)
    requires group != []
    ensures Whole(group + [p], open) == Merge(Whole(group, open), p)
  {
    assert (group + [p])[..|group|] == group;
  }

  // The next month is in the newest group.
  lemma Joins(out: seq<Candle>, before: seq<Candle>, p: Candle, months: nat)
    requires months > 0 && GroupsAreWhole(out, before, months) && out != []
    requires out[|out| - 1].openTime == GroupOpen(p.openTime, months).0
    ensures var next := out[|out| - 1 := Merge(out[|out| - 1], p)];
            OldestFirst(next) && EachWhole(next, before + [p], months)
  {
    hide GroupOpen, Whole;
    var last := |out| - 1;
    var next := out[last := Merge(out[last], p)];
    assert (before + [p])[..|before|] == before;
    forall c | c in next
      ensures var group := InGroup(before + [p], c.openTime, months);
              group != [] && c == Whole(group, c.openTime)
    {
      var k :| 0 <= k < |next| && next[k] == c;
      assert out[k] in out;
      if k == last {
        WholeOfMore(InGroup(before, c.openTime, months), p, c.openTime);
      }
    }
  }

  // The next month starts a group of its own.
  lemma Starts(out: seq<Candle>, before: seq<Candle>, p: Candle, months: nat)
    requires months > 0 && GroupsAreWhole(out, before, months)
    requires var open := GroupOpen(p.openTime, months).0;
             && (forall q :: q in before ==> GroupOpen(q.openTime, months).0 <= open)
             && (out != [] ==> out[|out| - 1].openTime != open)
    requires before == [] ==> out == []
    ensures var next := out + [p.(openTime := GroupOpen(p.openTime, months).0)];
            OldestFirst(next) && EachWhole(next, before + [p], months)
  {
    hide GroupOpen;
    var open := GroupOpen(p.openTime, months).0;
    var next := out + [p.(openTime := open)];
    assert (before + [p])[..|before|] == before;
    if before != [] {
      assert before[|before| - 1] in before;
      assert out[|out| - 1].openTime < open;
    }
    forall q | q in before ensures GroupOpen(q.openTime, months).0 != open {
      assert HasGroup(out, GroupOpen(q.openTime, months).0);
    }
    NothingLater(before, open, months);
    assert InGroup(before + [p], open, months) == [p];
    assert Whole([p], open) == p.(openTime := open);
    forall c | c in next
      ensures var group := InGroup(before + [p], c.openTime, months);
              group != [] && c == Whole(group, c.openTime)
    {
      if c in out {
        var k :| 0 <= k < |out| && out[k] == c;
        assert c.openTime != open;
      }
    }
  }

  // A month, by the time it opens.
  predicate OpensAMonth(p: Candle) {
    p.openTime == MonthStart(YearMonth(p.openTime).0, YearMonth(p.openTime).1)
  }

  // Of whole months: the oldest group is left out exactly if more may be older and
  // the month it opens with isn't there.
  lemma LeftOutExactly(parts: seq<Candle>, months: nat, complete: bool)
    requires months > 0 && OldestFirst(parts) && parts != [] && OpensAMonth(parts[0])
    ensures Grouped(parts, months) != []
    ensures DropsFirst(parts, months, complete)
            <==> !complete && forall p :: p in parts ==> p.openTime != Grouped(parts, months)[0].openTime
  {
    hide CivilFromDays, DaysFromCivil, FirstOf, FirstMonth, OldestFirst;
    GroupedIsEmpty(parts, months);
    FirstGroupOpens(parts, months);
    var ms := parts[0].openTime;
    var open := GroupOpen(ms, months).0;
    GroupIsAligned(ms, months);
    assert parts[0] in parts;
    FirstIsOldest(parts);
    if !GroupOpen(ms, months).1 {
      assert open != ms;
    }
  }

  lemma FirstIsOldest(parts: seq<Candle>)
    requires OldestFirst(parts) && parts != []
    ensures forall p :: p in parts ==> parts[0].openTime <= p.openTime
  {
  }

  lemma {:induction false} FirstGroupOpens(parts: seq<Candle>, months: nat)
    requires months > 0 && parts != []
    ensures Grouped(parts, months) != []
            && Grouped(parts, months)[0].openTime == GroupOpen(parts[0].openTime, months).0
  {
    hide GroupOpen;
    var n := |parts| - 1;
    if n > 0 {
      FirstGroupOpens(parts[..n], months);
    } else {
      assert parts[..0] == [];
    }
  }

  // ---- As they stream in ----------------------------------------------

  lemma TimesAreTotal()
    ensures StrictTotal((a: nat, b: nat) => a < b)
  {
  }

  function Times(parts: map<nat, Candle>): seq<nat> {
    TimesAreTotal();
    InOrder(parts.Keys, (a: nat, b: nat) => a < b)
  }

  // Every month is kept under its own time.
  predicate ByTime(parts: map<nat, Candle>) { forall t :: t in parts ==> parts[t].openTime == t }

  lemma TimesInOrder(parts: map<nat, Candle>)
    ensures |Times(parts)| == |parts|
    ensures forall t :: t in Times(parts) <==> t in parts
    ensures forall i, j :: 0 <= i < j < |Times(parts)| ==> Times(parts)[i] < Times(parts)[j]
  {
    TimesAreTotal();
    var lt := (a: nat, b: nat) => a < b;
    InOrderHasAll(parts.Keys, lt);
    forall i, j | 0 <= i < j < |Times(parts)| ensures Times(parts)[i] < Times(parts)[j] {
      InOrderIsSorted(parts.Keys, lt, i, j);
    }
  }

  // All the months kept, oldest first.
  function AllParts(parts: map<nat, Candle>): seq<Candle> {
    var times := Times(parts);
    TimesInOrder(parts);
    seq(|times|, i requires 0 <= i < |times| => assert times[i] in times; parts[times[i]])
  }

  lemma AllPartsAreThere(parts: map<nat, Candle>)
    requires ByTime(parts)
    ensures OldestFirst(AllParts(parts))
    ensures forall c: Candle :: c in AllParts(parts) <==> c.openTime in parts && parts[c.openTime] == c
  {
    hide Times;
    var times := Times(parts);
    TimesInOrder(parts);
    assert forall i :: 0 <= i < |times| ==> times[i] in times && AllParts(parts)[i] == parts[times[i]];
    forall c: Candle | c.openTime in parts && parts[c.openTime] == c ensures c in AllParts(parts) {
      assert c.openTime in times;
      var i :| 0 <= i < |times| && times[i] == c.openTime;
      assert AllParts(parts)[i] == c;
    }
  }

  function Inserted(parts: map<nat, Candle>, candles: seq<Candle>): map<nat, Candle> {
    if candles == [] then parts
    else
      var c := candles[|candles| - 1];
      Inserted(parts, candles[..|candles| - 1])[c.openTime := c]
  }

  lemma {:induction false} InsertedByTime(parts: map<nat, Candle>, candles: seq<Candle>)
    requires ByTime(parts)
    ensures ByTime(Inserted(parts, candles))
    ensures forall c :: c in candles ==> c.openTime in Inserted(parts, candles)
  {
    if candles != [] {
      InsertedByTime(parts, candles[..|candles| - 1]);
    }
  }

  // Of several candles of one month the last is kept.
  lemma {:induction false} LastOfAMonth(parts: map<nat, Candle>, candles: seq<Candle>, i: nat)
    requires i < |candles| && forall j :: i < j < |candles| ==> candles[j].openTime != candles[i].openTime
    ensures var after, t := Inserted(parts, candles), candles[i].openTime; t in after && after[t] == candles[i]
  {
    var n := |candles| - 1;
    if i < n {
      assert candles[..n][i] == candles[i];
      LastOfAMonth(parts, candles[..n], i);
    }
  }

  // And every month there is no candle of is as it was.
  lemma {:induction false} OtherMonthsStay(parts: map<nat, Candle>, candles: seq<Candle>, t: nat)
    requires forall i :: 0 <= i < |candles| ==> candles[i].openTime != t
    ensures t in Inserted(parts, candles) <==> t in parts
    ensures t in parts ==> Inserted(parts, candles)[t] == parts[t]
  {
    if candles != [] {
      var n := |candles| - 1;
      assert forall i :: 0 <= i < n ==> candles[..n][i] == candles[i];
      OtherMonthsStay(parts, candles[..n], t);
    }
  }

  // The groups some candles fall in.
  ghost predicate Touches(candles: seq<Candle>, open: nat, months: nat)
    requires months > 0
  {
    exists c :: c in candles && GroupOpen(c.openTime, months).0 == open
  }

  // A B-tree's entries from a key on, as long as they are in its group.
  function Run(all: seq<Candle>, open: nat, months: nat): seq<Candle>
    requires months > 0
  {
    if all == [] then []
    else if all[0].openTime < open then Run(all[1..], open, months)
    else if GroupOpen(all[0].openTime, months).0 == open then [all[0]] + Run(all[1..], open, months)
    else []
  }

  lemma {:induction false} InGroupFromFront(all: seq<Candle>, open: nat, months: nat)
    requires months > 0 && all != []
    ensures InGroup(all, open, months)
            == (if GroupOpen(all[0].openTime, months).0 == open then [all[0]] else [])
               + InGroup(all[1..], open, months)
  {
    hide GroupOpen;
    var n := |all| - 1;
    if n == 0 {
      assert all[..0] == [] && all[1..] == [];
    } else {
      InGroupFromFront(all[..n], open, months);
      assert all[..n][1..] == all[1..][..n - 1];
    }
  }

  // That run is the whole group: nothing before its opening is in it, and
  // nothing comes between its months.
  lemma {:induction false} RunIsTheGroup(all: seq<Candle>, open: nat, months: nat)
    requires months > 0 && OldestFirst(all)
    requires GroupOpen(open, months).0 == open
    ensures Run(all, open, months) == InGroup(all, open, months)
  {
    hide GroupOpen;
    if all != [] {
      InGroupFromFront(all, open, months);
      var c := all[0];
      GroupIsAligned(c.openTime, months);
      RunIsTheGroup(all[1..], open, months);
      if c.openTime >= open && GroupOpen(c.openTime, months).0 != open {
        GroupsInOrder(open, c.openTime, months);
        forall q | q in all ensures GroupOpen(q.openTime, months).0 != open {
          var k :| 0 <= k < |all| && all[k] == q;
          GroupsInOrder(c.openTime, q.openTime, months);
        }
        NothingLater(all, open, months);
      }
    }
  }

  // A run within one group makes one candle of it.
  lemma {:induction false} OneGroup(parts: seq<Candle>, open: nat, months: nat)
    requires months > 0 && parts != []
    requires forall p :: p in parts ==> GroupOpen(p.openTime, months).0 == open
    ensures Grouped(parts, months) == [Whole(parts, open)]
  {
    hide GroupOpen;
    var n := |parts| - 1;
    if n == 0 {
      assert parts[..0] == [] && parts[n] in parts;
    } else {
      OneGroup(parts[..n], open, months);
      WholeIsOne(parts[..n], open);
      assert parts[n] in parts;
    }
  }

  lemma {:induction false} InGroupIsInGroup(parts: seq<Candle>, open: nat, months: nat)
    requires months > 0
    ensures forall p ::
      p in InGroup(parts, open, months) <==> p in parts && GroupOpen(p.openTime, months).0 == open
  {
    hide GroupOpen;
    if parts != [] {
      InGroupIsInGroup(parts[..|parts| - 1], open, months);
      assert forall p :: p in parts <==> p in parts[..|parts| - 1] || p == parts[|parts| - 1];
    }
  }

  // What is re-emitted for a touched group is the group `group_months` makes
  // of everything kept, and that is the only one opening there.
  lemma TouchedGroup(all: seq<Candle>, open: nat, months: nat)
    requires months > 0 && OldestFirst(all)
    requires exists p :: p in all && GroupOpen(p.openTime, months).0 == open
    ensures var run := Run(all, open, months);
            && run != [] && Grouped(run, months) == [Whole(run, open)]
            && Whole(run, open).openTime == open
            && Whole(run, open) in Grouped(all, months)
  {
    hide GroupOpen, Whole, InGroup, Grouped, Run;
    var p :| p in all && GroupOpen(p.openTime, months).0 == open;
    GroupIsAligned(p.openTime, months);
    RunIsTheGroup(all, open, months);
    InGroupIsInGroup(all, open, months);
    var run := Run(all, open, months);
    assert p in run;
    OneGroup(run, open, months);
    WholeIsOne(run, open);
    GroupedIsWhole(all, months);
    assert HasGroup(Grouped(all, months), GroupOpen(p.openTime, months).0);
  }

  class MonthGroups {
    const months: nat
    var parts: map<nat, Candle>

    // Starts from the monthly history.
    constructor (months: nat, history: seq<Candle>)
      ensures this.months == months && parts == Inserted(map[], history) && ByTime(parts)
    {
      this.months := months;
      var kept: map<nat, Candle> := map[];
      for i := 0 to |history|
        invariant kept == Inserted(map[], history[..i])
      {
        assert history[..i + 1][..i] == history[..i];
        kept := kept[history[i].openTime := history[i]];
      }
      assert history[..|history|] == history;
      InsertedByTime(map[], history);
      parts := kept;
    }

    // Takes monthly candles in, and notes which groups they fall in.
    method Insert(candles: seq<Candle>) returns (opens: seq<nat>)
      requires months > 0
      modifies this
      ensures parts == Inserted(old(parts), candles)
      ensures forall open :: open in opens <==> Touches(candles, open, months)
      ensures forall i, j :: 0 <= i < j < |opens| ==> opens[i] != opens[j]
    {
      hide GroupOpen;
      opens := [];
      for i := 0 to |candles|
        invariant parts == Inserted(old(parts), candles[..i])
        invariant forall open :: open in opens <==> Touches(candles[..i], open, months)
        invariant forall j, k :: 0 <= j < k < |opens| ==> opens[j] != opens[k]
      {
        assert candles[..i + 1][..i] == candles[..i];
        var c := candles[i];
        var open := GroupOpen(c.openTime, months).0;
        ghost var before := opens;
        if open !in opens {
          opens := opens + [open];
        }
        parts := parts[c.openTime := c];
        forall o ensures Touches(candles[..i + 1], o, months) <==> Touches(candles[..i], o, months) || o == open {
          assert forall q :: q in candles[..i + 1] <==> q in candles[..i] || q == c;
        }
      }
      assert candles[..|candles|] == candles;
    }

    // New months are kept, and every group one of them belongs to comes out as
    // grouping all that is kept would make it, in time order.
    method Update(candles: seq<Candle>) returns (out: seq<Candle>)
      requires months > 0 && ByTime(parts)
      modifies this
      ensures parts == Inserted(old(parts), candles) && ByTime(parts)
      ensures OldestFirst(out)
      ensures forall c ::
        c in out <==> c in Grouped(AllParts(parts), months) && Touches(candles, c.openTime, months)
    {
      hide GroupOpen, Grouped, Run, AllParts, OldestFirst, Whole;
      var touched := Insert(candles);
      InsertedByTime(old(parts), candles);
      var all := AllParts(parts);
      AllPartsAreThere(parts);
      var opens := InOrderOnce(touched);
      out := [];
      for i := 0 to |opens|
        invariant parts == Inserted(old(parts), candles) && all == AllParts(parts)
        invariant |out| == i
        invariant forall j :: 0 <= j < i ==> out[j] in Grouped(all, months) && out[j].openTime == opens[j]
      {
        var open := opens[i];
        assert open in touched;
        TouchedIsKept(parts, candles, open, months);
        TouchedGroup(all, open, months);
        var group := GroupMonths(Run(all, open, months), months, true);
        out := out + [group[0]];
      }
      InOrderOut(out, opens);
      forall c | c in Grouped(all, months) && Touches(candles, c.openTime, months) ensures c in out {
        assert c.openTime in opens;
        var i :| 0 <= i < |opens| && opens[i] == c.openTime;
        GroupedIsWhole(all, months);
        OneOfEach(Grouped(all, months), c, out[i]);
      }
    }
  }

  lemma OneOfEach(out: seq<Candle>, c: Candle, d: Candle)
    requires OldestFirst(out) && c in out && d in out && c.openTime == d.openTime
    ensures c == d
  {
  }

  lemma InOrderOut(out: seq<Candle>, opens: seq<nat>)
    requires |out| == |opens| && forall i :: 0 <= i < |out| ==> out[i].openTime == opens[i]
    requires forall i, j :: 0 <= i < j < |opens| ==> opens[i] < opens[j]
    ensures OldestFirst(out)
  {
  }

  // What was touched is kept, so its group has a month in it.
  lemma TouchedIsKept(parts: map<nat, Candle>, candles: seq<Candle>, open: nat, months: nat)
    requires months > 0 && ByTime(parts) && Touches(candles, open, months)
    requires forall c :: c in candles ==> c.openTime in parts
    ensures exists p :: p in AllParts(parts) && GroupOpen(p.openTime, months).0 == open
  {
    hide GroupOpen, AllParts;
    AllPartsAreThere(parts);
    var c :| c in candles && GroupOpen(c.openTime, months).0 == open;
    assert parts[c.openTime] in AllParts(parts);
  }

  // Sorts openings that are all different.
  method InOrderOnce(opens: seq<nat>) returns (sorted: seq<nat>)
    requires forall i, j :: 0 <= i < j < |opens| ==> opens[i] != opens[j]
    ensures forall o :: o in sorted <==> o in opens
    ensures forall i, j :: 0 <= i < j < |sorted| ==> sorted[i] < sorted[j]
  {
    var le := (a: nat, b: nat) => a <= b;
    sorted := Sort(opens, le);
    SortSorts(opens, le);
    assert forall o :: o in sorted <==> o in multiset(sorted);
    OnlyOnce(opens, sorted);
    forall i, j | 0 <= i < j < |sorted| ensures sorted[i] < sorted[j] {
      assert le(sorted[i], sorted[j]);
    }
  }

  lemma {:induction false} OnceEach(s: seq<nat>, o: nat)
    requires forall i, j :: 0 <= i < j < |s| ==> s[i] != s[j]
    ensures multiset(s)[o] <= 1
  {
    if s != [] {
      var n := |s| - 1;
      assert s == s[..n] + [s[n]];
      OnceEach(s[..n], o);
      assert o == s[n] ==> o !in s[..n];
    }
  }

  lemma OnlyOnce(s: seq<nat>, r: seq<nat>)
    requires forall i, j :: 0 <= i < j < |s| ==> s[i] != s[j]
    requires multiset(r) == multiset(s)
    ensures forall i, j :: 0 <= i < j < |r| ==> r[i] != r[j]
  {
    forall i, j | 0 <= i < j < |r| ensures r[i] != r[j] {
      OnceEach(s, r[i]);
      assert r == r[..j] + [r[j]] + r[j + 1..];
      assert r[i] in r[..j];
      assert multiset(r)[r[j]] >= 1;
    }
  }
}
