// What the rules answer an order with, said from the facts alone: signed sizes,
// minutes and counts.
module Plainly {
  import opened Basics
  import opened Ordering
  import opened Rules
  import opened Progress
  import opened Tightening
  import Looks

  // ---- Signed sizes ---------------------------------------------------

  // Above zero for a long and for a buy, below for a short and for a sell.
  function Held(p: HeldPosition): real { if p.side == Long then p.size else -p.size }

  function Value(p: HeldPosition): real { if p.side == Long then p.notional else -p.notional }

  function Ordered(asked: Asked): real { if asked.side == Buy then asked.size else -asked.size }

  // An order that leaves less held, by all of it: it isn't past nothing either.
  predicate TakesDown(asked: Asked, positions: seq<HeldPosition>) {
    exists i :: 0 <= i < |positions| && TakesOff(asked, positions[i])
  }

  predicate TakesOff(asked: Asked, p: HeldPosition) {
    p.market == asked.market && Abs(Held(p) + Ordered(asked)) == Abs(Held(p)) - Abs(Ordered(asked))
  }

  predicate SizesAreSizes(asked: Asked, positions: seq<HeldPosition>) {
    asked.size > 0.0 && forall i :: 0 <= i < |positions| ==> positions[i].size >= 0.0 && positions[i].notional >= 0.0
  }

  lemma ReducesIsTakesDown(asked: Asked, positions: seq<HeldPosition>)
    requires SizesAreSizes(asked, positions)
    ensures Reduces(asked, positions) <==> asked.reduceOnly || TakesDown(asked, positions)
  {
    forall i | 0 <= i < |positions|
      ensures TakesOff(asked, positions[i]) <==>
              positions[i].market == asked.market && asked.size <= positions[i].size
              && Closes(positions[i].side, asked.side)
    {
    }
  }

  // There is nothing to check of an order exactly if it is marked reduce-only, or
  // takes a position of its market down.
  lemma UncheckedExactly(rules: Rules, status: Status, facts: Facts, asked: Asked)
    requires SizesAreSizes(asked, facts.positions)
    ensures Checks(rules, status, facts, asked) == [] <==> asked.reduceOnly || TakesDown(asked, facts.positions)
  {
    ReducesIsTakesDown(asked, facts.positions);
    assert |HoursChecks(status)| == 1;
  }

  // The first position on a market, or the end.
  function At(positions: seq<HeldPosition>, market: string): (i: nat)
    ensures i <= |positions| && (i < |positions| ==> positions[i].market == market)
    ensures forall j :: 0 <= j < i ==> positions[j].market != market
  {
    if positions == [] || positions[0].market == market then 0 else 1 + At(positions[1..], market)
  }

  function ValueAt(positions: seq<HeldPosition>, market: string): real {
    var i := At(positions, market);
    if i < |positions| then Value(positions[i]) else 0.0
  }

  function Others(positions: seq<HeldPosition>, market: string): seq<HeldPosition> {
    var i := At(positions, market);
    if i < |positions| then positions[..i] + positions[i + 1..] else positions
  }

  // What the market holds once the order has been filled: what it held, signed, and
  // the order.
  function ValueAfter(positions: seq<HeldPosition>, asked: Asked): real {
    Abs(ValueAt(positions, asked.market) + Ordered(asked) * asked.price)
  }

  lemma {:induction false} FoundIsFirst(positions: seq<HeldPosition>, market: string)
    ensures FindPosition(positions, market)
            == var i := At(positions, market); if i < |positions| then Some(positions[i]) else None
  {
    if positions != [] {
      FoundIsFirst(positions[1..], market);
    }
  }

  lemma AfterIsSigned(asked: Asked, positions: seq<HeldPosition>)
    ensures After(asked, positions) == ValueAfter(positions, asked)
  {
    FoundIsFirst(positions, asked.market);
    var i := At(positions, asked.market);
    assert Ordered(asked) * asked.price == asked.size * asked.price
           || Ordered(asked) * asked.price == -(asked.size * asked.price) by {
      assert (-asked.size) * asked.price == -(asked.size * asked.price);
    }
    assert asked.side == Sell ==> Ordered(asked) * asked.price == -(asked.size * asked.price);
  }

  lemma {:induction false} ExposureSplits(a: seq<HeldPosition>, b: seq<HeldPosition>)
    ensures Exposure(a + b) == Exposure(a) + Exposure(b)
  {
    if a == [] {
      assert a + b == b;
    } else {
      assert (a + b)[1..] == a[1..] + b;
      ExposureSplits(a[1..], b);
    }
  }

  function NotionalOf(p: HeldPosition): real { p.notional }

  lemma {:induction false} ExposureIsSum(positions: seq<HeldPosition>)
    ensures Exposure(positions) == Sum(positions, NotionalOf)
  {
    if positions != [] {
      var n := |positions| - 1;
      ExposureIsSum(positions[..n]);
      assert positions == positions[..n] + [positions[n]];
      assert [positions[n]][1..] == [];
      ExposureSplits(positions[..n], [positions[n]]);
    }
  }

  lemma OthersAreTheRest(positions: seq<HeldPosition>, market: string)
    ensures var i := At(positions, market);
            Sum(Others(positions, market), NotionalOf)
            == Exposure(positions) - if i < |positions| then positions[i].notional else 0.0
  {
    ExposureIsSum(Others(positions, market));
    var i := At(positions, market);
    if i < |positions| {
      var rest := positions[i + 1..];
      assert positions == positions[..i] + ([positions[i]] + rest);
      ExposureSplits(positions[..i], [positions[i]] + rest);
      assert ([positions[i]] + rest)[1..] == rest;
      ExposureSplits(positions[..i], rest);
    }
  }

  lemma HeldForIsThere(asked: Asked, positions: seq<HeldPosition>)
    requires SizesAreSizes(asked, positions)
    ensures var i := At(positions, asked.market);
            Abs(HeldFor(asked, positions)) == if i < |positions| then positions[i].notional else 0.0
  {
    FoundIsFirst(positions, asked.market);
  }

  function HeldAfter(positions: seq<HeldPosition>, asked: Asked): real {
    Sum(Others(positions, asked.market), NotionalOf) + ValueAfter(positions, asked)
  }

  // The leverage after is everything else held and that market's new value, over
  // the equity; without equity there is no end to it.
  lemma LeverageIsSigned(facts: Facts, asked: Asked)
    requires SizesAreSizes(asked, facts.positions)
    ensures LeverageAfter(facts, asked).Infinite? <==> facts.equity <= 0.0
    ensures facts.equity > 0.0 ==>
      LeverageAfter(facts, asked).r * facts.equity == HeldAfter(facts.positions, asked)
  {
    hide SizesAreSizes, Exposure, HeldFor, After, At, Abs, ValueAfter, Others;
    AfterIsSigned(asked, facts.positions);
    OthersAreTheRest(facts.positions, asked.market);
    HeldForIsThere(asked, facts.positions);
    var total := Exposure(facts.positions) - Abs(HeldFor(asked, facts.positions)) + After(asked, facts.positions);
    if facts.equity > 0.0 {
      assert total / facts.equity * facts.equity == total;
    }
  }

  // ---- Counts and times -----------------------------------------------

  // Trades opened today.
  function OpenedToday(facts: Facts): set<nat> {
    set i: nat | i < |facts.entries| && DayOf(facts.entries[i].at) >= DayOf(facts.now)
  }

  function Late(entries: seq<Entry>, start: nat): set<nat> {
    set i: nat | i < |entries| && entries[i].at >= start
  }

  lemma {:induction false} EntriesAreCounted(entries: seq<Entry>, start: nat)
    ensures EntriesSince(entries, start) == |Late(entries, start)|
  {
    var all := Late(entries, start);
    if entries == [] {
      assert all == {};
    } else {
      var rest := entries[1..];
      var later := Late(rest, start);
      EntriesAreCounted(rest, start);
      ShiftKeepsSize(later);
      assert forall i: nat :: i in Shifted(later) <==> i >= 1 && i - 1 in later;
      assert Shifted(later) == all - {0};
      assert 0 in all <==> entries[0].at >= start;
    }
  }

  function Shifted(s: set<nat>): set<nat> { set i | i in s :: i + 1 }

  lemma {:induction false} ShiftKeepsSize(s: set<nat>)
    ensures |Shifted(s)| == |s|
    decreases s
  {
    if s == {} {
      assert Shifted(s) == {};
    } else {
      var x :| x in s;
      var less := s - {x};
      ShiftKeepsSize(less);
      assert forall i :: i in s <==> i in less || i == x;
      assert Shifted(s) == Shifted(less) + {x + 1};
      assert x + 1 !in Shifted(less);
    }
  }

  lemma TodayStarts(at: nat, now: nat)
    ensures at >= DayOf(now) * DAY_MS <==> DayOf(at) >= DayOf(now)
  {
  }

  lemma TradesAreCounted(facts: Facts)
    ensures EntriesSince(facts.entries, facts.DayStart()) == |OpenedToday(facts)|
  {
    EntriesAreCounted(facts.entries, facts.DayStart());
    forall i | 0 <= i < |facts.entries|
      ensures facts.entries[i].at >= facts.DayStart() <==> DayOf(facts.entries[i].at) >= DayOf(facts.now)
    {
      TodayStarts(facts.entries[i].at, facts.now);
    }
    assert OpenedToday(facts) == Late(facts.entries, facts.DayStart());
  }

  // A release closer than the blackout reaches, or a calendar that wasn't read.
  predicate NewsIsNear(rules: Rules, facts: Facts) {
    rules.news.on && (facts.news.None? ||
      exists i :: 0 <= i < |facts.news.value| && IsNear(rules, facts.now, facts.news.value[i]))
  }

  predicate IsNear(rules: Rules, now: nat, e: NewsEvent) {
    e.at as real - rules.news.minutes * 60000.0 <= now as real <= e.at as real + rules.news.minutes * 60000.0
  }

  lemma AwayIsNear(rules: Rules, now: nat, e: NewsEvent)
    ensures IsNear(rules, now, e)
            <==> AbsDiff(e.at, now) as real / MINUTE_MS as real <= rules.news.minutes
  {
    var away := AbsDiff(e.at, now) as real;
    assert away == away / 60000.0 * 60000.0;
  }

  lemma {:induction false} NearestIsNearest(events: seq<NewsEvent>, now: nat)
    ensures NearestAway(events, now).None? <==> events == []
    ensures NearestAway(events, now).Some? ==>
      && (exists i :: 0 <= i < |events| && AbsDiff(events[i].at, now) == NearestAway(events, now).value)
      && (forall i :: 0 <= i < |events| ==> NearestAway(events, now).value <= AbsDiff(events[i].at, now))
  {
    if events != [] {
      var rest := events[1..];
      NearestIsNearest(rest, now);
      assert forall i :: 0 < i < |events| ==> events[i] == rest[i - 1];
      if rest != [] {
        var j :| 0 <= j < |rest| && AbsDiff(rest[j].at, now) == NearestAway(rest, now).value;
        assert AbsDiff(events[j + 1].at, now) == NearestAway(rest, now).value;
      }
    }
  }

  lemma NewsRefusesNear(rules: Rules, facts: Facts)
    ensures NewsRefuses(rules, facts) <==> NewsIsNear(rules, facts)
  {
    hide IsNear, AbsDiff;
    if facts.news.Some? {
      var events := facts.news.value;
      NearestIsNearest(events, facts.now);
      forall i | 0 <= i < |events|
        ensures IsNear(rules, facts.now, events[i])
                <==> AbsDiff(events[i].at, facts.now) as real / MINUTE_MS as real <= rules.news.minutes
      {
        AwayIsNear(rules, facts.now, events[i]);
      }
      if NearestAway(events, facts.now).Some? {
        forall i | 0 <= i < |events|
          ensures NearestAway(events, facts.now).value as real / MINUTE_MS as real
                  <= AbsDiff(events[i].at, facts.now) as real / MINUTE_MS as real
        {
        }
      }
    }
  }

  // The last of the closed trades, as many as the rule counts, all lost: the pause is
  // from the last of them.
  ghost predicate Pauses(rules: Rules, facts: Facts) {
    facts.closed != [] && (exists k: nat :: AllLost(rules, facts.closed, k))
  }

  function PauseEnd(rules: Rules, facts: Facts): nat
    requires facts.closed != []
  {
    facts.closed[|facts.closed| - 1].at + AsU64(rules.coolOff.minutes * 60000.0)
  }

  ghost predicate IsCooling(rules: Rules, facts: Facts) {
    Pauses(rules, facts) && facts.now < PauseEnd(rules, facts)
  }

  // The pause ended earlier today.
  ghost predicate HasCooled(rules: Rules, facts: Facts) {
    Pauses(rules, facts) && PauseEnd(rules, facts) <= facts.now && DayOf(PauseEnd(rules, facts)) == DayOf(facts.now)
  }

  predicate AllLost(rules: Rules, closed: seq<Closed>, k: nat) {
    0 < k <= |closed| && k as real >= rules.coolOff.losses
    && forall i :: |closed| - k <= i < |closed| ==> closed[i].pnl < 0.0
  }

  lemma {:induction false} StreakIsLongest(closed: seq<Closed>)
    ensures LossStreak(closed) <= |closed|
    ensures forall i :: |closed| - LossStreak(closed) <= i < |closed| ==> closed[i].pnl < 0.0
    ensures LossStreak(closed) < |closed| ==> closed[|closed| - 1 - LossStreak(closed)].pnl >= 0.0
  {
    if closed != [] && closed[|closed| - 1].pnl < 0.0 {
      StreakIsLongest(closed[..|closed| - 1]);
    }
  }

  lemma CoolsOffExactly(rules: Rules, facts: Facts)
    requires rules.coolOff.losses >= 1.0
    ensures var ends := CoolOffEnds(rules, facts.closed);
            && ((ends.Some? && ends.value > facts.now) <==> IsCooling(rules, facts))
            && (ends.Some? <==> Pauses(rules, facts)) && (ends.Some? ==> ends.value == PauseEnd(rules, facts))
  {
    var closed, streak := facts.closed, LossStreak(facts.closed);
    StreakIsLongest(closed);
    if streak as real >= rules.coolOff.losses {
      assert AllLost(rules, closed, streak);
    }
    if exists k: nat :: AllLost(rules, closed, k) {
      var k: nat :| AllLost(rules, closed, k);
      assert k <= streak;
    }
  }

  // The newest close on the order's market lost, not long enough ago.
  predicate IsRevenge(rules: Rules, facts: Facts, asked: Asked) {
    rules.tilt.revenge.on && rules.tilt.revenge.mode == CoolOffAfter
    && exists i :: 0 <= i < |facts.closed| && LostLast(facts.closed, i, asked.market)
                   && TooSoon(rules, facts.now, facts.closed[i].at)
  }

  predicate LostLast(closed: seq<Closed>, i: nat, market: string)
    requires i < |closed|
  {
    closed[i].market == market && closed[i].pnl < 0.0
    && forall j :: i < j < |closed| ==> closed[j].market != market
  }

  predicate TooSoon(rules: Rules, now: nat, at: nat) {
    var pause := AsU64(rules.tilt.revenge.minutes * 60000.0);
    now < at + pause && pause > 0
  }

  lemma {:induction false} LastLossIsLast(closed: seq<Closed>, market: string)
    ensures LastLossOn(closed, market).Some? <==> exists i :: 0 <= i < |closed| && LostLast(closed, i, market)
    ensures forall i :: 0 <= i < |closed| && LostLast(closed, i, market)
              ==> LastLossOn(closed, market) == Some(closed[i].at)
  {
    if closed != [] {
      var n := |closed| - 1;
      var before := closed[..n];
      LastLossIsLast(before, market);
      if closed[n].market != market {
        forall i | 0 <= i < n ensures LostLast(closed, i, market) <==> LostLast(before, i, market) {
        }
        if exists i :: 0 <= i < |before| && LostLast(before, i, market) {
          var i :| 0 <= i < |before| && LostLast(before, i, market);
          assert LostLast(closed, i, market);
        }
      } else {
        assert LostLast(closed, n, market) <==> closed[n].pnl < 0.0;
      }
    }
  }

  lemma RevengeExactly(rules: Rules, facts: Facts, asked: Asked)
    ensures RevengeRefuses(rules, facts, asked) <==> IsRevenge(rules, facts, asked)
  {
    hide LostLast, LastLossOn;
    LastLossIsLast(facts.closed, asked.market);
    if IsRevenge(rules, facts, asked) {
      var i :| 0 <= i < |facts.closed| && LostLast(facts.closed, i, asked.market)
               && TooSoon(rules, facts.now, facts.closed[i].at);
      assert LastLossOn(facts.closed, asked.market) == Some(facts.closed[i].at);
    }
    if LastLossOn(facts.closed, asked.market).Some? {
      var i :| 0 <= i < |facts.closed| && LostLast(facts.closed, i, asked.market);
      assert LastLossOn(facts.closed, asked.market) == Some(facts.closed[i].at);
    }
  }

  // ---- Hours ----------------------------------------------------------

  // A session that begins `from` minutes into a day and runs until the clock next
  // shows `to`; from a time to itself it has no length.
  predicate Lasts(day: int, from: nat, to: nat, minute: nat) {
    day * 1440 + from <= minute < day * 1440 + from + (to - from) % 1440
  }

  // Inside a session that began on a day with trading: the first Saturday of 1970
  // was day two.
  ghost predicate InSession(rules: Rules, now: nat)
    requires Valid(rules)
  {
    exists day: int :: Lasts(day, Clock(rules.hours.from).value, Clock(rules.hours.to).value, now / MINUTE_MS)
                       && (rules.hours.days == EveryDay || (day % 7 != 2 && day % 7 != 3))
  }

  lemma MinutesOfDays(now: nat)
    ensures now / MINUTE_MS == DayOf(now) * 1440 + now / MINUTE_MS % 1440
  {
  }

  lemma CoversIsLasts(day: int, today: nat, from: nat, to: nat, m: nat)
    requires from < 1440 && to < 1440 && m < 1440
    ensures Lasts(day, from, to, today * 1440 + m)
            <==> Covers(from, to, m) && day == today - if from > to && m < to then 1 else 0
  {
  }

  lemma WeekendDays(day: int)
    ensures IsWeekday(day) <==> day % 7 != 2 && day % 7 != 3
  {
  }

  lemma ClocksRead(rules: Rules)
    requires Valid(rules)
    ensures Clock(rules.hours.from).Some? && Clock(rules.hours.to).Some?
  {
  }

  lemma OpenExactly(rules: Rules, now: nat)
    requires Valid(rules)
    ensures OpenAt(rules, now) <==> InSession(rules, now)
  {
    hide Valid, Lasts, Window, Clock, Covers, IsWeekday;
    ClocksRead(rules);
    var from, to := Clock(rules.hours.from).value, Clock(rules.hours.to).value;
    var m := now / MINUTE_MS % 1440;
    MinuteInWindow(rules, m);
    MinutesOfDays(now);
    forall day: int
      ensures Lasts(day, from, to, now / MINUTE_MS)
              <==> Covers(from, to, m) && day == DayOf(now) - if from > to && m < to then 1 else 0
    {
      CoversIsLasts(day, DayOf(now), from, to, m);
    }
    var began := DayOf(now) - if from > to && m < to then 1 else 0;
    assert Lasts(began, from, to, now / MINUTE_MS) <==> Covers(from, to, m);
    WeekendDays(began);
  }

  // ---- The answer -----------------------------------------------------

  // Everything held afterwards is more than the equity times the limit.
  predicate OverLeverage(rules: Rules, facts: Facts, asked: Asked) {
    facts.equity <= 0.0 || HeldAfter(facts.positions, asked) > rules.position.leverage * facts.equity
  }

  function RiskOf(asked: Asked, stop: real): real {
    asked.size * if stop < asked.price then asked.price - stop else stop - asked.price
  }

  // What may still be lost today: the limit less what has been.
  function StillToLose(rules: Rules, day: Day, equity: real): real {
    var start := if rules.challenge.dailyFrom == Balance then day.startBalance else day.startEquity;
    var limit := rules.challenge.size * rules.challenge.dailyPct / 100.0;
    if equity >= start then limit else if start - equity >= limit then 0.0 else limit - (start - equity)
  }

  // The rule an opening order is refused by, if any, after a look that left `q`:
  // the first of these in turn.
  ghost function Answer(rules: Rules, q: Progress, facts: Facts, asked: Asked): Option<RuleName>
    requires Valid(rules) && q.day.Some?
  {
    if q.failedAt.Some? then Some(LockedMaxDrawdown)
    else if q.dayLocked == Some(facts.Today()) then Some(LockedDailyLoss)
    else if !InSession(rules, facts.now) then Some(HoursRule)
    else if rules.news.on && facts.news.None? then Some(NewsUnchecked)
    else if NewsIsNear(rules, facts) then Some(NewsRule)
    else if IsCooling(rules, facts) then Some(CoolOffRule)
    else if IsRevenge(rules, facts, asked) then Some(RevengeRule)
    else if |OpenedToday(facts)| as real >= rules.tradesPerDay then Some(TradesPerDay)
    else if ValueAfter(facts.positions, asked) > rules.position.usd then Some(PositionSize)
    else if OverLeverage(rules, facts, asked) then Some(LeverageRule)
    else
      match asked.stop
      case None => if rules.tradeLoss.mode == NeedStop then Some(NeedsStop) else None
      case Some(stop) =>
        if RiskOf(asked, stop) > rules.challenge.size * rules.tradeLoss.pct / 100.0 then Some(TradeRiskRule)
        else if RiskOf(asked, stop) > StillToLose(rules, q.day.value, facts.equity) then Some(DailyLeft)
        else None
  }

  lemma {:induction false} FirstOfBoth(a: seq<Check>, b: seq<Check>)
    ensures FirstFailed(a + b) == if FirstFailed(a).Some? then FirstFailed(a) else FirstFailed(b)
  {
    if a == [] {
      assert a + b == b;
    } else {
      assert (a + b)[1..] == a[1..] + b;
      FirstOfBoth(a[1..], b);
    }
  }

  lemma FirstOfOne(c: Check)
    ensures FirstFailed([c]) == if c.ok then None else Some(c.rule)
  {
  }

  lemma FirstOfTwo(c: Check, d: Check)
    ensures FirstFailed([c, d]) == if !c.ok then Some(c.rule) else if !d.ok then Some(d.rule) else None
  {
    assert [c, d] == [c] + [d];
    FirstOfBoth([c], [d]);
  }

  lemma FirstOfThree(c: Check, d: Check, e: Check)
    ensures FirstFailed([c, d, e])
            == if !c.ok then Some(c.rule) else if !d.ok then Some(d.rule) else if !e.ok then Some(e.rule) else None
  {
    assert [c, d, e] == [c] + [d, e];
    FirstOfBoth([c], [d, e]);
    FirstOfTwo(d, e);
  }

  lemma LockAnswers(rules: Rules, q: Progress, facts: Facts)
    requires Valid(rules) && q.day.Some?
    ensures var status := StatusOf(rules, q, facts);
            && FirstFailed(LockChecks(status)) == (if q.failedAt.Some? then Some(LockedMaxDrawdown)
                 else if q.dayLocked == Some(facts.Today()) then Some(LockedDailyLoss) else None)
            && FirstFailed(HoursChecks(status)) == (if InSession(rules, facts.now) then None else Some(HoursRule))
  {
    hide Valid, OpenAt, InSession;
    OpenExactly(rules, facts.now);
  }

  lemma NewsAnswers(rules: Rules, facts: Facts)
    ensures FirstFailed(NewsChecks(rules, facts))
            == if rules.news.on && facts.news.None? then Some(NewsUnchecked)
               else if NewsIsNear(rules, facts) then Some(NewsRule) else None
  {
    hide NewsIsNear;
    NewsRefusesNear(rules, facts);
  }

  lemma PauseAnswers(rules: Rules, q: Progress, facts: Facts, asked: Asked)
    requires Valid(rules) && q.day.Some?
    ensures var status := StatusOf(rules, q, facts);
            && FirstFailed(CoolOffChecks(rules, status))
               == (if IsCooling(rules, facts) then Some(CoolOffRule) else None)
            && FirstFailed(RevengeChecks(rules, facts, asked))
               == (if IsRevenge(rules, facts, asked) then Some(RevengeRule) else None)
  {
    hide IsCooling, IsRevenge, LastLossOn, CoolOffEnds;
    assert rules.coolOff.losses >= 1.0;
    CoolsOffExactly(rules, facts);
    RevengeExactly(rules, facts, asked);
  }

  lemma OverExactly(total: real, equity: real, leverage: real)
    requires equity > 0.0
    ensures total / equity > leverage <==> total > leverage * equity
  {
    assert total == total / equity * equity;
  }

  lemma SameQuotient(total: real, equity: real, r: real)
    requires equity > 0.0 && r * equity == total
    ensures r == total / equity
  {
    assert total / equity * equity == total;
  }

  lemma LeverageAnswers(rules: Rules, facts: Facts, asked: Asked)
    requires SizesAreSizes(asked, facts.positions)
    ensures var leverage := LeverageAfter(facts, asked);
            leverage.Finite? && leverage.r <= rules.position.leverage <==> !OverLeverage(rules, facts, asked)
  {
    hide SizesAreSizes, LeverageAfter, HeldAfter;
    LeverageIsSigned(facts, asked);
    if facts.equity > 0.0 {
      var total := HeldAfter(facts.positions, asked);
      OverExactly(total, facts.equity, rules.position.leverage);
      SameQuotient(total, facts.equity, LeverageAfter(facts, asked).r);
    }
  }

  lemma SizeAnswers(rules: Rules, q: Progress, facts: Facts, asked: Asked)
    requires Valid(rules) && q.day.Some? && SizesAreSizes(asked, facts.positions)
    ensures FirstFailed(SizeChecks(rules, StatusOf(rules, q, facts), facts, asked))
            == if |OpenedToday(facts)| as real >= rules.tradesPerDay then Some(TradesPerDay)
               else if ValueAfter(facts.positions, asked) > rules.position.usd then Some(PositionSize)
               else if OverLeverage(rules, facts, asked) then Some(LeverageRule)
               else None
  {
    hide Valid, SizesAreSizes, After, LeverageAfter, FirstFailed, EntriesSince, OpenedToday, ValueAfter,
         OverLeverage, DailyUsed, LockOf, OpenAt;
    var status := StatusOf(rules, q, facts);
    TradesAreCounted(facts);
    AfterIsSigned(asked, facts.positions);
    LeverageAnswers(rules, facts, asked);
    var checks := SizeChecks(rules, status, facts, asked);
    assert checks == [checks[0], checks[1], checks[2]];
    FirstOfThree(checks[0], checks[1], checks[2]);
  }

  lemma StopAnswers(rules: Rules, q: Progress, facts: Facts, asked: Asked)
    requires Valid(rules) && q.day.Some?
    ensures FirstFailed(StopChecks(rules, StatusOf(rules, q, facts), asked))
            == match asked.stop
               case None => if rules.tradeLoss.mode == NeedStop then Some(NeedsStop) else None
               case Some(stop) =>
                 if RiskOf(asked, stop) > rules.challenge.size * rules.tradeLoss.pct / 100.0 then Some(TradeRiskRule)
                 else if RiskOf(asked, stop) > StillToLose(rules, q.day.value, facts.equity) then Some(DailyLeft)
                 else None
  {
    hide Valid, LeftToday, FirstFailed, StillToLose, RiskOf, StatusOf, Share, Abs;
    TradeRiskIs(rules);
    var status := StatusOf(rules, q, facts);
    var checks := StopChecks(rules, status, asked);
    LeftIsStillToLose(rules, q, facts);
    if asked.stop.Some? {
      RiskIsRisk(asked, asked.stop.value);
      FirstOfTwo(checks[0], checks[1]);
    } else {
      FirstOfOne(checks[0]);
    }
  }

  lemma TradeRiskIs(rules: Rules)
    ensures rules.TradeRisk() == rules.challenge.size * rules.tradeLoss.pct / 100.0
  {
  }

  lemma RiskIsRisk(asked: Asked, stop: real)
    ensures RiskOf(asked, stop) == Abs(asked.price - stop) * asked.size
  {
  }

  lemma LeftIsStillToLose(rules: Rules, q: Progress, facts: Facts)
    requires Valid(rules) && q.day.Some?
    ensures LeftToday(rules, StatusOf(rules, q, facts)) == StillToLose(rules, q.day.value, facts.equity)
  {
    hide Valid, LeftToday, Share, StatusOf;
    LeftIsLimitLessLoss(rules, q, facts);
    DailyIsPositive(rules);
    Looks.LimitsAre(rules);
  }

  // Every check in its turn: the rule a refusal names is the first that has
  // something against the order.
  lemma AnswersPlainly(rules: Rules, q: Progress, facts: Facts, asked: Asked)
    requires Valid(rules) && q.day.Some? && SizesAreSizes(asked, facts.positions)
    ensures FirstFailed(Checks(rules, StatusOf(rules, q, facts), facts, asked))
            == if asked.reduceOnly || TakesDown(asked, facts.positions) then None else Answer(rules, q, facts, asked)
  {
    hide Valid, StatusOf, Reduces, TakesDown, SizesAreSizes, InSession, NewsIsNear, IsCooling, IsRevenge, ValueAfter, OverLeverage,
         OpenedToday, Others, RiskOf, StillToLose, LockChecks, HoursChecks, NewsChecks, CoolOffChecks, RevengeChecks,
         SizeChecks, StopChecks, FirstFailed;
    ReducesIsTakesDown(asked, facts.positions);
    if !Reduces(asked, facts.positions) {
      var status := StatusOf(rules, q, facts);
      FirstOfSeven(LockChecks(status), HoursChecks(status), NewsChecks(rules, facts), CoolOffChecks(rules, status),
                   RevengeChecks(rules, facts, asked), SizeChecks(rules, status, facts, asked),
                   StopChecks(rules, status, asked));
      LockAnswers(rules, q, facts);
      NewsAnswers(rules, facts);
      PauseAnswers(rules, q, facts, asked);
      SizeAnswers(rules, q, facts, asked);
      StopAnswers(rules, q, facts, asked);
    } else {
      FirstOfNone();
    }
  }

  lemma FirstOfNone()
    ensures FirstFailed([]).None?
  {
  }

  lemma FirstOfSeven(a: seq<Check>, b: seq<Check>, c: seq<Check>, d: seq<Check>,
                     e: seq<Check>, f: seq<Check>, g: seq<Check>)
    ensures FirstFailed(a + b + c + d + e + f + g)
            == if FirstFailed(a).Some? then FirstFailed(a)
               else if FirstFailed(b).Some? then FirstFailed(b)
               else if FirstFailed(c).Some? then FirstFailed(c)
               else if FirstFailed(d).Some? then FirstFailed(d)
               else if FirstFailed(e).Some? then FirstFailed(e)
               else if FirstFailed(f).Some? then FirstFailed(f)
               else FirstFailed(g)
  {
    hide FirstFailed;
    FirstOfBoth(a, b);
    FirstOfBoth(a + b, c);
    FirstOfBoth(a + b + c, d);
    FirstOfBoth(a + b + c + d, e);
    FirstOfBoth(a + b + c + d + e, f);
    FirstOfBoth(a + b + c + d + e + f, g);
  }

  // What is answered to an order, whole: one marked reduce-only goes through, one
  // that can't be checked doesn't, and any other is refused only by rules that do
  // more than warn, if it takes no position down, and by the first of them.
  lemma DecidesPlainly(rules: Rules, p: Progress, reading: Option<Facts>, calendar: Option<seq<NewsEvent>>,
                       asked: Asked)
    requires Valid(rules)
    requires reading.Some? ==> SizesAreSizes(asked, reading.value.positions)
    ensures Decide(rules, p, reading, calendar, asked)
            == if asked.reduceOnly then Passed
               else if reading.None? then Blocked(Unchecked)
               else if rules.breach == Warn || TakesDown(asked, reading.value.positions) then Passed
               else
                 var facts := reading.value.(news := if rules.news.on then calendar else None);
                 match Answer(rules, Observed(rules, p, reading.value), facts, asked)
                 case None => Passed
                 case Some(rule) => Blocked(Broken(rule))
  {
    hide Valid, StatusOf, Checks, FirstFailed, TakesDown, SizesAreSizes, Answer, Observed;
    if reading.Some? && !asked.reduceOnly {
      var facts := ReadFor(rules, reading.value, calendar);
      ObservedIgnoresNews(rules, p, reading.value, calendar);
      SameSizes(asked, reading.value, facts);
      AnswersPlainly(rules, Observed(rules, p, facts), facts, asked);
    }
  }

  lemma SameSizes(asked: Asked, a: Facts, b: Facts)
    requires a.positions == b.positions
    ensures SizesAreSizes(asked, a.positions) <==> SizesAreSizes(asked, b.positions)
  {
  }

  // What is shown of the account: how far today is from where it began, how much of
  // the limit that is, and when a limit four fifths used is warned of.
  lemma StandsPlainly(rules: Rules, q: Progress, facts: Facts)
    requires Valid(rules) && q.day.Some?
    ensures var s := StatusOf(rules, q, facts);
            var start := if rules.challenge.dailyFrom == Balance then q.day.value.startBalance
                         else q.day.value.startEquity;
            var daily := rules.challenge.size * rules.challenge.dailyPct / 100.0;
            && s.equity == facts.equity && s.startedAt == q.startedAt
            && s.dayStart == start && s.dayPnl == facts.equity - start
            && s.dailyUsed * daily == (if facts.equity < start then start - facts.equity else 0.0)
            && (s.dailyWarned <==> rules.breach == WarnLock && start - facts.equity >= 0.8 * daily)
            && s.tradesToday == |OpenedToday(facts)|
            && (s.hoursOpen <==> InSession(rules, facts.now))
            && s.coolOffUntil == (if IsCooling(rules, facts) then Some(PauseEnd(rules, facts)) else None)
            && (s.coolOffServed <==> HasCooled(rules, facts))
            && s.lossStreak <= |facts.closed|
            && (forall i :: |facts.closed| - s.lossStreak <= i < |facts.closed| ==> facts.closed[i].pnl < 0.0)
            && (s.lossStreak < |facts.closed| ==> facts.closed[|facts.closed| - 1 - s.lossStreak].pnl >= 0.0)
  {
    hide OpenAt, InSession, OpenedToday, Pauses, PauseEnd, LossStreak, CoolOffEnds, Valid, Share;
    StreakIsLongest(facts.closed);
    if facts.closed != [] {
      TodayStarts(PauseEnd(rules, facts), facts.now);
    }
    CoolsOffIsValid(rules);
    OpenExactly(rules, facts.now);
    TradesAreCounted(facts);
    CoolsOffExactly(rules, facts);
    DailyIsPositive(rules);
    Looks.LimitsAre(rules);
    var start := DayStartOf(rules, q);
    UsedIsShare(Max(start - facts.equity, 0.0), rules.Daily());
  }

  // And the peak shown is where a fall is counted from: an equity is down by the
  // maximum exactly if it is that far under it.
  lemma PeakIsTheMark(rules: Rules, q: Progress, facts: Facts, equity: real)
    requires Valid(rules) && q.day.Some?
    requires q.peak >= rules.challenge.size && q.eodPeak >= rules.challenge.size
    ensures StatusOf(rules, q, facts).peak - equity >= rules.challenge.size * rules.challenge.maxPct / 100.0
            <==> Looks.Fell(rules, q, equity)
  {
    hide Valid, Share, DailyUsed, OpenAt;
    DailyIsPositive(rules);
    Looks.LimitsAre(rules);
  }

  lemma CoolsOffIsValid(rules: Rules)
    requires Valid(rules)
    ensures rules.coolOff.losses >= 1.0
  {
  }

  lemma UsedIsShare(loss: real, daily: real)
    requires daily > 0.0
    ensures loss / daily * daily == loss
    ensures loss / daily >= 0.8 <==> loss >= 0.8 * daily
  {
  }

  // ---- The figures ----------------------------------------------------

  // What an answer shows beside its yes or no: the figure it is about, and the limit
  // it is held to.
  ghost predicate Shows(c: Check, rules: Rules, q: Progress, facts: Facts, asked: Asked)
    requires q.day.Some?
  {
    match c.rule
    case NewsRule => c.limit == rules.news.minutes && (c.ok ==> !NewsIsNear(rules, facts))
    case NewsUnchecked => c.limit == rules.news.minutes && !c.ok
    case CoolOffRule => c.limit == rules.coolOff.losses && c.value == Finite(LossStreak(facts.closed) as real)
    case RevengeRule => c.limit == rules.tilt.revenge.minutes
    case TradesPerDay => IsUnder(c, |OpenedToday(facts)| as real, rules.tradesPerDay) && (c.ok ==> c.value.r != c.limit)
    case PositionSize => IsUnder(c, ValueAfter(facts.positions, asked), rules.position.usd)
    case LeverageRule =>
      c.limit == rules.position.leverage
      && (if facts.equity <= 0.0 then c.value == Infinite && !c.ok
          else c.value.Finite? && c.value.r * facts.equity == HeldAfter(facts.positions, asked)
               && (c.ok <==> c.value.r <= c.limit))
    case TradeRiskRule =>
      asked.stop.Some?
      && IsUnder(c, RiskOf(asked, asked.stop.value), rules.challenge.size * rules.tradeLoss.pct / 100.0)
    case DailyLeft =>
      asked.stop.Some?
      && IsUnder(c, RiskOf(asked, asked.stop.value), StillToLose(rules, q.day.value, facts.equity))
    case NeedsStop => asked.stop.None? && c.limit == rules.challenge.size * rules.tradeLoss.pct / 100.0
    case _ => c.limit == 0.0 && c.value == Finite(0.0)
  }

  // A figure and its limit, and an answer that is no if it is over.
  predicate IsUnder(c: Check, figure: real, limit: real) {
    c.value == Finite(figure) && c.limit == limit && (figure > limit ==> !c.ok) && (figure < limit ==> c.ok)
    && (figure == limit ==> (c.ok <==> c.rule != TradesPerDay))
  }

  lemma SizesShow(rules: Rules, q: Progress, facts: Facts, asked: Asked)
    requires Valid(rules) && q.day.Some? && SizesAreSizes(asked, facts.positions)
    ensures forall c :: c in SizeChecks(rules, StatusOf(rules, q, facts), facts, asked) ==>
              Shows(c, rules, q, facts, asked)
  {
    hide Valid, SizesAreSizes, After, LeverageAfter, EntriesSince, OpenedToday, ValueAfter, HeldAfter, DailyUsed,
         LockOf, OpenAt;
    TradesAreCounted(facts);
    AfterIsSigned(asked, facts.positions);
    LeverageIsSigned(facts, asked);
  }

  lemma StopsShow(rules: Rules, q: Progress, facts: Facts, asked: Asked)
    requires Valid(rules) && q.day.Some?
    ensures forall c :: c in StopChecks(rules, StatusOf(rules, q, facts), asked) ==>
              Shows(c, rules, q, facts, asked)
  {
    hide Valid, LeftToday, StillToLose, RiskOf, StatusOf, Share, Abs;
    TradeRiskIs(rules);
    LeftIsStillToLose(rules, q, facts);
    if asked.stop.Some? {
      RiskIsRisk(asked, asked.stop.value);
    }
  }

  lemma OthersShow(rules: Rules, q: Progress, facts: Facts, asked: Asked)
    requires Valid(rules) && q.day.Some?
    ensures var status := StatusOf(rules, q, facts);
            forall c :: c in LockChecks(status) + HoursChecks(status) + NewsChecks(rules, facts)
                             + CoolOffChecks(rules, status) + RevengeChecks(rules, facts, asked) ==>
              Shows(c, rules, q, facts, asked)
  {
    hide Valid, NewsIsNear, OpenAt, DailyUsed, LastLossOn, NearestAway;
    NewsRefusesNear(rules, facts);
  }

  // Every answer shows its own figure and limit.
  lemma ChecksShow(rules: Rules, q: Progress, facts: Facts, asked: Asked)
    requires Valid(rules) && q.day.Some? && SizesAreSizes(asked, facts.positions)
    ensures forall c :: c in Checks(rules, StatusOf(rules, q, facts), facts, asked) ==>
              Shows(c, rules, q, facts, asked)
  {
    hide Valid, StatusOf, SizesAreSizes, Shows, LockChecks, HoursChecks, NewsChecks, CoolOffChecks, RevengeChecks,
         SizeChecks, StopChecks, Reduces;
    SizesShow(rules, q, facts, asked);
    StopsShow(rules, q, facts, asked);
    OthersShow(rules, q, facts, asked);
  }
}
