// What a run of looks at an account leaves of it, said from the looks alone:
// the peaks, the days, the curve and the locks.
module Looks {
  import opened Basics
  import opened Ordering
  import opened Rules
  import opened Progress

  // ---- The looks ------------------------------------------------------

  // What was last seen before the look at `j`, if anything was.
  function Before(p: Progress, facts: seq<Facts>, j: nat): Option<Point>
    requires j < |facts|
  {
    if j == 0 then p.last else Some(Point(facts[j - 1].now, facts[j - 1].equity))
  }

  // That look is the first of its day, and the one before it, of an earlier day, was
  // the last of that.
  predicate EndsADay(p: Progress, facts: seq<Facts>, j: nat)
    requires j < |facts|
  {
    Before(p, facts, j).Some? && DayOf(Before(p, facts, j).value.at) < facts[j].Today()
  }

  predicate BeginsItsDay(p: Progress, facts: seq<Facts>, j: nat)
    requires j < |facts|
  {
    Before(p, facts, j).None? || EndsADay(p, facts, j)
  }

  predicate FromThere(p: Progress, facts: seq<Facts>) {
    facts != [] && InTimeOrder(facts) && Sound(p, facts[0].now)
  }

  lemma RunIsSound(rules: Rules, p: Progress, facts: seq<Facts>)
    requires Valid(rules) && FromThere(p, facts)
    ensures Sound(Run(rules, p, facts), facts[|facts| - 1].now)
  {
    RunsNeverUnlock(rules, p, facts);
  }

  // The run but for its last look, which that look is taken on.
  lemma LastLook(rules: Rules, p: Progress, facts: seq<Facts>)
    requires Valid(rules) && FromThere(p, facts)
    ensures var n := |facts| - 1;
            var r := Run(rules, p, facts[..n]);
            && Run(rules, p, facts) == Observed(rules, r, facts[n])
            && Sound(r, facts[n].now)
            && r.last == Before(p, facts, n)
            && (n > 0 ==> FromThere(p, facts[..n]))
  {
    hide Valid, CurveKept, Raised;
    var n := |facts| - 1;
    if n > 0 {
      RunIsSound(rules, p, facts[..n]);
      SameDayOrder(facts[n - 1].now, facts[n].now);
      LookIsLast(rules, Run(rules, p, facts[..n - 1]), facts[n - 1]);
      assert facts[..n][..n - 1] == facts[..n - 1];
    }
  }

  lemma LookIsLast(rules: Rules, p: Progress, facts: Facts)
    ensures Observed(rules, p, facts).last == Some(Point(facts.now, facts.equity))
    ensures Observed(rules, p, facts).startedAt == if p.startedAt > 0 then p.startedAt else facts.now
  {
  }

  // ---- Peaks ----------------------------------------------------------

  predicate IsHighest(v: real, of: set<real>) {
    v in of && forall other :: other in of ==> other <= v
  }

  function Equities(facts: seq<Facts>): set<real> { set j | 0 <= j < |facts| :: facts[j].equity }

  function DayEnds(p: Progress, facts: seq<Facts>): set<real> {
    set j: nat | j < |facts| && EndsADay(p, facts, j) :: Before(p, facts, j).value.equity
  }

  lemma OnePeak(rules: Rules, p: Progress, facts: Facts)
    requires Sound(p, facts.now)
    ensures var q := Observed(rules, p, facts);
            && IsHighest(q.peak, {p.peak, rules.challenge.size, facts.equity})
            && IsHighest(q.eodPeak, {p.eodPeak, rules.challenge.size}
                 + if p.last.Some? && DayOf(p.last.value.at) < facts.Today() then {p.last.value.equity} else {})
  {
    if p.last.Some? {
      SameDayOrder(p.last.value.at, facts.now);
    }
  }

  lemma HighestOfMore(v: real, of: set<real>, w: real, size: real, more: set<real>)
    requires IsHighest(v, of) && size in of
    requires IsHighest(w, {v, size} + more)
    ensures IsHighest(w, of + more)
  {
  }

  // The peak is the highest equity of all the looks, and the end-of-day peak the
  // highest that a day ended on; neither is under the size.
  lemma {:induction false} PeaksAreHighest(rules: Rules, p: Progress, facts: seq<Facts>)
    requires Valid(rules) && FromThere(p, facts)
    ensures var q, size := Run(rules, p, facts), rules.challenge.size;
            && IsHighest(q.peak, {p.peak, size} + Equities(facts))
            && IsHighest(q.eodPeak, {p.eodPeak, size} + DayEnds(p, facts))
  {
    hide Valid, Sound, Observed, IsHighest, DayEnds, Equities;
    var n := |facts| - 1;
    var before, size := facts[..n], rules.challenge.size;
    LastLook(rules, p, facts);
    var r, q := Run(rules, p, before), Run(rules, p, facts);
    OnePeak(rules, r, facts[n]);
    MoreEquities(facts);
    MoreEnds(p, facts);
    var ended := if EndsADay(p, facts, n) then {Before(p, facts, n).value.equity} else {};
    assert {r.peak, size, facts[n].equity} == {r.peak, size} + {facts[n].equity};
    if n > 0 {
      PeaksAreHighest(rules, p, before);
      HighestOfMore(r.peak, {p.peak, size} + Equities(before), q.peak, size, {facts[n].equity});
      HighestOfMore(r.eodPeak, {p.eodPeak, size} + DayEnds(p, before), q.eodPeak, size, ended);
    } else {
      assert before == [];
      NothingSeen(p);
      NoLook(rules, p);
      assert {p.peak, size} + Equities(before) == {p.peak, size};
      assert {p.eodPeak, size} + DayEnds(p, before) == {p.eodPeak, size};
    }
    assert {p.peak, size} + Equities(before) + {facts[n].equity} == {p.peak, size} + Equities(facts);
    assert {p.eodPeak, size} + DayEnds(p, before) + ended == {p.eodPeak, size} + DayEnds(p, facts);
  }

  lemma NothingSeen(p: Progress)
    ensures Equities([]) == {} && DayEnds(p, []) == {}
  {
  }

  lemma MoreEquities(facts: seq<Facts>)
    requires facts != []
    ensures Equities(facts) == Equities(facts[..|facts| - 1]) + {facts[|facts| - 1].equity}
  {
    assert forall j :: 0 <= j < |facts| - 1 ==> facts[..|facts| - 1][j] == facts[j];
  }

  lemma MoreEnds(p: Progress, facts: seq<Facts>)
    requires facts != []
    ensures var n := |facts| - 1;
            DayEnds(p, facts)
            == DayEnds(p, facts[..n]) + if EndsADay(p, facts, n) then {Before(p, facts, n).value.equity} else {}
  {
    var n := |facts| - 1;
    var before := facts[..n];
    assert forall j: nat :: j < n ==> Before(p, before, j) == Before(p, facts, j);
    assert forall j: nat :: j < n ==> (EndsADay(p, before, j) <==> EndsADay(p, facts, j));
  }

  // ---- The day --------------------------------------------------------

  function UnrealizedOf(p: HeldPosition): real { p.unrealized }

  // A trade's P&L, on the day it was closed or later.
  function PnlFrom(day: nat): Closed -> real { (c: Closed) => if DayOf(c.at) >= day then c.pnl else 0.0 }

  lemma {:induction false} UnrealizedIsSum(positions: seq<HeldPosition>)
    ensures Unrealized(positions) == Sum(positions, UnrealizedOf)
  {
    if positions != [] {
      UnrealizedIsSum(positions[1..]);
      SumOfAppend([positions[0]], positions[1..], UnrealizedOf);
      assert positions == [positions[0]] + positions[1..];
    }
  }

  lemma {:induction false} RealizedIsSum(closed: seq<Closed>, day: nat)
    ensures RealizedSince(closed, day * DAY_MS) == Sum(closed, PnlFrom(day))
  {
    if closed != [] {
      RealizedIsSum(closed[1..], day);
      SumOfAppend([closed[0]], closed[1..], PnlFrom(day));
      assert closed == [closed[0]] + closed[1..];
      OnTheDay(closed[0].at, day);
    }
  }

  lemma OnTheDay(at: nat, day: nat)
    ensures at >= day * DAY_MS <==> DayOf(at) >= day
  {
  }

  // The day a look began: its balance and what was won and lost since make the
  // equity, and its equity is what yesterday was last seen at, if it was.
  predicate DayBegun(day: Day, before: Option<Point>, facts: Facts) {
    && day.index == facts.Today()
    && day.startBalance + Sum(facts.closed, PnlFrom(facts.Today())) + Sum(facts.positions, UnrealizedOf)
       == facts.equity
    && day.startEquity == if before.Some? && DayOf(before.value.at) + 1 == facts.Today()
                          then before.value.equity else day.startBalance
  }

  lemma OneDay(rules: Rules, p: Progress, facts: Facts)
    requires Sound(p, facts.now)
    ensures var q := Observed(rules, p, facts);
            if p.last.Some? && DayOf(p.last.value.at) == facts.Today() then q.day == p.day
            else DayBegun(q.day.value, p.last, facts)
  {
    UnrealizedIsSum(facts.positions);
    RealizedIsSum(facts.closed, facts.Today());
  }

  // The last look that began its day, if the run has one.
  function DayFrom(p: Progress, facts: seq<Facts>): Option<nat>
    ensures DayFrom(p, facts).Some? ==>
      DayFrom(p, facts).value < |facts| && BeginsItsDay(p, facts, DayFrom(p, facts).value)
    ensures var from := if DayFrom(p, facts).Some? then DayFrom(p, facts).value + 1 else 0;
            forall j: nat :: from <= j < |facts| ==> !BeginsItsDay(p, facts, j)
  {
    if facts == [] then None
    else
      var n := |facts| - 1;
      assert forall j: nat :: j < n ==> Before(p, facts[..n], j) == Before(p, facts, j);
      assert forall j: nat :: j < n ==> (BeginsItsDay(p, facts[..n], j) <==> BeginsItsDay(p, facts, j));
      if BeginsItsDay(p, facts, n) then Some(n) else DayFrom(p, facts[..n])
  }

  // The day is as the last look to begin one found it.
  lemma {:induction false} DayIsAsBegun(rules: Rules, p: Progress, facts: seq<Facts>)
    requires Valid(rules) && FromThere(p, facts)
    ensures var q, j := Run(rules, p, facts), DayFrom(p, facts);
            && q.day.Some?
            && (j.None? ==> q.day == p.day)
            && (j.Some? ==> DayBegun(q.day.value, Before(p, facts, j.value), facts[j.value]))
            && q.day.value.index == facts[|facts| - 1].Today()
  {
    hide Valid, DayBegun, Raised, Locked;
    var n := |facts| - 1;
    var before := facts[..n];
    LastLook(rules, p, facts);
    OneDay(rules, Run(rules, p, before), facts[n]);
    if Before(p, facts, n).Some? {
      SameDayOrder(Before(p, facts, n).value.at, facts[n].now);
    }
    if n > 0 && !BeginsItsDay(p, facts, n) {
      DayIsAsBegun(rules, p, before);
      var j := DayFrom(p, before);
      assert j.Some? ==> Before(p, before, j.value) == Before(p, facts, j.value);
    }
  }

  // ---- The curve ------------------------------------------------------

  function EndPoint(p: Progress, facts: seq<Facts>, j: nat): seq<Point>
    requires j < |facts|
  {
    if EndsADay(p, facts, j) then [Before(p, facts, j).value] else []
  }

  // What each day that ended was last seen at, in turn.
  function EndPoints(p: Progress, facts: seq<Facts>): seq<Point> {
    if facts == [] then []
    else
      var n := |facts| - 1;
      EndPoints(p, facts[..n]) + EndPoint(p, facts, n)
  }

  predicate IsNewest(kept: seq<Point>, all: seq<Point>, most: nat) {
    && |kept| == (if |all| < most then |all| else most)
    && kept == all[|all| - |kept|..]
  }

  lemma NewestOfMore(kept: seq<Point>, all: seq<Point>, more: seq<Point>, next: seq<Point>, most: nat)
    requires IsNewest(kept, all, most) && IsNewest(next, kept + more, most)
    ensures IsNewest(next, all + more, most)
  {
    var k := |all| - |kept|;
    assert |next| <= |kept + more|;
    forall i | 0 <= i < |next| ensures next[i] == (all + more)[|all + more| - |next| + i] {
      var j := |kept + more| - |next| + i;
      assert next[i] == (kept + more)[j] == (all + more)[k + j];
    }
  }

  lemma OneCurve(rules: Rules, p: Progress, facts: Facts)
    requires Sound(p, facts.now)
    ensures IsNewest(Observed(rules, p, facts).curve,
                     p.curve + if p.last.Some? && DayOf(p.last.value.at) < facts.Today() then [p.last.value] else [],
                     400)
  {
    if p.last.Some? {
      SameDayOrder(p.last.value.at, facts.now);
    }
    var all := p.curve + if p.last.Some? && DayOf(p.last.value.at) < facts.Today() then [p.last.value] else [];
    var q := Observed(rules, p, facts);
    assert |all| > 400 ==> q.curve == all[|all| - 400..];
    assert |all| <= 400 ==> q.curve == all;
  }

  lemma LastCurve(rules: Rules, p: Progress, facts: seq<Facts>)
    requires Valid(rules) && FromThere(p, facts)
    ensures var n := |facts| - 1;
            IsNewest(Run(rules, p, facts).curve, Run(rules, p, facts[..n]).curve + EndPoint(p, facts, n), 400)
  {
    hide Valid, IsNewest, Observed, Sound;
    var n := |facts| - 1;
    LastLook(rules, p, facts);
    OneCurve(rules, Run(rules, p, facts[..n]), facts[n]);
  }

  // The curve is the last 400 of the points days ended on.
  lemma {:induction false} CurveIsNewest(rules: Rules, p: Progress, facts: seq<Facts>)
    requires Valid(rules) && FromThere(p, facts)
    ensures IsNewest(Run(rules, p, facts).curve, p.curve + EndPoints(p, facts), 400)
  {
    hide Valid, IsNewest, Run, Sound, EndPoint;
    var n := |facts| - 1;
    var before := facts[..n];
    LastCurve(rules, p, facts);
    if n > 0 {
      LastLook(rules, p, facts);
      CurveIsNewest(rules, p, before);
      NewestOfMore(Run(rules, p, before).curve, p.curve + EndPoints(p, before), EndPoint(p, facts, n),
                   Run(rules, p, facts).curve, 400);
      assert p.curve + EndPoints(p, before) + EndPoint(p, facts, n) == p.curve + EndPoints(p, facts);
    } else {
      assert before == [];
      NoLook(rules, p);
      assert EndPoints(p, facts) == EndPoint(p, facts, n);
    }
  }

  lemma NoLook(rules: Rules, p: Progress)
    ensures Run(rules, p, []) == p
  {
  }

  // ---- Locks ----------------------------------------------------------

  // The day's loss has reached its limit: from its balance or from its equity, as
  // the rules have it.
  predicate LostTheDay(rules: Rules, day: Day, equity: real) {
    var start := if rules.challenge.dailyFrom == Balance then day.startBalance else day.startEquity;
    start - equity >= rules.challenge.size * rules.challenge.dailyPct / 100.0
  }

  // The fall has reached its limit: from the size, or from a mark that trails it
  // until the floor is at the size.
  predicate FellFrom(rules: Rules, mark: real, equity: real) {
    equity <= rules.challenge.size && equity <= mark - rules.challenge.size * rules.challenge.maxPct / 100.0
  }

  predicate Fell(rules: Rules, q: Progress, equity: real) {
    match rules.challenge.maxKind
    case Static => FellFrom(rules, rules.challenge.size, equity)
    case Intraday => FellFrom(rules, q.peak, equity)
    case Eod => FellFrom(rules, q.eodPeak, equity)
  }

  // One look: today is locked exactly if it was or its loss is reached, and the
  // challenge failed exactly if it was or the fall is; the time is of the first
  // such look. Rules that only warn lock nothing.
  lemma LookLocks(rules: Rules, p: Progress, facts: Facts)
    requires Valid(rules)
    ensures var q := Observed(rules, p, facts);
            if rules.breach == Warn then q.dayLocked == p.dayLocked && q.failedAt == p.failedAt
            else
              && q.dayLocked == (if LostTheDay(rules, q.day.value, facts.equity) then Some(facts.Today())
                                 else p.dayLocked)
              && q.failedAt == (if p.failedAt.None? && Fell(rules, q, facts.equity) then Some(facts.now)
                                else p.failedAt)
  {
    hide Share, Valid, Raised;
    DailyIsPositive(rules);
    LimitsAre(rules);
    RaisedOnly(rules, p, facts);
  }

  // Bringing the day and the peaks up locks nothing, and leaves no peak under the
  // size.
  lemma RaisedOnly(rules: Rules, p: Progress, facts: Facts)
    ensures var q := Raised(rules, p, facts);
            && q.day.Some? && q.dayLocked == p.dayLocked && q.failedAt == p.failedAt
            && q.peak >= rules.challenge.size && q.eodPeak >= rules.challenge.size
  {
  }

  lemma LimitsAre(rules: Rules)
    ensures rules.MaxLoss() == rules.challenge.size * rules.challenge.maxPct / 100.0
    ensures rules.Daily() == rules.challenge.size * rules.challenge.dailyPct / 100.0
  {
  }

  // The look fell from something that had been seen by then, or from the size.
  ghost predicate FellBy(rules: Rules, p: Progress, facts: seq<Facts>, k: nat)
    requires k < |facts|
  {
    || FellFrom(rules, rules.challenge.size, facts[k].equity)
    || (rules.challenge.maxKind == Intraday && FellFrom(rules, p.peak, facts[k].equity))
    || (rules.challenge.maxKind == Intraday &&
        exists j: nat :: j <= k && FellFrom(rules, facts[j].equity, facts[k].equity))
    || (rules.challenge.maxKind == Eod && FellFrom(rules, p.eodPeak, facts[k].equity))
    || (rules.challenge.maxKind == Eod &&
        exists j: nat :: j <= k && EndsADay(p, facts, j)
                         && FellFrom(rules, Before(p, facts, j).value.equity, facts[k].equity))
  }

  lemma FellFromHighest(rules: Rules, marks: set<real>, highest: real, equity: real)
    requires IsHighest(highest, marks)
    ensures FellFrom(rules, highest, equity) <==> exists mark :: mark in marks && FellFrom(rules, mark, equity)
  {
  }

  lemma FellExactly(rules: Rules, p: Progress, facts: seq<Facts>)
    requires Valid(rules) && FromThere(p, facts)
    ensures var k := |facts| - 1;
            Fell(rules, Run(rules, p, facts), facts[k].equity) <==> FellBy(rules, p, facts, k)
  {
    hide Valid, FellFrom, Sound, InTimeOrder, Run, IsHighest;
    var k := |facts| - 1;
    var e, q, size := facts[k].equity, Run(rules, p, facts), rules.challenge.size;
    PeaksAreHighest(rules, p, facts);
    FellFromHighest(rules, {p.peak, size} + Equities(facts), q.peak, e);
    FellFromHighest(rules, {p.eodPeak, size} + DayEnds(p, facts), q.eodPeak, e);
    forall j: nat | j <= k ensures facts[j].equity in Equities(facts) {
    }
    forall j: nat | j <= k && EndsADay(p, facts, j) ensures Before(p, facts, j).value.equity in DayEnds(p, facts) {
    }
  }

  // The looks up to one of them tell whether that one fell.
  lemma FellBySoFar(rules: Rules, p: Progress, facts: seq<Facts>, n: nat, k: nat)
    requires k < n <= |facts|
    ensures FellBy(rules, p, facts[..n], k) <==> FellBy(rules, p, facts, k)
  {
    hide FellFrom;
    assert forall j: nat :: j < n ==> facts[..n][j] == facts[j];
    assert forall j: nat :: j < n ==> Before(p, facts[..n], j) == Before(p, facts, j);
    assert forall j: nat :: j < n ==> (EndsADay(p, facts[..n], j) <==> EndsADay(p, facts, j));
  }

  // The first look of a run to fall so far, if any did.
  ghost predicate FirstToFall(rules: Rules, p: Progress, facts: seq<Facts>, k: nat) {
    k < |facts| && FellBy(rules, p, facts, k) && forall j: nat :: j < k ==> !FellBy(rules, p, facts, j)
  }

  // Over any run: a challenge is failed exactly if it was at the start, or the
  // rules do more than warn and some look fell by the maximum from what had been
  // seen by then; it failed at the first such look, and for good.
  lemma {:induction false} FailsExactly(rules: Rules, p: Progress, facts: seq<Facts>)
    requires Valid(rules) && FromThere(p, facts)
    ensures var q := Run(rules, p, facts);
            && (p.failedAt.Some? || rules.breach == Warn ==> q.failedAt == p.failedAt)
            && (p.failedAt.None? && rules.breach != Warn ==>
                  && (q.failedAt.Some? <==> exists k: nat :: k < |facts| && FellBy(rules, p, facts, k))
                  && (forall k: nat :: FirstToFall(rules, p, facts, k) ==> q.failedAt == Some(facts[k].now)))
  {
    hide Valid, FellBy, Sound, Fell, LostTheDay, Observed;
    var n := |facts| - 1;
    var before := facts[..n];
    LastLook(rules, p, facts);
    LookLocks(rules, Run(rules, p, before), facts[n]);
    FellExactly(rules, p, facts);
    if n > 0 {
      FailsExactly(rules, p, before);
    }
    forall k: nat | k < n ensures FellBy(rules, p, before, k) <==> FellBy(rules, p, facts, k) {
      FellBySoFar(rules, p, facts, n, k);
    }
    forall k: nat | k < n ensures FirstToFall(rules, p, before, k) <==> FirstToFall(rules, p, facts, k) {
    }
    if exists k: nat :: k < n && FellBy(rules, p, before, k) {
      var k: nat :| k < n && FellBy(rules, p, before, k);
      FirstFalls(rules, p, before, k);
    }
  }

  lemma {:induction false} FirstFalls(rules: Rules, p: Progress, facts: seq<Facts>, k: nat)
    requires k < |facts| && FellBy(rules, p, facts, k)
    ensures exists j: nat :: FirstToFall(rules, p, facts, j)
  {
    hide FellBy;
    if exists i: nat :: i < k && FellBy(rules, p, facts, i) {
      var i: nat :| i < k && FellBy(rules, p, facts, i);
      FirstFalls(rules, p, facts, i);
    } else {
      assert FirstToFall(rules, p, facts, k);
    }
  }

  // And the day of the last look is locked exactly if it was at the start, or some
  // look of that day had lost the day's limit from where the day began.
  lemma {:induction false} LocksExactly(rules: Rules, p: Progress, facts: seq<Facts>)
    requires Valid(rules) && FromThere(p, facts)
    ensures var q, today := Run(rules, p, facts), facts[|facts| - 1].Today();
            q.day.Some? &&
            (q.dayLocked == Some(today)
             <==> || p.dayLocked == Some(today)
                  || (rules.breach != Warn && exists k: nat :: LostBy(rules, q.day.value, facts, k)))
  {
    hide Valid, Sound, LostTheDay, Fell, Observed, DayBegun;
    var n := |facts| - 1;
    var before := facts[..n];
    LastLook(rules, p, facts);
    var r, q := Run(rules, p, before), Run(rules, p, facts);
    LookLocks(rules, r, facts[n]);
    DayIsAsBegun(rules, p, facts);
    OneDay(rules, r, facts[n]);
    assert rules.breach != Warn && LostTheDay(rules, q.day.value, facts[n].equity)
           ==> LostBy(rules, q.day.value, facts, n);
    if n > 0 {
      SameDayOrder(facts[n - 1].now, facts[n].now);
      if facts[n - 1].Today() == facts[n].Today() {
        LocksExactly(rules, p, before);
        forall k: nat | k < n ensures LostBy(rules, q.day.value, before, k) <==> LostBy(rules, q.day.value, facts, k) {
        }
      } else {
        forall k: nat | k < n ensures facts[k].Today() < facts[n].Today() {
          SameDayOrder(facts[k].now, facts[n - 1].now);
        }
        NotLockedAhead(p, facts[0].now, facts[n].Today());
        EarlierLocks(rules, p, before, facts[n].Today());
      }
    }
  }

  lemma NotLockedAhead(p: Progress, now: nat, day: nat)
    requires Sound(p, now) && DayOf(now) < day
    ensures p.dayLocked != Some(day)
  {
  }

  predicate LostBy(rules: Rules, day: Day, facts: seq<Facts>, k: nat) {
    k < |facts| && facts[k].Today() == day.index && LostTheDay(rules, day, facts[k].equity)
  }

  // Looks of earlier days don't lock a day.
  lemma {:induction false} EarlierLocks(rules: Rules, p: Progress, facts: seq<Facts>, day: nat)
    requires Valid(rules) && p.dayLocked != Some(day)
    requires forall i :: 0 <= i < |facts| ==> facts[i].Today() < day
    ensures Run(rules, p, facts).dayLocked != Some(day)
  {
    hide Valid, Observed, LostTheDay, Fell;
    if facts != [] {
      var n := |facts| - 1;
      EarlierLocks(rules, p, facts[..n], day);
      LookLocks(rules, Run(rules, p, facts[..n]), facts[n]);
      assert facts[n].Today() < day;
    }
  }

  // What a lock says: a failed challenge has no end, a lost day ends at the next
  // midnight.
  lemma LockSays(p: Progress, today: nat)
    ensures LockOf(p, today).None? <==> p.failedAt.None? && p.dayLocked != Some(today)
    ensures LockOf(p, today).Some? ==>
              (LockOf(p, today).value.reason == MaxDrawdown <==> p.failedAt.Some?)
              && (LockOf(p, today).value.until.None? <==> p.failedAt.Some?)
    ensures forall until: nat :: LockOf(p, today) == Some(LockUntil(DailyLoss, Some(until))) ==>
              until % DAY_MS == 0 && DayOf(until) == today + 1
  {
  }
}
