// Where an account has got to against its rules: `observe`, and what a whole
// run of observations keeps.
module Progress {
  import opened Basics
  import opened Rules

  const CURVE_MAX := 400
  const WARN_AT := 0.8

  datatype Day = Day(index: nat, startBalance: real, startEquity: real)
  datatype Point = Point(at: nat, equity: real)

  datatype Progress = Progress(
    startedAt: nat, peak: real, eodPeak: real, day: Option<Day>, last: Option<Point>,
    curve: seq<Point>, dayLocked: Option<nat>, failedAt: Option<nat>)

  const EMPTY := Progress(0, 0.0, 0.0, None, None, [], None, None)

  // Where the fall that fails a challenge is counted from. It may rise with the
  // peak, but never so far that the floor under it passes the size.
  function DrawdownFrom(rules: Rules, p: Progress): real {
    var size := rules.challenge.size;
    var mark := match rules.challenge.maxKind
      case Static => size
      case Intraday => Min(p.peak, size + rules.MaxLoss())
      case Eod => Min(p.eodPeak, size + rules.MaxLoss());
    Max(mark, size)
  }

  // The equity at which the challenge is failed.
  function Floor(rules: Rules, p: Progress): real { DrawdownFrom(rules, p) - rules.MaxLoss() }

  predicate NewDay(p: Progress, today: nat) { p.day.None? || p.day.value.index != today }

  function KeptCurve(curve: seq<Point>): seq<Point> {
    if |curve| > CURVE_MAX then curve[|curve| - CURVE_MAX..] else curve
  }

  // A first look on a new day: yesterday's last point joins the curve, and the
  // day starts from it, or from the balance if the app didn't see yesterday.
  function Rolled(p: Progress, facts: Facts): Progress {
    var today := facts.Today();
    if !NewDay(p, today) then p
    else
      var balance := facts.equity - Unrealized(facts.positions)
                     - RealizedSince(facts.closed, facts.DayStart());
      var seen := p.last.Some? && DayOf(p.last.value.at) + 1 == today;
      var ended := p.last.Some? && DayOf(p.last.value.at) < today;
      p.(eodPeak := if ended then Max(p.eodPeak, p.last.value.equity) else p.eodPeak,
         curve := if ended then KeptCurve(p.curve + [p.last.value]) else p.curve,
         day := Some(Day(today, balance, if seen then p.last.value.equity else balance)))
  }

  // The progress after the day and the peaks, before any lock is decided.
  function Raised(rules: Rules, p: Progress, facts: Facts): Progress {
    var q := Rolled(p.(startedAt := if p.startedAt == 0 then facts.now else p.startedAt), facts);
    q.(peak := Max(Max(q.peak, facts.equity), rules.challenge.size),
       eodPeak := Max(q.eodPeak, rules.challenge.size),
       last := Some(Point(facts.now, facts.equity)))
  }

  function DayStartOf(rules: Rules, p: Progress): real
    requires p.day.Some?
  {
    match rules.challenge.dailyFrom
    case Balance => p.day.value.startBalance
    case Equity => p.day.value.startEquity
  }

  // What the day has lost so far, never below zero.
  function DayLoss(rules: Rules, p: Progress, equity: real): real
    requires p.day.Some?
  {
    Max(DayStartOf(rules, p) - equity, 0.0)
  }

  predicate DailyHit(rules: Rules, p: Progress, equity: real)
    requires p.day.Some?
  {
    rules.breach != Warn && DayLoss(rules, p, equity) >= rules.Daily()
  }

  predicate DrawdownHit(rules: Rules, p: Progress, equity: real) {
    rules.breach != Warn && equity <= Floor(rules, p)
  }

  // Each limit that is hit sets its lock; neither is ever taken away here.
  function Locked(rules: Rules, q: Progress, facts: Facts): (r: Progress)
    requires q.day.Some?
    ensures r.day == q.day
  {
    q.(dayLocked := if DailyHit(rules, q, facts.equity) then Some(facts.Today()) else q.dayLocked,
       failedAt := if DrawdownHit(rules, q, facts.equity) && q.failedAt.None?
                   then Some(facts.now) else q.failedAt)
  }

  function Observed(rules: Rules, p: Progress, facts: Facts): (r: Progress)
    ensures r.day.Some? && r.day.value.index == facts.Today()
  {
    Locked(rules, Raised(rules, p, facts), facts)
  }

  function LockOf(p: Progress, today: nat): Option<LockUntil> {
    if p.failedAt.Some? then Some(LockUntil(MaxDrawdown, None))
    else if p.dayLocked == Some(today) then Some(LockUntil(DailyLoss, Some((today + 1) * DAY_MS)))
    else None
  }

  // When the cool-off after a run of losses ends, if the run is long enough.
  function CoolOffEnds(rules: Rules, closed: seq<Closed>): Option<nat> {
    match LastLoss(closed)
    case None => None
    case Some(at) =>
      if LossStreak(closed) as real >= rules.coolOff.losses
      then Some(at + AsU64(rules.coolOff.minutes * MINUTE_MS as real))
      else None
  }

  lemma DailyIsPositive(rules: Rules)
    requires Valid(rules)
    ensures rules.Daily() > 0.0 && rules.MaxLoss() > 0.0
  {
  }

  function DailyUsed(rules: Rules, p: Progress, equity: real): real
    requires Valid(rules) && p.day.Some?
  {
    DailyIsPositive(rules);
    DayLoss(rules, p, equity) / rules.Daily()
  }

  // Where the account stands, read off the progress an observation left.
  function StatusOf(rules: Rules, p: Progress, facts: Facts): Status
    requires Valid(rules) && p.day.Some?
  {
    var ends := CoolOffEnds(rules, facts.closed);
    var used := DailyUsed(rules, p, facts.equity);
    Status(
      facts.equity, p.startedAt, DayStartOf(rules, p), DrawdownFrom(rules, p),
      facts.equity - DayStartOf(rules, p), EntriesSince(facts.entries, facts.DayStart()),
      LossStreak(facts.closed),
      if ends.Some? && ends.value > facts.now then ends else None,
      ends.Some? && ends.value <= facts.now && ends.value >= facts.DayStart(),
      LockOf(p, facts.Today()), used, rules.breach == WarnLock && used >= WARN_AT,
      OpenAt(rules, facts.now))
  }

  // The first half of `observe`, field by field: a new day, and the peaks.
  method BringUp(rules: Rules, before: Progress, facts: Facts) returns (progress: Progress)
    ensures progress == Raised(rules, before, facts)
  {
    var today := DayOf(facts.now);
    progress := before;
    if progress.startedAt == 0 {
      progress := progress.(startedAt := facts.now);
    }
    var realized := RealizedSince(facts.closed, facts.DayStart());
    if progress.day.None? || progress.day.value.index != today {
      var startBalance := facts.equity - Unrealized(facts.positions) - realized;
      var startEquity := startBalance;
      if progress.last.Some? && DayOf(progress.last.value.at) + 1 == today {
        startEquity := progress.last.value.equity;
      }
      if progress.last.Some? && DayOf(progress.last.value.at) < today {
        var last := progress.last.value;
        progress := progress.(eodPeak := Max(progress.eodPeak, last.equity));
        progress := progress.(curve := progress.curve + [last]);
        if |progress.curve| > CURVE_MAX {
          progress := progress.(curve := progress.curve[|progress.curve| - CURVE_MAX..]);
        }
      }
      progress := progress.(day := Some(Day(today, startBalance, startEquity)));
    }
    progress := progress.(peak := Max(Max(progress.peak, facts.equity), rules.challenge.size));
    progress := progress.(eodPeak := Max(progress.eodPeak, rules.challenge.size));
    progress := progress.(last := Some(Point(facts.now, facts.equity)));
  }

  // The second half: a limit reached locks, and what share of the day's limit
  // is used.
  method SetLocks(rules: Rules, raised: Progress, facts: Facts)
    returns (progress: Progress, dailyUsed: real)
    requires Valid(rules) && raised.day.Some?
    ensures progress == Locked(rules, raised, facts)
    ensures dailyUsed == DailyUsed(rules, progress, facts.equity)
    ensures rules.breach == Warn ==> progress == raised
    ensures rules.breach != Warn ==>
      progress.dayLocked == if dailyUsed >= 1.0 then Some(facts.Today()) else raised.dayLocked
    ensures rules.breach != Warn && raised.failedAt.None? ==>
      progress.failedAt == if facts.equity <= Floor(rules, raised) then Some(facts.now) else None
    ensures raised.failedAt.Some? ==> progress.failedAt == raised.failedAt
  {
    progress := raised;
    var dayPnl := facts.equity - DayStartOf(rules, progress);
    DailyIsPositive(rules);
    var loss := Max(-dayPnl, 0.0);
    assert loss == DayLoss(rules, progress, facts.equity);
    dailyUsed := loss / rules.Daily();
    var fall := Max(DrawdownFrom(rules, progress) - facts.equity, 0.0);
    UsedReachesOne(loss, rules.Daily());
    if rules.breach != Warn {
      if dailyUsed >= 1.0 {
        progress := progress.(dayLocked := Some(DayOf(facts.now)));
      }
      if fall >= rules.MaxLoss() && progress.failedAt.None? {
        progress := progress.(failedAt := Some(facts.now));
      }
    }
    assert dailyUsed == DailyUsed(rules, progress, facts.equity);
  }

  // `observe`, as one step: the progress after a look, and the standing read
  // off it.
  method Observe(rules: Rules, before: Progress, facts: Facts)
    returns (progress: Progress, status: Status)
    requires Valid(rules)
    ensures progress == Observed(rules, before, facts)
    ensures status == StatusOf(rules, progress, facts)
    ensures rules.breach != Warn && status.dailyUsed >= 1.0 ==> progress.dayLocked == Some(facts.Today())
    ensures rules.breach != Warn && facts.equity <= Floor(rules, progress) ==> progress.failedAt.Some?
    ensures rules.breach == Warn ==>
      progress.dayLocked == before.dayLocked && progress.failedAt == before.failedAt
  {
    progress := BringUp(rules, before, facts);
    var dailyUsed;
    progress, dailyUsed := SetLocks(rules, progress, facts);
    var dayStart := DayStartOf(rules, progress);
    var ends := CoolOffEnds(rules, facts.closed);
    var cooling := ends.Some? && ends.value > facts.now;
    status := Status(
      facts.equity, progress.startedAt, dayStart, DrawdownFrom(rules, progress),
      facts.equity - dayStart, EntriesSince(facts.entries, facts.DayStart()),
      LossStreak(facts.closed), if cooling then ends else None,
      ends.Some? && ends.value <= facts.now && ends.value >= facts.DayStart(),
      LockOf(progress, facts.Today()), dailyUsed,
      rules.breach == WarnLock && dailyUsed >= WARN_AT, OpenAt(rules, facts.now));
  }

  // The daily limit is used up exactly when the loss reaches it.
  lemma UsedReachesOne(loss: real, daily: real)
    requires daily > 0.0
    ensures loss / daily >= 1.0 <==> loss >= daily
  {
    assert loss == loss / daily * daily;
    if loss / daily >= 1.0 {
      assert loss / daily * daily >= 1.0 * daily;
    }
  }

  // ---- Runs of observations with the same rules -----------------------

  // The progress after each of `facts` in turn has been observed.
  function Run(rules: Rules, p: Progress, facts: seq<Facts>): Progress {
    if facts == [] then p
    else Observed(rules, Run(rules, p, facts[..|facts| - 1]), facts[|facts| - 1])
  }

  predicate InTimeOrder(facts: seq<Facts>) {
    forall i, j :: 0 <= i < j < |facts| ==> facts[i].now <= facts[j].now
  }

  predicate Ordered(curve: seq<Point>) {
    forall i, j :: 0 <= i < j < |curve| ==> DayOf(curve[i].at) < DayOf(curve[j].at)
  }

  // The curve has a point for each earlier day in order, none as late as the
  // last look, and never more than the cap.
  predicate CurveKept(p: Progress) {
    && |p.curve| <= CURVE_MAX
    && Ordered(p.curve)
    && (p.curve != [] ==> p.last.Some?)
    && (forall i :: 0 <= i < |p.curve| ==> DayOf(p.curve[i].at) < DayOf(p.last.value.at))
  }

  // What observing keeps: nothing is ever seen later than it happened.
  predicate Sound(p: Progress, now: nat) {
    && CurveKept(p)
    && (p.last.Some? ==> p.last.value.at <= now)
    && (p.last.Some? <==> p.day.Some?)
    && (p.last.Some? ==> DayOf(p.last.value.at) == p.day.value.index)
    && (p.dayLocked.Some? ==> p.dayLocked.value <= DayOf(now))
  }

  lemma SameDayOrder(a: nat, b: nat)
    requires a <= b
    ensures DayOf(a) <= DayOf(b)
  {
  }

  lemma CurveGrows(p: Progress)
    requires CurveKept(p) && p.last.Some?
    ensures var c := KeptCurve(p.curve + [p.last.value]);
            && |c| <= CURVE_MAX
            && Ordered(c)
            && (forall i :: 0 <= i < |c| ==> DayOf(c[i].at) <= DayOf(p.last.value.at))
  {
    var all := p.curve + [p.last.value];
    assert Ordered(all);
    var c := KeptCurve(all);
    var cut := |all| - |c|;
    assert forall i :: 0 <= i < |c| ==> c[i] == all[i + cut];
  }

  // Every look keeps the curve time-ordered and within its cap, never lowers a
  // peak or the floor, keeps the floor between the size less the maximum and
  // the size, and never lifts a failed challenge or today's lock.
  lemma ObserveKeeps(rules: Rules, p: Progress, facts: Facts)
    requires Valid(rules) && Sound(p, facts.now)
    ensures var q := Observed(rules, p, facts);
            && Sound(q, facts.now)
            && q.peak >= p.peak && q.eodPeak >= p.eodPeak
            && Floor(rules, q) >= Floor(rules, p)
            && rules.challenge.size - rules.MaxLoss() <= Floor(rules, q) <= rules.challenge.size
            && (p.failedAt.Some? ==> q.failedAt == p.failedAt)
            && (p.dayLocked == Some(facts.Today()) ==> q.dayLocked == p.dayLocked)
  {
    var q := Observed(rules, p, facts);
    DailyIsPositive(rules);
    if p.last.Some? {
      SameDayOrder(p.last.value.at, facts.now);
      if DayOf(p.last.value.at) < facts.Today() {
        CurveGrows(p);
        assert q.curve == KeptCurve(p.curve + [p.last.value]);
      } else {
        assert q.curve == p.curve;
      }
    } else {
      assert q.curve == p.curve == [];
    }
  }

  // A look after locks were set still finds them: a failed challenge for good,
  // a daily lock for as long as the day lasts.
  predicate StillLocked(p: Progress, q: Progress, today: nat) {
    && (p.failedAt.Some? ==>
          q.failedAt == p.failedAt && LockOf(q, today) == Some(LockUntil(MaxDrawdown, None)))
    && (p.dayLocked == Some(today) ==> q.dayLocked == p.dayLocked && LockOf(q, today).Some?)
  }

  // Over a run of looks in time order, from wherever the account stood: the
  // floor never falls and stays in its band, the curve stays ordered and
  // capped, and no lock is lifted.
  lemma {:induction false} RunsNeverUnlock(rules: Rules, p: Progress, facts: seq<Facts>)
    requires Valid(rules) && InTimeOrder(facts) && facts != []
    requires Sound(p, facts[0].now)
    ensures var q, last := Run(rules, p, facts), facts[|facts| - 1];
            && Sound(q, last.now)
            && Floor(rules, p) <= Floor(rules, q)
            && rules.challenge.size - rules.MaxLoss() <= Floor(rules, q) <= rules.challenge.size
            && StillLocked(p, q, last.Today())
  {
    hide Valid, Observed, DrawdownFrom, CurveKept;
    var n := |facts| - 1;
    var mid := Run(rules, p, facts[..n]);
    if n == 0 {
      assert mid == p;
    } else {
      RunsNeverUnlock(rules, p, facts[..n]);
      SameDayOrder(facts[0].now, facts[n - 1].now);
      SameDayOrder(facts[n - 1].now, facts[n].now);
    }
    ObserveKeeps(rules, mid, facts[n]);
  }

  // New rules start sound, whenever the first look is.
  lemma EmptyIsSound(now: nat)
    ensures Sound(EMPTY, now)
  {
  }
}
