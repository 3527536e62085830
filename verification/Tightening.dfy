// A change that isn't looser refuses everything the rules before it refused -
// except for one shape of trading hours, which is found here exactly.
module Tightening {
  import opened Basics
  import opened Text
  import opened Rules
  import opened Progress

  // ---- "Not looser" is a preorder -------------------------------------

  lemma NotLooserThanItself(r: Rules)
    ensures !LooserThan(r, r)
  {
  }

  lemma NotLooserChains(a: Rules, b: Rules, c: Rules)
    requires !LooserThan(a, b) && !LooserThan(b, c)
    ensures !LooserThan(a, c)
  {
    assert Window(a.hours) <= Window(b.hours) <= Window(c.hours);
  }

  // ---- Hours ----------------------------------------------------------

  ghost predicate NarrowerHours(next: Rules, was: Rules) {
    forall now: nat :: OpenAt(next, now) ==> OpenAt(was, now)
  }

  // The part of an over-midnight window that belongs to the day before, taken
  // up by a window of its own that belongs to the day itself.
  predicate TakesTheSmallHours(next: Rules, was: Rules) {
    match (Clock(next.hours.from), Clock(next.hours.to), Clock(was.hours.from), Clock(was.hours.to))
    case (Some(nf), Some(nt), Some(wf), Some(wt)) =>
      was.hours.days == Weekdays && next.hours.days == Weekdays
      && wf > wt && nf < nt && nf < wt
    case _ => false
  }

  lemma MinuteInWindow(rules: Rules, m: nat)
    requires Valid(rules) && m < 1440
    ensures m in Window(rules.hours)
            <==> Covers(Clock(rules.hours.from).value, Clock(rules.hours.to).value, m)
  {
  }

  // A subset of the minutes, minute by minute.
  lemma NarrowerMinute(next: Rules, was: Rules, m: nat)
    requires Valid(next) && Valid(was) && !LooserThan(next, was) && m < 1440
    ensures Covers(Clock(next.hours.from).value, Clock(next.hours.to).value, m)
            ==> Covers(Clock(was.hours.from).value, Clock(was.hours.to).value, m)
  {
    MinuteInWindow(next, m);
    MinuteInWindow(was, m);
    assert Window(next.hours) <= Window(was.hours);
  }

  // The four clock readings decide it: where one window lies in the other, the
  // parts after midnight agree unless the small hours were taken.
  lemma SmallHoursAgree(nf: nat, nt: nat, wf: nat, wt: nat, m: nat)
    requires nf < 1440 && nt < 1440 && wf < 1440 && wt < 1440 && m < 1440
    requires Covers(nf, nt, m) && Covers(wf, wt, m)
    requires Covers(nf, nt, 1439) ==> Covers(wf, wt, 1439)
    requires Covers(nf, nt, nf) ==> Covers(wf, wt, nf)
    requires nt > 0 && Covers(nf, nt, nt - 1) ==> Covers(wf, wt, nt - 1)
    requires Covers(nf, nt, wt) ==> Covers(wf, wt, wt)
    requires !(wf > wt && nf < nt && nf < wt)
    ensures (wf > wt && m < wt) == (nf > nt && m < nt)
  {
  }

  lemma OpenNarrows(next: Rules, was: Rules, now: nat)
    requires Valid(next) && Valid(was) && !LooserThan(next, was)
    requires !TakesTheSmallHours(next, was)
    requires OpenAt(next, now)
    ensures OpenAt(was, now)
  {
    var m := now / MINUTE_MS % 1440;
    var nf, nt := Clock(next.hours.from).value, Clock(next.hours.to).value;
    var wf, wt := Clock(was.hours.from).value, Clock(was.hours.to).value;
    MinuteInWindow(next, m);
    NarrowerMinute(next, was, m);
    MinuteInWindow(was, m);
    if was.hours.days == Weekdays {
      NarrowerMinute(next, was, 1439);
      NarrowerMinute(next, was, nf);
      NarrowerMinute(next, was, wt);
      if nt > 0 { NarrowerMinute(next, was, nt - 1); }
      SmallHoursAgree(nf, nt, wf, wt, m);
    }
  }

  // Monday 5 January 1970, at `minute`.
  function MondayAt(minute: nat): nat { 4 * DAY_MS + minute * MINUTE_MS }

  lemma MondayIsMonday(minute: nat)
    requires minute < 1440
    ensures DayOf(MondayAt(minute)) == 4 && MondayAt(minute) / MINUTE_MS % 1440 == minute
  {
    assert MondayAt(minute) / MINUTE_MS == 4 * 1440 + minute;
  }

  // On a Monday in the small hours the old window still counts as Sunday's.
  lemma SmallHoursOpen(next: Rules, was: Rules, minute: nat)
    requires Valid(next) && Valid(was) && !LooserThan(next, was)
    requires TakesTheSmallHours(next, was)
    requires Clock(next.hours.from).value <= minute < Clock(next.hours.to).value
    requires minute < Clock(was.hours.from).value && minute < Clock(was.hours.to).value
    ensures OpenAt(next, MondayAt(minute)) && !OpenAt(was, MondayAt(minute))
  {
    MondayIsMonday(minute);
    MinuteInWindow(next, minute);
  }

  // Of a change that isn't looser: its hours are narrower at every instant
  // exactly when it doesn't take the small hours.
  lemma HoursNarrowExactly(next: Rules, was: Rules)
    requires Valid(next) && Valid(was) && !LooserThan(next, was)
    ensures NarrowerHours(next, was) <==> !TakesTheSmallHours(next, was)
  {
    if TakesTheSmallHours(next, was) {
      SmallHoursOpen(next, was, Clock(next.hours.from).value);
    } else {
      forall now: nat | OpenAt(next, now) ensures OpenAt(was, now) {
        OpenNarrows(next, was, now);
      }
    }
  }

  // ---- Refusing an order ----------------------------------------------

  // The facts an order is checked on: the calendar is read only for rules
  // with the news blackout on.
  function ReadFor(rules: Rules, base: Facts, calendar: Option<seq<NewsEvent>>): Facts {
    base.(news := if rules.news.on then calendar else None)
  }

  datatype Reason = Unchecked | Broken(rule: RuleName)
  datatype Decision = Passed | Blocked(why: Reason)

  // `guard_order`, for rules in force: an order that reduces always passes, one
  // that can't be checked is refused (in `Warn` mode too), and otherwise the
  // first rule that says no refuses it, unless the rules only warn.
  function Decide(rules: Rules, p: Progress, reading: Option<Facts>,
                  calendar: Option<seq<NewsEvent>>, asked: Asked): Decision
    requires Valid(rules)
  {
    if asked.reduceOnly then Passed
    else
      match reading
      case None => Blocked(Unchecked)
      case Some(base) =>
        var facts := ReadFor(rules, base, calendar);
        var status := StatusOf(rules, Observed(rules, p, facts), facts);
        if rules.breach == Warn then Passed
        else
          match FirstFailed(Checks(rules, status, facts, asked))
          case None => Passed
          case Some(rule) => Blocked(Broken(rule))
  }

  predicate NewsRefuses(rules: Rules, facts: Facts) {
    rules.news.on &&
    match facts.news
    case None => true
    case Some(events) =>
      match NearestAway(events, facts.now)
      case None => false
      case Some(ms) => ms as real / MINUTE_MS as real <= rules.news.minutes
  }

  predicate RevengeRefuses(rules: Rules, facts: Facts, asked: Asked) {
    var at := LastLossOn(facts.closed, asked.market);
    rules.tilt.revenge.on && rules.tilt.revenge.mode == CoolOffAfter && at.Some? &&
    (if facts.now < at.value then 0 else facts.now - at.value)
      < AsU64(rules.tilt.revenge.minutes * MINUTE_MS as real)
  }

  predicate SizeRefuses(rules: Rules, status: Status, facts: Facts, asked: Asked) {
    var leverage := LeverageAfter(facts, asked);
    || status.tradesToday as real >= rules.tradesPerDay
    || After(asked, facts.positions) > rules.position.usd
    || leverage.Infinite? || leverage.r > rules.position.leverage
  }

  predicate RiskRefuses(rules: Rules, status: Status, asked: Asked) {
    match asked.stop
    case None => rules.tradeLoss.mode == NeedStop
    case Some(stop) =>
      var risk := Abs(asked.price - stop) * asked.size;
      risk > rules.TradeRisk() || risk > LeftToday(rules, status)
  }

  // Why an opening order is refused, said once and without the list.
  predicate Refusing(rules: Rules, status: Status, facts: Facts, asked: Asked) {
    && !Reduces(asked, facts.positions)
    && (|| status.lock.Some?
        || !status.hoursOpen
        || NewsRefuses(rules, facts)
        || status.coolOffUntil.Some?
        || RevengeRefuses(rules, facts, asked)
        || SizeRefuses(rules, status, facts, asked)
        || RiskRefuses(rules, status, asked))
  }

  predicate AllOk(checks: seq<Check>) { forall c :: c in checks ==> c.ok }

  lemma AllOkSplits(a: seq<Check>, b: seq<Check>)
    ensures AllOk(a + b) <==> AllOk(a) && AllOk(b)
  {
    assert forall c :: c in a + b <==> c in a || c in b;
  }

  lemma GroupsFailExactly(rules: Rules, status: Status, facts: Facts, asked: Asked)
    ensures AllOk(LockChecks(status)) <==> status.lock.None?
    ensures AllOk(HoursChecks(status)) <==> status.hoursOpen
    ensures AllOk(NewsChecks(rules, facts)) <==> !NewsRefuses(rules, facts)
    ensures AllOk(CoolOffChecks(rules, status)) <==> status.coolOffUntil.None?
    ensures AllOk(RevengeChecks(rules, facts, asked)) <==> !RevengeRefuses(rules, facts, asked)
  {
    var lock, news := LockChecks(status), NewsChecks(rules, facts);
    var revenge := RevengeChecks(rules, facts, asked);
    assert lock != [] ==> (AllOk(lock) <==> lock[0].ok);
    assert AllOk(HoursChecks(status)) <==> HoursChecks(status)[0].ok;
    assert news != [] ==> (AllOk(news) <==> news[0].ok);
    assert AllOk(CoolOffChecks(rules, status)) <==> CoolOffChecks(rules, status)[0].ok;
    assert revenge != [] ==> (AllOk(revenge) <==> revenge[0].ok);
  }

  lemma LimitsFailExactly(rules: Rules, status: Status, facts: Facts, asked: Asked)
    ensures AllOk(SizeChecks(rules, status, facts, asked)) <==> !SizeRefuses(rules, status, facts, asked)
    ensures AllOk(StopChecks(rules, status, asked)) <==> !RiskRefuses(rules, status, asked)
  {
    var limits, stop := SizeChecks(rules, status, facts, asked), StopChecks(rules, status, asked);
    assert AllOk(limits) <==> limits[0].ok && limits[1].ok && limits[2].ok;
    assert AllOk(stop) <==> stop[0].ok && (|stop| == 2 ==> stop[1].ok);
  }

  lemma AllOkGroups(a: seq<Check>, b: seq<Check>, c: seq<Check>, d: seq<Check>,
                    e: seq<Check>, f: seq<Check>, g: seq<Check>)
    ensures AllOk(a + b + c + d + e + f + g)
            <==> AllOk(a) && AllOk(b) && AllOk(c) && AllOk(d) && AllOk(e) && AllOk(f) && AllOk(g)
  {
    AllOkSplits(a, b);
    AllOkSplits(a + b, c);
    AllOkSplits(a + b + c, d);
    AllOkSplits(a + b + c + d, e);
    AllOkSplits(a + b + c + d + e, f);
    AllOkSplits(a + b + c + d + e + f, g);
  }

  // The list of checks has a failure exactly when a rule refuses.
  lemma ChecksFailExactly(rules: Rules, status: Status, facts: Facts, asked: Asked)
    ensures FirstFailed(Checks(rules, status, facts, asked)).Some?
            <==> Refusing(rules, status, facts, asked)
  {
    var checks := Checks(rules, status, facts, asked);
    assert FirstFailed(checks).None? <==> AllOk(checks);
    AllOkGroups(LockChecks(status), HoursChecks(status), NewsChecks(rules, facts),
                CoolOffChecks(rules, status), RevengeChecks(rules, facts, asked),
                SizeChecks(rules, status, facts, asked), StopChecks(rules, status, asked));
    GroupsFailExactly(rules, status, facts, asked);
    LimitsFailExactly(rules, status, facts, asked);
  }

  // ---- The same account under two sets of rules -----------------------

  // Two runs of the same looks differ only in their locks, and wherever the
  // looser rules are locked the tighter ones are.
  ghost predicate LockedAtLeast(n: Progress, w: Progress, day: nat) {
    && n.(dayLocked := None, failedAt := None) == w.(dayLocked := None, failedAt := None)
    && (w.failedAt.Some? ==> n.failedAt.Some?)
    && (w.dayLocked.Some? ==> n.dayLocked.Some? && w.dayLocked.value <= n.dayLocked.value)
    && (n.dayLocked.Some? ==> n.dayLocked.value <= day)
  }

  lemma SmallerShare(size: real, a: real, b: real)
    requires size >= 0.0 && a <= b
    ensures Share(size, a) <= Share(size, b)
  {
  }

  lemma NotLooserPercents(next: Rules, was: Rules)
    requires !LooserThan(next, was)
    ensures next.challenge.size == was.challenge.size
    ensures next.challenge.dailyPct <= was.challenge.dailyPct
    ensures next.challenge.maxPct <= was.challenge.maxPct
    ensures next.tradeLoss.pct <= was.tradeLoss.pct
  {
  }

  lemma LimitsShrink(next: Rules, was: Rules)
    requires Valid(next) && Valid(was) && !LooserThan(next, was)
    ensures next.Daily() <= was.Daily() && next.MaxLoss() <= was.MaxLoss()
    ensures next.TradeRisk() <= was.TradeRisk()
  {
    NotLooserPercents(next, was);
    var size := was.challenge.size;
    assert size >= 0.0;
    SmallerShare(size, next.challenge.dailyPct, was.challenge.dailyPct);
    SmallerShare(size, next.challenge.maxPct, was.challenge.maxPct);
    SmallerShare(size, next.tradeLoss.pct, was.tradeLoss.pct);
  }

  // A smaller maximum never puts the floor lower, trailing or not.
  lemma FloorRises(next: Rules, was: Rules, p: Progress)
    requires Valid(next) && Valid(was) && !LooserThan(next, was)
    ensures Floor(next, p) >= Floor(was, p)
  {
    LimitsShrink(next, was);
  }

  lemma SameBeforeLocks(next: Rules, was: Rules, n: Progress, w: Progress, facts: Facts)
    requires !LooserThan(next, was)
    requires n.(dayLocked := None, failedAt := None) == w.(dayLocked := None, failedAt := None)
    ensures var a, b := Raised(next, n, facts), Raised(was, w, facts);
            && a.(dayLocked := None, failedAt := None) == b.(dayLocked := None, failedAt := None)
            && a.day.Some? && a.dayLocked == n.dayLocked && a.failedAt == n.failedAt
            && b.dayLocked == w.dayLocked && b.failedAt == w.failedAt
  {
  }

  // What that leaves of one day, whatever locks other days have seen: all an
  // order asked about on that day can tell of the two.
  ghost predicate LockedOn(n: Progress, w: Progress, day: nat) {
    && n.(dayLocked := None, failedAt := None) == w.(dayLocked := None, failedAt := None)
    && (w.failedAt.Some? ==> n.failedAt.Some?)
    && (w.dayLocked == Some(day) ==> n.failedAt.Some? || n.dayLocked == Some(day))
  }

  lemma LockedOnLater(n: Progress, w: Progress, day: nat, later: nat)
    requires LockedAtLeast(n, w, day) && day <= later
    ensures LockedOn(n, w, later)
  {
  }

  // One look: the tighter rules lock whenever the looser ones do, over a run
  // and on the day of the look alone.
  lemma LocksFollow(next: Rules, was: Rules, n: Progress, w: Progress, facts: Facts)
    requires Valid(next) && Valid(was) && !LooserThan(next, was)
    ensures LockedAtLeast(n, w, facts.Today())
            ==> LockedAtLeast(Observed(next, n, facts), Observed(was, w, facts), facts.Today())
    ensures LockedOn(n, w, facts.Today())
            ==> LockedOn(Observed(next, n, facts), Observed(was, w, facts), facts.Today())
  {
    hide Valid, LooserThan, Raised, Floor, DrawdownFrom;
    if LockedAtLeast(n, w, facts.Today()) || LockedOn(n, w, facts.Today()) {
      SameBeforeLocks(next, was, n, w, facts);
      LimitsReached(next, was, Raised(next, n, facts), Raised(was, w, facts), facts);
    }
  }

  // Reached under the looser rules, a limit is reached under the tighter ones.
  lemma LimitsReached(next: Rules, was: Rules, a: Progress, b: Progress, facts: Facts)
    requires Valid(next) && Valid(was) && !LooserThan(next, was)
    requires a.day.Some? && a.(dayLocked := None, failedAt := None) == b.(dayLocked := None, failedAt := None)
    ensures b.day.Some?
    ensures DailyHit(was, b, facts.equity) ==> DailyHit(next, a, facts.equity)
    ensures DrawdownHit(was, b, facts.equity) ==> DrawdownHit(next, a, facts.equity)
    ensures next.breach == Warn ==> was.breach == Warn
  {
    LimitsShrink(next, was);
    FloorRises(next, was, a);
    assert Floor(was, a) == Floor(was, b);
    assert DayLoss(next, a, facts.equity) == DayLoss(was, b, facts.equity);
  }

  // What is left of the day's limit, said without a division.
  lemma LeftIsLimitLessLoss(rules: Rules, p: Progress, facts: Facts)
    requires Valid(rules) && p.day.Some?
    ensures LeftToday(rules, StatusOf(rules, p, facts))
            == Max(rules.Daily() - DayLoss(rules, p, facts.equity), 0.0)
  {
    hide Valid;
    DailyIsPositive(rules);
    LimitLess(rules.Daily(), DayLoss(rules, p, facts.equity));
  }

  lemma LimitLess(limit: real, loss: real)
    requires limit > 0.0
    ensures limit * (1.0 - loss / limit) == limit - loss
  {
  }

  lemma LongerPause(a: real, b: real)
    requires a <= b
    ensures AsU64(a * MINUTE_MS as real) <= AsU64(b * MINUTE_MS as real)
  {
  }

  // ---- Rule by rule ---------------------------------------------------

  lemma LockFollows(n: Progress, w: Progress, today: nat)
    requires LockedOn(n, w, today)
    ensures LockOf(w, today).Some? ==> LockOf(n, today).Some?
  {
  }

  lemma NewsFollows(next: Rules, was: Rules, base: Facts, calendar: Option<seq<NewsEvent>>)
    requires !LooserThan(next, was)
    ensures NewsRefuses(was, ReadFor(was, base, calendar))
            ==> NewsRefuses(next, ReadFor(next, base, calendar))
  {
  }

  lemma CoolOffFollows(next: Rules, was: Rules, closed: seq<Closed>, now: nat)
    requires !LooserThan(next, was)
    ensures var w, n := CoolOffEnds(was, closed), CoolOffEnds(next, closed);
            w.Some? && w.value > now ==> n.Some? && n.value > now
  {
    LongerPause(was.coolOff.minutes, next.coolOff.minutes);
  }

  lemma RevengeFollows(next: Rules, was: Rules, a: Facts, b: Facts, asked: Asked)
    requires !LooserThan(next, was)
    requires a.closed == b.closed && a.now == b.now
    ensures RevengeRefuses(was, a, asked) ==> RevengeRefuses(next, b, asked)
  {
    if was.tilt.revenge.on {
      LongerPause(was.tilt.revenge.minutes, next.tilt.revenge.minutes);
    }
  }

  lemma RiskFollows(next: Rules, was: Rules, n: Progress, w: Progress, a: Facts, b: Facts, asked: Asked)
    requires Valid(next) && Valid(was) && !LooserThan(next, was)
    requires n.day.Some? && n.day == w.day && a.equity == b.equity
    ensures RiskRefuses(was, StatusOf(was, w, a), asked)
            ==> RiskRefuses(next, StatusOf(next, n, b), asked)
  {
    LimitsShrink(next, was);
    LeftIsLimitLessLoss(was, w, a);
    LeftIsLimitLessLoss(next, n, b);
    var l := DayLoss(was, w, a.equity);
    assert DayLoss(next, n, b.equity) == l;
    assert LeftToday(next, StatusOf(next, n, b)) <= LeftToday(was, StatusOf(was, w, a));
  }

  lemma SizeFollows(next: Rules, was: Rules, s: Status, t: Status, a: Facts, b: Facts, asked: Asked)
    requires !LooserThan(next, was)
    requires s.tradesToday == t.tradesToday && a.positions == b.positions && a.equity == b.equity
    ensures SizeRefuses(was, s, a, asked) ==> SizeRefuses(next, t, b, asked)
  {
  }

  lemma ObservedIgnoresNews(rules: Rules, p: Progress, base: Facts, calendar: Option<seq<NewsEvent>>)
    ensures Observed(rules, p, ReadFor(rules, base, calendar)) == Observed(rules, p, base)
  {
  }

  // After the same look, every rule that refuses under the old rules still
  // refuses under ones no looser, wherever the new hours are no wider.
  lemma RefusingFollows(next: Rules, was: Rules, n: Progress, w: Progress,
                        base: Facts, calendar: Option<seq<NewsEvent>>, asked: Asked)
    requires Valid(next) && Valid(was) && !LooserThan(next, was)
    requires n.day.Some? && w.day.Some? && LockedOn(n, w, base.Today())
    requires OpenAt(next, base.now) ==> OpenAt(was, base.now)
    ensures var a, b := ReadFor(was, base, calendar), ReadFor(next, base, calendar);
            Refusing(was, StatusOf(was, w, a), a, asked)
            ==> Refusing(next, StatusOf(next, n, b), b, asked)
  {
    var a, b := ReadFor(was, base, calendar), ReadFor(next, base, calendar);
    LockFollows(n, w, base.Today());
    NewsFollows(next, was, base, calendar);
    CoolOffFollows(next, was, base.closed, base.now);
    RevengeFollows(next, was, a, b, asked);
    RiskFollows(next, was, n, w, a, b, asked);
    SizeFollows(next, was, StatusOf(was, w, a), StatusOf(next, n, b), a, b, asked);
  }

  // A decision, without the list of checks: an opening order is refused if the
  // account can't be read, and otherwise if a rule refuses it and rules do.
  lemma BlockedExactly(rules: Rules, p: Progress, reading: Option<Facts>,
                       calendar: Option<seq<NewsEvent>>, asked: Asked)
    requires Valid(rules)
    ensures Decide(rules, p, reading, calendar, asked).Blocked?
            <==> !asked.reduceOnly &&
                 (reading.None? ||
                  (rules.breach != Warn &&
                   var facts := ReadFor(rules, reading.value, calendar);
                   Refusing(rules, StatusOf(rules, Observed(rules, p, reading.value), facts), facts, asked)))
  {
    if reading.Some? {
      var facts := ReadFor(rules, reading.value, calendar);
      ObservedIgnoresNews(rules, p, reading.value, calendar);
      ChecksFailExactly(rules, StatusOf(rules, Observed(rules, p, facts), facts), facts, asked);
    }
  }

  // ---- The theorems ---------------------------------------------------

  // A change that isn't looser never lets an order through that the rules
  // before it refused, at any instant its hours are no wider.
  lemma TighteningIsSound(next: Rules, was: Rules, n: Progress, w: Progress, reading: Option<Facts>,
                          calendar: Option<seq<NewsEvent>>, asked: Asked)
    requires Valid(next) && Valid(was) && !LooserThan(next, was)
    requires reading.Some? ==> LockedOn(n, w, reading.value.Today())
    requires reading.Some? && OpenAt(next, reading.value.now) ==> OpenAt(was, reading.value.now)
    ensures Decide(was, w, reading, calendar, asked).Blocked?
            ==> Decide(next, n, reading, calendar, asked).Blocked?
  {
    BlockedExactly(was, w, reading, calendar, asked);
    BlockedExactly(next, n, reading, calendar, asked);
    if reading.Some? {
      var base := reading.value;
      LocksFollow(next, was, n, w, base);
      RefusingFollows(next, was, Observed(next, n, base), Observed(was, w, base),
                      base, calendar, asked);
    }
  }

  // Over a whole run of looks from one progress, the locks under the tighter
  // rules follow those under the looser ones at every step.
  lemma {:induction false} LockSimulation(next: Rules, was: Rules, p: Progress, facts: seq<Facts>)
    requires Valid(next) && Valid(was) && !LooserThan(next, was)
    requires InTimeOrder(facts) && facts != []
    requires p.dayLocked.Some? ==> p.dayLocked.value <= facts[0].Today()
    ensures LockedAtLeast(Run(next, p, facts), Run(was, p, facts), facts[|facts| - 1].Today())
  {
    var k := |facts| - 1;
    if k == 0 {
      assert Run(next, p, facts[..0]) == p && Run(was, p, facts[..0]) == p;
    } else {
      LockSimulation(next, was, p, facts[..k]);
      SameDayOrder(facts[k - 1].now, facts[k].now);
    }
    LocksFollow(next, was, Run(next, p, facts[..k]), Run(was, p, facts[..k]), facts[k]);
  }

  // So over whole runs: after the same looks, an order the old rules refuse is
  // refused by the new ones.
  lemma TighteningOverRuns(next: Rules, was: Rules, p: Progress, facts: seq<Facts>,
                           calendar: Option<seq<NewsEvent>>, asked: Asked)
    requires Valid(next) && Valid(was) && !LooserThan(next, was)
    requires !TakesTheSmallHours(next, was)
    requires InTimeOrder(facts) && facts != []
    requires p.dayLocked.Some? ==> p.dayLocked.value <= facts[0].Today()
    ensures var k := |facts| - 1;
            Decide(was, Run(was, p, facts[..k]), Some(facts[k]), calendar, asked).Blocked?
            ==> Decide(next, Run(next, p, facts[..k]), Some(facts[k]), calendar, asked).Blocked?
  {
    hide Decide, Observed, Valid, LooserThan, OpenAt, TakesTheSmallHours;
    var k := |facts| - 1;
    if k == 0 {
      assert Run(next, p, facts[..0]) == p && Run(was, p, facts[..0]) == p;
    } else {
      LockSimulation(next, was, p, facts[..k]);
      SameDayOrder(facts[k - 1].now, facts[k].now);
      LockedOnLater(Run(next, p, facts[..k]), Run(was, p, facts[..k]), facts[k - 1].Today(), facts[k].Today());
    }
    if OpenAt(next, facts[k].now) {
      OpenNarrows(next, was, facts[k].now);
    }
    TighteningIsSound(next, was, Run(next, p, facts[..k]), Run(was, p, facts[..k]),
                      Some(facts[k]), calendar, asked);
  }

  ghost predicate NeverAdmitsMore(next: Rules, was: Rules)
    requires Valid(next) && Valid(was)
  {
    forall p: Progress, reading: Option<Facts>, calendar: Option<seq<NewsEvent>>, asked: Asked ::
      Decide(was, p, reading, calendar, asked).Blocked?
      ==> Decide(next, p, reading, calendar, asked).Blocked?
  }

  // A quiet account on a quiet Monday, and an order too small for any limit and
  // with its stop at its price: only the hours can refuse it.
  function QuietFacts(size: real, now: nat): Facts { Facts(now, size, [], [], [], None) }

  const SMALL := Asked("BTCUSDT", Buy, 0.005, 1.0, Some(1.0), false)

  lemma SmallIsSmall(size: real)
    requires size >= 1.0
    ensures 0.005 / size <= 0.01
  {
  }

  lemma OnlyHoursRefuse(rules: Rules, now: nat)
    requires Valid(rules)
    ensures var facts := ReadFor(rules, QuietFacts(rules.challenge.size, now), Some([]));
            Refusing(rules, StatusOf(rules, Observed(rules, EMPTY, facts), facts), facts, SMALL)
            <==> !OpenAt(rules, now)
  {
    var facts := ReadFor(rules, QuietFacts(rules.challenge.size, now), Some([]));
    var p := Observed(rules, EMPTY, facts);
    DailyIsPositive(rules);
    assert p.day.value.startBalance == p.day.value.startEquity == rules.challenge.size;
    assert DayLoss(rules, p, facts.equity) == 0.0;
    LeftIsLimitLessLoss(rules, p, facts);
    assert Raised(rules, EMPTY, facts).peak == rules.challenge.size;
    assert Raised(rules, EMPTY, facts).eodPeak == rules.challenge.size;
    assert LockOf(p, facts.Today()).None?;
    assert LeverageAfter(facts, SMALL) == Finite(0.005 / facts.equity);
    SmallIsSmall(facts.equity);
    assert rules.TradeRisk() >= 0.0;
  }

  // Where the small hours were taken, one quiet look tells the two apart.
  lemma SmallHoursAdmit(next: Rules, was: Rules)
    requires Valid(next) && Valid(was) && !LooserThan(next, was)
    requires was.breach != Warn && TakesTheSmallHours(next, was)
    ensures var base := QuietFacts(was.challenge.size, MondayAt(Clock(next.hours.from).value));
            && Decide(was, EMPTY, Some(base), Some([]), SMALL).Blocked?
            && Decide(next, EMPTY, Some(base), Some([]), SMALL).Passed?
  {
    hide Decide, OpenAt, Valid, Window;
    SmallHoursOpen(next, was, Clock(next.hours.from).value);
    var now := MondayAt(Clock(next.hours.from).value);
    OnlyHoursRefuse(next, now);
    OnlyHoursRefuse(was, now);
    BlockedExactly(was, EMPTY, Some(QuietFacts(was.challenge.size, now)), Some([]), SMALL);
    BlockedExactly(next, EMPTY, Some(QuietFacts(was.challenge.size, now)), Some([]), SMALL);
    var b := ReadFor(next, QuietFacts(was.challenge.size, now), Some([]));
    ObservedIgnoresNews(next, EMPTY, QuietFacts(was.challenge.size, now), Some([]));
    ObservedIgnoresNews(was, EMPTY, QuietFacts(was.challenge.size, now), Some([]));
  }

  // From progresses the tighter of which is locked that day wherever the other is,
  // a change that isn't looser and doesn't take the small hours admits no more.
  lemma SafeToApply(next: Rules, was: Rules, n: Progress, w: Progress, reading: Option<Facts>,
                  calendar: Option<seq<NewsEvent>>, asked: Asked)
    requires Valid(next) && Valid(was) && !LooserThan(next, was)
    requires was.breach == Warn || !TakesTheSmallHours(next, was)
    requires reading.Some? ==> LockedOn(n, w, reading.value.Today())
    ensures Decide(was, w, reading, calendar, asked).Blocked?
            ==> Decide(next, n, reading, calendar, asked).Blocked?
  {
    hide Valid, LooserThan, TakesTheSmallHours, Decide, OpenAt, LockedOn;
    if was.breach == Warn {
      BlockedExactly(was, w, reading, calendar, asked);
      BlockedExactly(next, n, reading, calendar, asked);
    } else {
      if reading.Some? && OpenAt(next, reading.value.now) {
        OpenNarrows(next, was, reading.value.now);
      }
      TighteningIsSound(next, was, n, w, reading, calendar, asked);
    }
  }

  lemma OtherwiseSafe(next: Rules, was: Rules)
    requires Valid(next) && Valid(was) && !LooserThan(next, was)
    requires was.breach == Warn || !TakesTheSmallHours(next, was)
    ensures NeverAdmitsMore(next, was)
  {
    hide Decide, Valid, LooserThan, TakesTheSmallHours;
    forall p: Progress, reading: Option<Facts>, calendar: Option<seq<NewsEvent>>, asked: Asked |
      Decide(was, p, reading, calendar, asked).Blocked?
      ensures Decide(next, p, reading, calendar, asked).Blocked?
    {
      SafeToApply(next, was, p, p, reading, calendar, asked);
    }
  }

  // Exactly when a change that isn't looser is safe to apply at once: always,
  // unless the old rules refuse at all and the small hours are taken.
  lemma TighteningExactly(next: Rules, was: Rules)
    requires Valid(next) && Valid(was) && !LooserThan(next, was)
    ensures NeverAdmitsMore(next, was) <==> was.breach == Warn || !TakesTheSmallHours(next, was)
  {
    hide Decide, OpenAt, LooserThan, Valid, Clock, TakesTheSmallHours;
    if was.breach == Warn || !TakesTheSmallHours(next, was) {
      OtherwiseSafe(next, was);
    } else {
      SmallHoursAdmit(next, was);
    }
  }

  // The shape as a trader could set it: Weekdays 22:00-06:00 replaced by
  // Weekdays 00:00-06:00 counts as no looser, and opens Monday 03:00.
  lemma OverMidnightWitness(was: Rules)
    requires Valid(was) && was.hours == Hours(Weekdays, "22:00", "06:00")
    ensures var next := was.(hours := Hours(Weekdays, "00:00", "06:00"));
            && Valid(next) && !LooserThan(next, was)
            && OpenAt(next, MondayAt(180)) && !OpenAt(was, MondayAt(180))
  {
    hide Valid, LooserThan, OpenAt, Clock;
    var next := was.(hours := Hours(Weekdays, "00:00", "06:00"));
    ClockReads("22:00", '2', '2', '0', '0');
    ClockReads("00:00", '0', '0', '0', '0');
    ClockReads("06:00", '0', '6', '0', '0');
    OnlyHoursChanged(next, was);
    forall m | m in Window(next.hours) ensures m in Window(was.hours) {
      assert Covers(0, 360, m) && Covers(1320, 360, m);
    }
    SmallHoursOpen(next, was, 180);
  }

  lemma OnlyHoursChanged(next: Rules, was: Rules)
    requires next == was.(hours := next.hours) && next.hours.days == was.hours.days
    requires Valid(was) && Clock(next.hours.from).Some? && Clock(next.hours.to).Some?
    ensures Valid(next)
    ensures LooserThan(next, was) <==> !(Window(next.hours) <= Window(was.hours))
  {
  }

  lemma ClockReads(text: string, a: char, b: char, c: char, d: char)
    requires text == [a, b, ':', c, d]
    requires IsDigit(a) && IsDigit(b) && IsDigit(c) && IsDigit(d)
    ensures var h, m := 10 * DigitValue(a) + DigitValue(b), 10 * DigitValue(c) + DigitValue(d);
            Clock(text) == if h < 24 && m < 60 then Some(h * 60 + m) else None
  {
    var two, three := [':', c, d], [b, ':', c, d];
    assert two[1..] == [c, d] && three[1..] == two && text[1..] == three;
    assert SplitOnce(two, ':') == Some(([], [c, d]));
    assert [b] + [] == [b] && [a] + [b] == [a, b];
    assert SplitOnce(three, ':') == Some(([b], [c, d]));
    assert SplitOnce(text, ':') == Some(([a, b], [c, d]));
    TwoDigits(a, b);
    TwoDigits(c, d);
  }

  lemma TwoDigits(a: char, b: char)
    requires IsDigit(a) && IsDigit(b)
    ensures ParseU64([a, b]) == Some(10 * DigitValue(a) + DigitValue(b))
  {
    assert [a, b][..1] == [a] && [a][..0] == [];
    assert DigitsValue([a]) == DigitValue(a);
  }
}
