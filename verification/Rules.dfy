// The trader's own limits for one account: what a set of rules is, when one set
// is looser than another, and what the rules say about an order.
module Rules {
  import opened Basics
  import opened Text

  datatype Preset = Classic | OneStep | Instant | Own
  datatype Breach = Warn | WarnLock | Lock
  datatype DailyFrom = Balance | Equity
  datatype MaxKind = Static | Intraday | Eod
  datatype HourDays = Weekdays | EveryDay
  datatype StopMode = NeedStop | OnlyWarn
  datatype RevengeMode = RevengeWarn | CoolOffAfter

  datatype Challenge = Challenge(
    size: real, targetPct: real, dailyPct: real, dailyFrom: DailyFrom,
    maxPct: real, maxKind: MaxKind, minDays: real, maxDays: real)
  datatype TradeLoss = TradeLoss(pct: real, mode: StopMode)
  datatype PositionLimit = PositionLimit(usd: real, leverage: real)
  datatype Hours = Hours(days: HourDays, from: string, to: string)
  datatype News = News(on: bool, minutes: real)
  datatype CoolOff = CoolOff(losses: real, minutes: real)
  datatype Revenge = Revenge(on: bool, minutes: real, mode: RevengeMode)
  datatype Factor = Factor(on: bool, factor: real)
  datatype Tilt = Tilt(revenge: Revenge, sizeCreep: Factor, overtrading: Factor)

  function Share(size: real, pct: real): real { size * pct / 100.0 }

  datatype Rules = Rules(
    preset: Preset, breach: Breach, challenge: Challenge, tradeLoss: TradeLoss,
    position: PositionLimit, tradesPerDay: real, hours: Hours, news: News,
    coolOff: CoolOff, tilt: Tilt)
  {
    function Daily(): real { Share(challenge.size, challenge.dailyPct) }

    function MaxLoss(): real { Share(challenge.size, challenge.maxPct) }

    function TradeRisk(): real { Share(challenge.size, tradeLoss.pct) }
  }

  function Rank(b: Breach): nat {
    match b case Warn => 0 case WarnLock => 1 case Lock => 2
  }

  // ---- Trading hours --------------------------------------------------

  // A time of day, two digits either side of a colon, in minutes.
  function Clock(text: string): (r: Option<nat>)
    ensures r.Some? ==> r.value < 1440
  {
    match SplitOnce(text, ':')
    case None => None
    case Some((h, m)) =>
      if |h| != 2 || |m| != 2 then None
      else
        match (ParseU64(h), ParseU64(m))
        case (Some(hour), Some(minute)) =>
          if hour < 24 && minute < 60 then Some(hour * 60 + minute) else None
        case _ => None
  }

  predicate Covers(from: nat, to: nat, minute: nat) {
    if from < to then from <= minute < to
    else from != to && (minute >= from || minute < to)
  }

  // A window as the set of minutes it is open.
  function Window(hours: Hours): set<nat> {
    match (Clock(hours.from), Clock(hours.to))
    case (Some(from), Some(to)) => set m: nat | m < 1440 && Covers(from, to, m)
    case _ => {}
  }

  // Day zero is a Thursday, so Sunday is day three.
  predicate IsWeekday(day: int) { (day + 4) % 7 != 0 && (day + 4) % 7 != 6 }

  // A window over midnight takes its weekday from the evening it began in. (On
  // day zero that is day -1: the subtraction is over `int` here.)
  predicate OpenAt(rules: Rules, now: nat) {
    var minute := now / MINUTE_MS % 1440;
    minute in Window(rules.hours) &&
    (rules.hours.days == EveryDay ||
     var from, to := Clock(rules.hours.from).value, Clock(rules.hours.to).value;
     var overMidnight := from > to && minute < to;
     IsWeekday(DayOf(now) - if overMidnight then 1 else 0))
  }

  // ---- Valid rules, and looser ones -----------------------------------

  predicate Within(v: real, lo: real, hi: real) { lo <= v <= hi }

  // The ranges the numbers of a set of rules are held to.
  function Validate(r: Rules): Result<(), string> {
    var ok :=
      && Within(r.challenge.size, 1.0, 1000000000000.0)
      && Within(r.challenge.targetPct, 0.0, 1000.0)
      && Within(r.challenge.dailyPct, 0.01, 100.0)
      && Within(r.challenge.maxPct, 0.01, 100.0)
      && Within(r.challenge.minDays, 0.0, 365.0)
      && Within(r.challenge.maxDays, 0.0, 3650.0)
      && Within(r.tradeLoss.pct, 0.01, 100.0)
      && Within(r.position.usd, 1.0, 1000000000000.0)
      && Within(r.position.leverage, 0.01, 1000.0)
      && Within(r.tradesPerDay, 1.0, 10000.0)
      && Clock(r.hours.from).Some?
      && Clock(r.hours.to).Some?
      && Within(r.news.minutes, 0.0, 1440.0)
      && Within(r.coolOff.losses, 1.0, 100.0)
      && Within(r.coolOff.minutes, 0.0, 1440.0)
      && Within(r.tilt.revenge.minutes, 0.0, 1440.0)
      && Within(r.tilt.sizeCreep.factor, 1.0, 100.0)
      && Within(r.tilt.overtrading.factor, 1.0, 100.0);
    if ok then Ok(()) else Err("a rule is out of range")
  }

  predicate Valid(r: Rules) { Validate(r).Ok? }

  // Whether `next` starts the challenge over from `was`'s.
  predicate Restarts(next: Rules, was: Rules) {
    next.preset != was.preset || next.challenge.size != was.challenge.size
  }

  // A change this accepts waits for the next day; any other applies at once.
  predicate LooserThan(next: Rules, was: Rules) {
    var c, o := next.challenge, was.challenge;
    var daysWider := next.hours.days == EveryDay && was.hours.days == Weekdays;
    var newsShorter := was.news.on && (!next.news.on || next.news.minutes < was.news.minutes);
    || Restarts(next, was)
    || Rank(next.breach) < Rank(was.breach)
    || newsShorter
    || c.dailyPct > o.dailyPct
    || c.dailyFrom != o.dailyFrom
    || c.maxPct > o.maxPct
    || c.maxKind != o.maxKind
    || next.tradeLoss.pct > was.tradeLoss.pct
    || (next.tradeLoss.mode == OnlyWarn && was.tradeLoss.mode == NeedStop)
    || next.position.usd > was.position.usd
    || next.position.leverage > was.position.leverage
    || next.tradesPerDay > was.tradesPerDay
    || daysWider
    || !(Window(next.hours) <= Window(was.hours))
    || next.coolOff.losses > was.coolOff.losses
    || next.coolOff.minutes < was.coolOff.minutes
    || (was.tilt.revenge.on &&
        (|| !next.tilt.revenge.on
         || next.tilt.revenge.minutes < was.tilt.revenge.minutes
         || (next.tilt.revenge.mode == RevengeWarn && was.tilt.revenge.mode == CoolOffAfter)))
  }

  // ---- The facts a look is taken of -----------------------------------

  datatype Entry = Entry(market: string, at: nat, notional: real)
  datatype Closed = Closed(market: string, at: nat, pnl: real)
  datatype HeldPosition = HeldPosition(
    market: string, side: PositionSide, size: real, notional: real, unrealized: real)
  datatype NewsEvent = NewsEvent(title: string, currency: string, at: nat)

  datatype Facts = Facts(
    now: nat, equity: real, positions: seq<HeldPosition>, entries: seq<Entry>,
    closed: seq<Closed>, news: Option<seq<NewsEvent>>)
  {
    function Today(): nat { DayOf(now) }

    function DayStart(): nat { DayOf(now) * DAY_MS }
  }

  function Unrealized(positions: seq<HeldPosition>): real {
    if positions == [] then 0.0 else positions[0].unrealized + Unrealized(positions[1..])
  }

  function Exposure(positions: seq<HeldPosition>): real {
    if positions == [] then 0.0 else positions[0].notional + Exposure(positions[1..])
  }

  // The P&L of the trades closed at or after `start`.
  function RealizedSince(closed: seq<Closed>, start: nat): real {
    if closed == [] then 0.0
    else (if closed[0].at >= start then closed[0].pnl else 0.0) + RealizedSince(closed[1..], start)
  }

  function EntriesSince(entries: seq<Entry>, start: nat): nat {
    if entries == [] then 0
    else (if entries[0].at >= start then 1 else 0) + EntriesSince(entries[1..], start)
  }

  // How many closed trades, counted back from the newest, lost.
  function LossStreak(closed: seq<Closed>): nat {
    if closed == [] || closed[|closed| - 1].pnl >= 0.0 then 0
    else 1 + LossStreak(closed[..|closed| - 1])
  }

  function LastLoss(closed: seq<Closed>): Option<nat> {
    if closed == [] || closed[|closed| - 1].pnl >= 0.0 then None
    else Some(closed[|closed| - 1].at)
  }

  // When the newest close on a market was, if it lost.
  function LastLossOn(closed: seq<Closed>, market: string): Option<nat> {
    if closed == [] then None
    else
      var c := closed[|closed| - 1];
      if c.market != market then LastLossOn(closed[..|closed| - 1], market)
      else if c.pnl < 0.0 then Some(c.at) else None
  }

  // How far (ms) the nearest release is, before or after `now`.
  function NearestAway(events: seq<NewsEvent>, now: nat): Option<nat> {
    if events == [] then None
    else
      var away := AbsDiff(events[0].at, now);
      match NearestAway(events[1..], now)
      case None => Some(away)
      case Some(other) => Some(if other < away then other else away)
  }

  function FindPosition(positions: seq<HeldPosition>, market: string): Option<HeldPosition> {
    if positions == [] then None
    else if positions[0].market == market then Some(positions[0])
    else FindPosition(positions[1..], market)
  }

  // ---- An order, and what each rule answers ---------------------------

  datatype Asked = Asked(
    market: string, side: Side, size: real, price: real, stop: Option<real>, reduceOnly: bool)

  predicate Closes(held: PositionSide, order: Side) {
    (held == Long && order == Sell) || (held == Short && order == Buy)
  }

  // An order marked so, or no larger than the position it is against.
  predicate Reduces(asked: Asked, positions: seq<HeldPosition>) {
    asked.reduceOnly ||
    exists i :: 0 <= i < |positions| &&
      positions[i].market == asked.market &&
      asked.size <= positions[i].size &&
      Closes(positions[i].side, asked.side)
  }

  datatype LockReason = MaxDrawdown | DailyLoss
  datatype LockUntil = LockUntil(reason: LockReason, until: Option<nat>)

  // Where the account stands, as far as an order's checks look at it.
  datatype Status = Status(
    equity: real, startedAt: nat, dayStart: real, peak: real, dayPnl: real,
    tradesToday: nat, lossStreak: nat, coolOffUntil: Option<nat>, coolOffServed: bool,
    lock: Option<LockUntil>, dailyUsed: real, dailyWarned: bool, hoursOpen: bool)

  datatype RuleName =
    | LockedDailyLoss | LockedMaxDrawdown | HoursRule | NewsUnchecked | NewsRule
    | CoolOffRule | RevengeRule | TradesPerDay | PositionSize | LeverageRule
    | TradeRiskRule | DailyLeft | NeedsStop

  // A value an f64 takes: leverage on no equity is infinite.
  datatype Value = Finite(r: real) | Infinite

  datatype Check = Check(rule: RuleName, ok: bool, value: Value, limit: real)

  // The position's notional, above zero on the order's side of the market.
  function HeldFor(asked: Asked, positions: seq<HeldPosition>): real {
    match FindPosition(positions, asked.market)
    case None => 0.0
    case Some(p) => if Closes(p.side, asked.side) then -p.notional else p.notional
  }

  function After(asked: Asked, positions: seq<HeldPosition>): real {
    Abs(HeldFor(asked, positions) + asked.size * asked.price)
  }

  function LeverageAfter(facts: Facts, asked: Asked): Value {
    var held := HeldFor(asked, facts.positions);
    var total := Exposure(facts.positions) - Abs(held) + After(asked, facts.positions);
    if facts.equity > 0.0 then Finite(total / facts.equity) else Infinite
  }

  function NewsChecks(rules: Rules, facts: Facts): seq<Check> {
    if !rules.news.on then []
    else
      match facts.news
      case None => [Check(NewsUnchecked, false, Finite(0.0), rules.news.minutes)]
      case Some(events) =>
        match NearestAway(events, facts.now)
        case None => [Check(NewsRule, true, Finite(0.0), rules.news.minutes)]
        case Some(ms) =>
          var away := ms as real / MINUTE_MS as real;
          [Check(NewsRule, away > rules.news.minutes, Finite(away), rules.news.minutes)]
  }

  function LeftToday(rules: Rules, status: Status): real {
    Max(rules.Daily() * (1.0 - status.dailyUsed), 0.0)
  }

  function StopChecks(rules: Rules, status: Status, asked: Asked): seq<Check> {
    match asked.stop
    case Some(stop) =>
      var risk := Abs(asked.price - stop) * asked.size;
      var left := LeftToday(rules, status);
      [Check(TradeRiskRule, risk <= rules.TradeRisk(), Finite(risk), rules.TradeRisk()),
       Check(DailyLeft, risk <= left, Finite(risk), left)]
    case None =>
      [Check(NeedsStop, rules.tradeLoss.mode == OnlyWarn, Finite(0.0), rules.TradeRisk())]
  }

  function RevengeChecks(rules: Rules, facts: Facts, asked: Asked): seq<Check> {
    var revenge := rules.tilt.revenge;
    if revenge.on && revenge.mode == CoolOffAfter then
      var within := AsU64(revenge.minutes * MINUTE_MS as real);
      var soon := match LastLossOn(facts.closed, asked.market)
        case None => false
        case Some(at) => (if facts.now < at then 0 else facts.now - at) < within;
      [Check(RevengeRule, !soon, Finite(0.0), revenge.minutes)]
    else []
  }

  function LockChecks(status: Status): seq<Check> {
    match status.lock
    case None => []
    case Some(lock) =>
      [Check(if lock.reason == DailyLoss then LockedDailyLoss else LockedMaxDrawdown,
             false, Finite(0.0), 0.0)]
  }

  function HoursChecks(status: Status): seq<Check> {
    [Check(HoursRule, status.hoursOpen, Finite(0.0), 0.0)]
  }

  function CoolOffChecks(rules: Rules, status: Status): seq<Check> {
    [Check(CoolOffRule, status.coolOffUntil.None?,
           Finite(status.lossStreak as real), rules.coolOff.losses)]
  }

  function SizeChecks(rules: Rules, status: Status, facts: Facts, asked: Asked): seq<Check> {
    var after := After(asked, facts.positions);
    var leverage := LeverageAfter(facts, asked);
    [Check(TradesPerDay, status.tradesToday as real < rules.tradesPerDay,
           Finite(status.tradesToday as real), rules.tradesPerDay),
     Check(PositionSize, after <= rules.position.usd, Finite(after), rules.position.usd),
     Check(LeverageRule, leverage.Finite? && leverage.r <= rules.position.leverage,
           leverage, rules.position.leverage)]
  }

  // The answers of all the rules, listed; there are none for an order that
  // reduces.
  function Checks(rules: Rules, status: Status, facts: Facts, asked: Asked): seq<Check> {
    if Reduces(asked, facts.positions) then []
    else
      LockChecks(status) + HoursChecks(status) + NewsChecks(rules, facts)
      + CoolOffChecks(rules, status) + RevengeChecks(rules, facts, asked)
      + SizeChecks(rules, status, facts, asked) + StopChecks(rules, status, asked)
  }

  // The first rule that says no, which is the one a refusal names.
  function FirstFailed(checks: seq<Check>): (r: Option<RuleName>)
    ensures r.None? <==> forall c :: c in checks ==> c.ok
    ensures r.Some? ==> exists i :: 0 <= i < |checks| && !checks[i].ok && checks[i].rule == r.value
                         && forall j :: 0 <= j < i ==> checks[j].ok
  {
    if checks == [] then None
    else if !checks[0].ok then Some(checks[0].rule)
    else
      var rest := FirstFailed(checks[1..]);
      assert forall c :: c in checks ==> c == checks[0] || c in checks[1..];
      rest
  }
}
