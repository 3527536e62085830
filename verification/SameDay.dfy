// What a day of operations on the rules can and can't do to those in force.
module SameDay {
  import opened Basics
  import opened Rules
  import opened Progress
  import opened RuleBook
  import Tightening

  // One call on the rules, with the clock it read and whether the file took it.
  datatype Op =
    | Give(now: nat, clock: nat, account: Account, name: string, on: bool, rules: Rules, written: bool)
    | Forget(clock: nat, account: Account, written: bool)
    | Ask(clock: nat)
    | Look(account: Account, rules: Rules, facts: Facts)

  function Step(sets: seq<RuleSet>, op: Op): seq<RuleSet> {
    match op
    case Give(now, clock, account, name, on, rules, written) =>
      if !Valid(rules) then sets
      else
        var settled := Settled(sets, clock);
        (match Placed(settled, now, account, name, on, rules)
         case Ok(next) => if written then next else settled
         case Err(_) => settled)
    case Forget(clock, account, written) =>
      var settled := Settled(sets, clock);
      if written then Without(settled, account) else settled
    case Ask(clock) => Settled(sets, clock)
    case Look(account, rules, facts) => Stood(sets, account, rules, facts)
  }

  function Steps(sets: seq<RuleSet>, ops: seq<Op>): seq<RuleSet>
    decreases |ops|
  {
    if ops == [] then sets else Steps(Step(sets, ops[0]), ops[1..])
  }

  lemma NoSteps(sets: seq<RuleSet>)
    ensures Steps(sets, []) == sets
  {
  }

  lemma OneThen(sets: seq<RuleSet>, op: Op, ops: seq<Op>)
    ensures Steps(sets, [op] + ops) == Steps(Step(sets, op), ops)
  {
    hide Step;
    assert ([op] + ops)[1..] == ops;
  }

  predicate OnDay(op: Op, day: nat) {
    match op
    case Give(now, clock, _, _, _, _, _) => DayOf(now) == day && DayOf(clock) == day
    case Forget(clock, _, _) => DayOf(clock) == day
    case Ask(clock) => DayOf(clock) == day
    case Look(_, _, facts) => facts.Today() == day
  }

  // ---- What every operation keeps -------------------------------------

  predicate WellKept(s: RuleSet) {
    && Valid(s.rules)
    && (s.pending.Some? ==> Valid(s.pending.value.rules)
                            && s.pending.value.at % DAY_MS == 0 && s.pending.value.at > 0)
  }

  // At most one set an account, none unreadable, every wait ending on a
  // midnight, and no more sets than are kept.
  ghost predicate Kept(sets: seq<RuleSet>) {
    && |sets| <= 20
    && (forall i :: 0 <= i < |sets| ==> WellKept(sets[i]))
    && Distinct(sets)
  }

  lemma MidnightIsLater(now: nat)
    ensures NextMidnight(now) % DAY_MS == 0 && NextMidnight(now) > now
    ensures DayOf(NextMidnight(now)) == DayOf(now) + 1
  {
  }

  lemma WithoutIsSome(sets: seq<RuleSet>, account: Account)
    ensures |Without(sets, account)| <= |sets|
    ensures forall s :: s in Without(sets, account) <==> s in sets && s.account != account
  {
  }

  ghost predicate Distinct(sets: seq<RuleSet>) {
    forall i, j :: 0 <= i < j < |sets| ==> sets[i].account != sets[j].account
  }

  lemma {:induction false} WithoutDistinct(sets: seq<RuleSet>, account: Account)
    requires Distinct(sets)
    ensures Distinct(Without(sets, account))
  {
    if sets != [] {
      var rest := sets[1..];
      var left := Without(rest, account);
      WithoutDistinct(rest, account);
      WithoutIsSome(rest, account);
      assert forall j :: 0 <= j < |left| ==> left[j] in rest && left[j].account != sets[0].account;
    }
  }

  lemma SettledKeeps(sets: seq<RuleSet>, clock: nat)
    requires Kept(sets)
    ensures Kept(Settled(sets, clock))
  {
    var next := Settled(sets, clock);
    assert forall i :: 0 <= i < |sets| ==> next[i].account == sets[i].account;
  }

  lemma PlacedKeeps(sets: seq<RuleSet>, now: nat, account: Account, name: string, on: bool, rules: Rules)
    requires Kept(sets) && Valid(rules)
    ensures var r := Placed(sets, now, account, name, on, rules); r.Ok? ==> Kept(r.value)
  {
    hide Valid, NextMidnight, LooserThan, Restarts;
    MidnightIsLater(now);
    var i := IndexOf(sets, account);
    if i < |sets| {
      assert WellKept(Changed(sets[i], now, name, on, rules));
    }
  }

  lemma StoodKeeps(sets: seq<RuleSet>, account: Account, rules: Rules, facts: Facts)
    requires Kept(sets)
    ensures Kept(Stood(sets, account, rules, facts))
  {
    hide Valid, Observed;
  }

  // Every operation keeps the list so, and a new, empty one is.
  lemma StepKeeps(sets: seq<RuleSet>, op: Op)
    requires Kept(sets)
    ensures Kept(Step(sets, op))
  {
    hide Valid, WellKept, Settled, Placed, Without, Observed;
    match op {
      case Give(now, clock, account, name, on, rules, written) =>
        if Valid(rules) {
          SettledKeeps(sets, clock);
          PlacedKeeps(Settled(sets, clock), now, account, name, on, rules);
        }
      case Forget(clock, account, written) =>
        var settled := Settled(sets, clock);
        SettledKeeps(sets, clock);
        WithoutIsSome(settled, account);
        WithoutDistinct(settled, account);
        var left := Without(settled, account);
        assert forall i :: 0 <= i < |left| ==> left[i] in settled;
      case Ask(clock) =>
        SettledKeeps(sets, clock);
      case Look(account, rules, facts) =>
        StoodKeeps(sets, account, rules, facts);
    }
  }

  lemma {:induction false} StepsKeep(sets: seq<RuleSet>, ops: seq<Op>)
    requires Kept(sets)
    ensures Kept(Steps(sets, ops))
    decreases |ops|
  {
    if ops != [] {
      StepKeeps(sets, ops[0]);
      StepsKeep(Step(sets, ops[0]), ops[1..]);
    }
  }

  // ---- One account's set, through a day -------------------------------

  function SetOf(sets: seq<RuleSet>, account: Account): Option<RuleSet> {
    var i := IndexOf(sets, account);
    if i < |sets| then Some(sets[i]) else None
  }

  // On, with nothing waiting that could apply before the next midnight.
  predicate OnAllDay(s: RuleSet, day: nat) {
    s.on && (s.pending.Some? ==> DayOf(s.pending.value.at) > day)
  }

  // What a later set of the same day may be: on, no looser, the same
  // challenge, and no lock lifted.
  predicate NoLooser(s: RuleSet, t: RuleSet, day: nat) {
    && t.on
    && !LooserThan(t.rules, s.rules)
    && !Restarts(t.rules, s.rules)
    && (s.progress.failedAt.Some? ==> t.progress.failedAt == s.progress.failedAt)
    && (s.progress.dayLocked == Some(day) ==> t.progress.dayLocked == Some(day))
  }

  lemma NoLooserChains(a: RuleSet, b: RuleSet, c: RuleSet, day: nat)
    requires NoLooser(a, b, day) && NoLooser(b, c, day)
    ensures NoLooser(a, c, day)
  {
    Tightening.NotLooserChains(c.rules, b.rules, a.rules);
  }

  lemma NotDueToday(s: RuleSet, day: nat, clock: nat)
    requires OnAllDay(s, day) && DayOf(clock) == day
    ensures SettleOne(s, clock) == s
  {
  }

  lemma SettledIndex(sets: seq<RuleSet>, clock: nat, account: Account)
    ensures IndexOf(Settled(sets, clock), account) == IndexOf(sets, account)
  {
    var i, j := IndexOf(Settled(sets, clock), account), IndexOf(sets, account);
    assert forall k :: 0 <= k < |sets| ==> Settled(sets, clock)[k].account == sets[k].account;
  }

  lemma WithoutOther(sets: seq<RuleSet>, gone: Account, account: Account)
    requires gone != account
    ensures SetOf(Without(sets, gone), account) == SetOf(sets, account)
  {
  }

  lemma IndexIsFirst(sets: seq<RuleSet>, account: Account, i: nat)
    requires i < |sets| && sets[i].account == account
    requires forall j :: 0 <= j < i ==> sets[j].account != account
    ensures IndexOf(sets, account) == i
  {
  }

  lemma SettledSet(sets: seq<RuleSet>, clock: nat, account: Account, day: nat)
    requires SetOf(sets, account).Some? && OnAllDay(SetOf(sets, account).value, day)
    requires DayOf(clock) == day
    ensures SetOf(Settled(sets, clock), account) == SetOf(sets, account)
  {
    SettledIndex(sets, clock, account);
    NotDueToday(SetOf(sets, account).value, day, clock);
  }

  // The set a change makes of one that's on: no looser today.
  lemma ChangedIsNoLooser(s: RuleSet, now: nat, name: string, on: bool, rules: Rules, day: nat)
    requires OnAllDay(s, day) && DayOf(now) == day
    ensures var t := Changed(s, now, name, on, rules);
            OnAllDay(t, day) && NoLooser(s, t, day) && t.account == s.account
  {
    MidnightIsLater(now);
    Tightening.NotLooserThanItself(s.rules);
  }

  lemma LookIsNoLooser(s: RuleSet, rules: Rules, facts: Facts, day: nat)
    requires OnAllDay(s, day) && facts.Today() == day
    ensures var t := s.(progress := Observed(rules, s.progress, facts));
            OnAllDay(t, day) && NoLooser(s, t, day)
  {
    Tightening.NotLooserThanItself(s.rules);
  }

  lemma GiveIsNoLooser(sets: seq<RuleSet>, now: nat, who: Account, name: string, on: bool, rules: Rules,
                       account: Account, day: nat)
    requires SetOf(sets, account).Some? && OnAllDay(SetOf(sets, account).value, day)
    requires DayOf(now) == day
    ensures var r := Placed(sets, now, who, name, on, rules);
            r.Ok? ==>
              (&& SetOf(r.value, account).Some?
               && var s, t := SetOf(sets, account).value, SetOf(r.value, account).value;
                  OnAllDay(t, day) && NoLooser(s, t, day))
  {
    var s := SetOf(sets, account).value;
    Tightening.NotLooserThanItself(s.rules);
    var r := Placed(sets, now, who, name, on, rules);
    ChangedIsNoLooser(s, now, name, on, rules, day);
    if r.Ok? {
      IndexIsFirst(r.value, account, IndexOf(sets, account));
    }
  }

  // Any one operation of the day, on this account or another.
  lemma StepIsNoLooser(sets: seq<RuleSet>, op: Op, account: Account, day: nat)
    requires SetOf(sets, account).Some? && OnAllDay(SetOf(sets, account).value, day)
    requires OnDay(op, day) && !(op.Forget? && op.account == account)
    ensures SetOf(Step(sets, op), account).Some?
    ensures var s, t := SetOf(sets, account).value, SetOf(Step(sets, op), account).value;
            OnAllDay(t, day) && NoLooser(s, t, day)
  {
    var s := SetOf(sets, account).value;
    Tightening.NotLooserThanItself(s.rules);
    match op {
      case Give(now, clock, who, name, on, rules, written) =>
        if Valid(rules) {
          SettledSet(sets, clock, account, day);
          GiveIsNoLooser(Settled(sets, clock), now, who, name, on, rules, account, day);
        }
      case Forget(clock, who, written) =>
        SettledSet(sets, clock, account, day);
        WithoutOther(Settled(sets, clock), who, account);
      case Ask(clock) =>
        SettledSet(sets, clock, account, day);
      case Look(who, rules, facts) =>
        LookIsNoLooser(s, rules, facts, day);
        IndexIsFirst(Step(sets, op), account, IndexOf(sets, account));
    }
  }

  // Whatever is asked of the rules within a day - changes, failed writes,
  // other accounts added and removed, looks at the venue - a set that is on
  // stays on, its rules never looser than any earlier the same day, its
  // challenge the same and its locks kept.
  lemma {:induction false} NoSameDayLoosening(sets: seq<RuleSet>, ops: seq<Op>, account: Account, day: nat)
    requires SetOf(sets, account).Some? && OnAllDay(SetOf(sets, account).value, day)
    requires forall i :: 0 <= i < |ops| ==>
      OnDay(ops[i], day) && !(ops[i].Forget? && ops[i].account == account)
    ensures SetOf(Steps(sets, ops), account).Some?
    ensures var s, t := SetOf(sets, account).value, SetOf(Steps(sets, ops), account).value;
            OnAllDay(t, day) && NoLooser(s, t, day)
    decreases |ops|
  {
    var s := SetOf(sets, account).value;
    if ops == [] {
      Tightening.NotLooserThanItself(s.rules);
    } else {
      var next := Step(sets, ops[0]);
      StepIsNoLooser(sets, ops[0], account, day);
      assert forall i :: 0 <= i < |ops[1..]| ==> ops[1..][i] == ops[i + 1];
      NoSameDayLoosening(next, ops[1..], account, day);
      NoLooserChains(s, SetOf(next, account).value, SetOf(Steps(sets, ops), account).value, day);
    }
  }

  // Every set in a kept list that is on once the day's changes have settled is
  // on for the rest of that day.
  lemma SettlingStartsTheDay(sets: seq<RuleSet>, clock: nat, account: Account)
    requires Kept(sets)
    requires SetOf(Settled(sets, clock), account).Some?
    requires SetOf(Settled(sets, clock), account).value.on
    ensures OnAllDay(SetOf(Settled(sets, clock), account).value, DayOf(clock))
  {
    var s := SetOf(Settled(sets, clock), account).value;
    if s.pending.Some? {
      assert s == sets[IndexOf(Settled(sets, clock), account)];
      LaterMidnight(s.pending.value.at, clock);
    }
  }

  lemma LaterMidnight(at: nat, clock: nat)
    requires at % DAY_MS == 0 && at > clock
    ensures DayOf(at) > DayOf(clock)
  {
  }

  // What's in force is what the set says, and only for a set that is on.
  lemma {:induction false} InForceIsTheSet(sets: seq<RuleSet>, account: Account)
    requires Kept(sets)
    ensures InForceIn(sets, account)
            == match SetOf(sets, account)
               case Some(s) => if s.on then Some(s.rules) else None
               case None => None
  {
    hide WellKept;
    if sets != [] {
      var rest := sets[1..];
      assert forall i :: 0 <= i < |rest| ==> rest[i] == sets[i + 1];
      InForceIsTheSet(rest, account);
      if sets[0].account == account {
        assert forall j :: 0 <= j < |rest| ==> rest[j].account != account;
        assert SetOf(rest, account).None?;
      }
    }
  }

  // So from any reachable state: the rules an order is checked against never
  // admit, later the same day, what those in force earlier refused - but for
  // the small hours.
  lemma InForceNeverAdmitsMore(start: seq<RuleSet>, before: seq<Op>, clock: nat, ops: seq<Op>,
                               account: Account)
    requires Kept(start)
    requires forall i :: 0 <= i < |ops| ==>
      OnDay(ops[i], DayOf(clock)) && !(ops[i].Forget? && ops[i].account == account)
    ensures var morning := Settled(Steps(start, before), clock);
            var early, late := InForceIn(morning, account), InForceIn(Steps(morning, ops), account);
            early.Some? ==>
              && late.Some? && Valid(early.value) && Valid(late.value)
              && (Tightening.NeverAdmitsMore(late.value, early.value)
                  <==> early.value.breach == Warn
                       || !Tightening.TakesTheSmallHours(late.value, early.value))
  {
    StepsKeep(start, before);
    var kept := Steps(start, before);
    StepKeeps(kept, Ask(clock));
    var morning := Settled(kept, clock);
    StepsKeep(morning, ops);
    InForceIsTheSet(morning, account);
    InForceIsTheSet(Steps(morning, ops), account);
    if InForceIn(morning, account).Some? {
      SettlingStartsTheDay(kept, clock, account);
      NoSameDayLoosening(morning, ops, account, DayOf(clock));
      var s, t := SetOf(morning, account).value, SetOf(Steps(morning, ops), account).value;
      Tightening.TighteningExactly(t.rules, s.rules);
    }
  }
}
