// A day of the rules against the same day had they not been touched: the looks
// that were taken, under the morning's rules all along.
module WholeDay {
  import opened Basics
  import opened Rules
  import opened Progress
  import opened RuleBook
  import opened SameDay
  import opened Tightening

  // The looks taken of an account.
  function LooksOf(ops: seq<Op>, account: Account): seq<Facts> {
    if ops == [] then []
    else
      (if ops[0].Look? && ops[0].account == account then [ops[0].facts] else []) + LooksOf(ops[1..], account)
  }

  // A look at the account is under rules no looser than the morning's, as those in
  // force are all day.
  predicate LooksUnder(op: Op, account: Account, was: Rules) {
    op.Look? && op.account == account ==> Valid(op.rules) && !LooserThan(op.rules, was)
  }

  predicate Untouched(op: Op, account: Account, day: nat, was: Rules) {
    OnDay(op, day) && !(op.Forget? && op.account == account) && LooksUnder(op, account, was)
  }

  lemma {:induction false} RunFromFront(rules: Rules, p: Progress, first: Facts, rest: seq<Facts>)
    ensures Run(rules, p, [first] + rest) == Run(rules, Observed(rules, p, first), rest)
  {
    hide Observed;
    var all := [first] + rest;
    var n := |all| - 1;
    if rest == [] {
      assert all[..0] == [] && Run(rules, p, all[..0]) == p;
    } else {
      assert all[..n] == [first] + rest[..n - 1] && all[n] == rest[n - 1];
      RunFromFront(rules, p, first, rest[..n - 1]);
    }
  }

  // A change on such a day is no new start for the progress.
  lemma ChangeKeepsProgress(s: RuleSet, now: nat, name: string, on: bool, rules: Rules)
    requires s.on
    ensures Changed(s, now, name, on, rules).progress == s.progress
  {
  }

  lemma GiveKeepsProgress(sets: seq<RuleSet>, now: nat, who: Account, name: string, on: bool, rules: Rules,
                          account: Account)
    requires SetOf(sets, account).Some? && SetOf(sets, account).value.on
    ensures var r := Placed(sets, now, who, name, on, rules);
            r.Ok? ==> SetOf(r.value, account).Some?
                      && SetOf(r.value, account).value.progress == SetOf(sets, account).value.progress
  {
    hide Changed;
    var i := IndexOf(sets, account);
    ChangeKeepsProgress(sets[i], now, name, on, rules);
    var r := Placed(sets, now, who, name, on, rules);
    if r.Ok? {
      var at := IndexOf(sets, who);
      if at < |sets| {
        KeepsAccount(sets[at], now, name, on, rules);
      }
      IndexIsFirst(r.value, account, i);
    }
  }

  lemma KeepsAccount(s: RuleSet, now: nat, name: string, on: bool, rules: Rules)
    ensures Changed(s, now, name, on, rules).account == s.account
  {
  }

  // One operation: the progress the account's set keeps, beside one that only looks
  // change.
  lemma StepFollows(sets: seq<RuleSet>, op: Op, account: Account, day: nat, was: Rules, w: Progress)
    requires SetOf(sets, account).Some? && OnAllDay(SetOf(sets, account).value, day)
    requires Valid(was) && Untouched(op, account, day, was)
    requires LockedOn(SetOf(sets, account).value.progress, w, day)
    ensures SetOf(Step(sets, op), account).Some?
    ensures LockedOn(SetOf(Step(sets, op), account).value.progress,
                     Run(was, w, LooksOf([op], account)), day)
  {
    hide Valid, LooserThan, Placed, Observed, LockedOn, Without, Settled;
    var s := SetOf(sets, account).value;
    assert [op][1..] == [] && LooksOf([op][1..], account) == [];
    match op {
      case Give(now, clock, who, name, on, rules, written) =>
        NoLooks(was, w);
        if Valid(rules) {
          SettledSet(sets, clock, account, day);
          GiveKeepsProgress(Settled(sets, clock), now, who, name, on, rules, account);
        }
      case Forget(clock, who, written) =>
        NoLooks(was, w);
        SettledSet(sets, clock, account, day);
        WithoutOther(Settled(sets, clock), who, account);
      case Ask(clock) =>
        NoLooks(was, w);
        SettledSet(sets, clock, account, day);
      case Look(who, rules, facts) =>
        IndexIsFirst(Step(sets, op), account, IndexOf(sets, account));
        if who == account {
          LocksFollow(rules, was, s.progress, w, facts);
          OneLook(was, w, facts);
          assert LooksOf([op], account) == [facts];
        } else {
          NoLooks(was, w);
        }
    }
  }

  lemma NoLooks(rules: Rules, p: Progress)
    ensures Run(rules, p, []) == p
  {
  }

  lemma OneLook(rules: Rules, p: Progress, facts: Facts)
    ensures Run(rules, p, [facts]) == Observed(rules, p, facts)
  {
    assert [facts][..0] == [];
  }

  lemma LooksOfOne(op: Op, rest: seq<Op>, account: Account)
    ensures LooksOf([op] + rest, account) == LooksOf([op], account) + LooksOf(rest, account)
    ensures |LooksOf([op], account)| <= 1
  {
    assert [op][1..] == [] && ([op] + rest)[1..] == rest;
  }

  lemma RunSplits(rules: Rules, p: Progress, op: Op, rest: seq<Op>, account: Account)
    ensures Run(rules, p, LooksOf([op] + rest, account))
            == Run(rules, Run(rules, p, LooksOf([op], account)), LooksOf(rest, account))
  {
    hide Observed, LooksOf;
    LooksOfOne(op, rest, account);
    var looks := LooksOf([op], account);
    if looks == [] {
      NoLooks(rules, p);
      assert looks + LooksOf(rest, account) == LooksOf(rest, account);
    } else {
      assert looks == [looks[0]];
      OneLook(rules, p, looks[0]);
      RunFromFront(rules, p, looks[0], LooksOf(rest, account));
    }
  }

  // Through the day: locked wherever the same looks would have locked the morning's
  // rules.
  lemma {:induction false} DayFollows(sets: seq<RuleSet>, ops: seq<Op>, account: Account, day: nat, was: Rules,
                                      w: Progress)
    requires SetOf(sets, account).Some? && OnAllDay(SetOf(sets, account).value, day)
    requires Valid(was) && forall i :: 0 <= i < |ops| ==> Untouched(ops[i], account, day, was)
    requires LockedOn(SetOf(sets, account).value.progress, w, day)
    ensures SetOf(Steps(sets, ops), account).Some?
    ensures LockedOn(SetOf(Steps(sets, ops), account).value.progress, Run(was, w, LooksOf(ops, account)), day)
    decreases |ops|
  {
    hide Valid, LockedOn, Untouched, OnAllDay, Step;
    if ops == [] {
      NoLooks(was, w);
    } else {
      var rest := ops[1..];
      assert ops == [ops[0]] + rest && forall i :: 0 <= i < |rest| ==> rest[i] == ops[i + 1];
      StepFollows(sets, ops[0], account, day, was, w);
      StaysOn(sets, ops[0], account, day, was);
      DayFollows(Step(sets, ops[0]), rest, account, day, was, Run(was, w, LooksOf([ops[0]], account)));
      RunSplits(was, w, ops[0], rest, account);
    }
  }

  lemma StaysOn(sets: seq<RuleSet>, op: Op, account: Account, day: nat, was: Rules)
    requires SetOf(sets, account).Some? && OnAllDay(SetOf(sets, account).value, day)
    requires Untouched(op, account, day, was)
    ensures SetOf(Step(sets, op), account).Some? && OnAllDay(SetOf(Step(sets, op), account).value, day)
  {
    hide LooserThan, Valid, Step;
    StepIsNoLooser(sets, op, account, day);
  }

  // So from any reachable state: what the morning's rules would refuse after the
  // day's looks, those in force refuse after the day's changes as well - but for the
  // small hours.
  lemma TheDayAdmitsNoMore(start: seq<RuleSet>, before: seq<Op>, clock: nat, ops: seq<Op>, account: Account,
                           reading: Option<Facts>, calendar: Option<seq<NewsEvent>>, asked: Asked)
    requires Kept(start)
    requires var morning := SetOf(Settled(Steps(start, before), clock), account);
             morning.Some? && morning.value.on
             && forall i :: 0 <= i < |ops| ==> Untouched(ops[i], account, DayOf(clock), morning.value.rules)
    requires reading.Some? ==> reading.value.Today() == DayOf(clock)
    ensures var sets := Settled(Steps(start, before), clock);
            var s, after := SetOf(sets, account).value, SetOf(Steps(sets, ops), account);
            && after.Some? && Valid(s.rules) && Valid(after.value.rules)
            && (s.rules.breach == Warn || !TakesTheSmallHours(after.value.rules, s.rules) ==>
                  Decide(s.rules, Run(s.rules, s.progress, LooksOf(ops, account)), reading, calendar, asked).Blocked?
                  ==> Decide(after.value.rules, after.value.progress, reading, calendar, asked).Blocked?)
  {
    hide Valid, LooserThan, TakesTheSmallHours, Decide, OpenAt, LockedOn, Run, LooksOf, Steps, Settled;
    StepsKeep(start, before);
    var kept := Steps(start, before);
    SettledKeeps(kept, clock);
    var sets := Settled(kept, clock);
    StepsKeep(sets, ops);
    SettlingStartsTheDay(kept, clock, account);
    var s := SetOf(sets, account).value;
    NoSameDayLoosening(sets, ops, account, DayOf(clock));
    LockedWithItself(s.progress, DayOf(clock));
    DayFollows(sets, ops, account, DayOf(clock), s.rules, s.progress);
    var t := SetOf(Steps(sets, ops), account).value;
    if s.rules.breach == Warn || !TakesTheSmallHours(t.rules, s.rules) {
      SafeToApply(t.rules, s.rules, t.progress, Run(s.rules, s.progress, LooksOf(ops, account)),
                reading, calendar, asked);
    }
  }

  lemma LockedWithItself(p: Progress, day: nat)
    ensures LockedOn(p, p, day)
  {
  }
}
