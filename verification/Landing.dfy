// When a change of the rules lands, whatever else is asked of the rules before
// and after.
module Landing {
  import opened Basics
  import opened Rules
  import opened RuleBook
  import opened SameDay

  // What a set holds its account to, and will.
  datatype Terms = Terms(on: bool, rules: Rules, pending: Option<Pending>)

  function TermsOf(s: RuleSet): Terms { Terms(s.on, s.rules, s.pending) }

  // An operation that doesn't take new rules for the account, nor forget it: a
  // change of it that failed is none.
  predicate Leaves(op: Op, account: Account) {
    match op
    case Give(_, _, who, _, _, rules, written) => who != account || !written || !Valid(rules)
    case Forget(_, who, written) => who != account || !written
    case _ => true
  }

  // An operation that settles waiting changes on some later day.
  predicate SettlesAfter(op: Op, day: nat) {
    match op
    case Give(_, clock, _, _, _, rules, _) => Valid(rules) && DayOf(clock) > day
    case Forget(clock, _, _) => DayOf(clock) > day
    case Ask(clock) => DayOf(clock) > day
    case Look(_, _, _) => false
  }

  function Landed(terms: Terms): Terms {
    match terms.pending
    case None => terms
    case Some(p) => Terms(p.on, p.rules, None)
  }

  // ---- One operation --------------------------------------------------

  // A change that waits for the end of a day, if any does.
  predicate WaitsFor(terms: Terms, day: nat) {
    terms.pending.Some? ==> terms.pending.value.at == (day + 1) * DAY_MS
  }

  lemma DayIsOver(day: nat, clock: nat)
    ensures (day + 1) * DAY_MS <= clock <==> DayOf(clock) > day
  {
  }

  lemma SettledTerms(sets: seq<RuleSet>, clock: nat, account: Account, day: nat)
    requires SetOf(sets, account).Some? && WaitsFor(TermsOf(SetOf(sets, account).value), day)
    ensures SetOf(Settled(sets, clock), account).Some?
    ensures var was := TermsOf(SetOf(sets, account).value);
            TermsOf(SetOf(Settled(sets, clock), account).value)
            == if DayOf(clock) > day then Landed(was) else was
  {
    SettledIndex(sets, clock, account);
    DayIsOver(day, clock);
  }

  lemma PlacedOther(sets: seq<RuleSet>, now: nat, who: Account, name: string, on: bool, rules: Rules,
                    account: Account)
    requires who != account && SetOf(sets, account).Some?
    ensures var r := Placed(sets, now, who, name, on, rules);
            r.Ok? ==> SetOf(r.value, account) == SetOf(sets, account)
  {
    var r := Placed(sets, now, who, name, on, rules);
    if r.Ok? {
      IndexIsFirst(r.value, account, IndexOf(sets, account));
    }
  }

  lemma StepTerms(sets: seq<RuleSet>, op: Op, account: Account, day: nat)
    requires SetOf(sets, account).Some? && WaitsFor(TermsOf(SetOf(sets, account).value), day)
    requires Leaves(op, account)
    ensures SetOf(Step(sets, op), account).Some?
    ensures var was := TermsOf(SetOf(sets, account).value);
            TermsOf(SetOf(Step(sets, op), account).value)
            == if SettlesAfter(op, day) then Landed(was) else was
  {
    hide Valid, Settled, Placed, Without;
    match op {
      case Give(now, clock, who, name, on, rules, written) =>
        if Valid(rules) {
          SettledTerms(sets, clock, account, day);
          if who != account {
            PlacedOther(Settled(sets, clock), now, who, name, on, rules, account);
          }
        }
      case Forget(clock, who, written) =>
        SettledTerms(sets, clock, account, day);
        if who != account {
          WithoutOther(Settled(sets, clock), who, account);
        }
      case Ask(clock) =>
        SettledTerms(sets, clock, account, day);
      case Look(who, rules, facts) =>
        IndexIsFirst(Step(sets, op), account, IndexOf(sets, account));
    }
  }

  // ---- Any operations -------------------------------------------------

  lemma {:induction false} StepsTerms(sets: seq<RuleSet>, ops: seq<Op>, account: Account, day: nat)
    requires SetOf(sets, account).Some? && WaitsFor(TermsOf(SetOf(sets, account).value), day)
    requires forall i :: 0 <= i < |ops| ==> Leaves(ops[i], account)
    ensures SetOf(Steps(sets, ops), account).Some?
    ensures var was := TermsOf(SetOf(sets, account).value);
            TermsOf(SetOf(Steps(sets, ops), account).value)
            == if exists i :: 0 <= i < |ops| && SettlesAfter(ops[i], day) then Landed(was) else was
    decreases |ops|
  {
    hide Step, Leaves, SettlesAfter, TermsOf;
    if ops != [] {
      StepTerms(sets, ops[0], account, day);
      var rest := ops[1..];
      assert forall i :: 0 <= i < |rest| ==> rest[i] == ops[i + 1];
      StepsTerms(Step(sets, ops[0]), rest, account, day);
      if exists i :: 0 <= i < |rest| && SettlesAfter(rest[i], day) {
        var i :| 0 <= i < |rest| && SettlesAfter(rest[i], day);
        assert SettlesAfter(ops[i + 1], day);
      }
      if exists i :: 0 < i < |ops| && SettlesAfter(ops[i], day) {
        var i :| 0 < i < |ops| && SettlesAfter(ops[i], day);
        assert SettlesAfter(rest[i - 1], day);
      }
    }
  }

  // A loosening, or turning the rules off, is in force from the first
  // operation that settles on a later day and not before, whatever is done with
  // other accounts, looked at or tried in vain meanwhile; any other change is in
  // force at once. From then on nothing moves it but another change.
  lemma LandsOnMidnight(sets: seq<RuleSet>, now: nat, clock: nat, account: Account, name: string, on: bool,
                        rules: Rules, ops: seq<Op>)
    requires Valid(rules) && SetOf(Settled(sets, clock), account).Some?
    requires forall i :: 0 <= i < |ops| ==> Leaves(ops[i], account)
    ensures var s := SetOf(Settled(sets, clock), account).value;
            var after := SetOf(Steps(Step(sets, Give(now, clock, account, name, on, rules, true)), ops), account);
            && after.Some?
            && TermsOf(after.value)
               == if Waits(s, on, rules)
                     && !(exists i :: 0 <= i < |ops| && SettlesAfter(ops[i], DayOf(now)))
                  then Terms(s.on, s.rules, Some(Pending(on, rules, NextMidnight(now))))
                  else Terms(on, rules, None)
  {
    hide Valid, LooserThan, Settled, Leaves, SettlesAfter;
    var settled := Settled(sets, clock);
    var s := SetOf(settled, account).value;
    var given := Step(sets, Give(now, clock, account, name, on, rules, true));
    IndexIsFirst(given, account, IndexOf(settled, account));
    assert SetOf(given, account) == Some(Changed(s, now, name, on, rules));
    StepsTerms(given, ops, account, DayOf(now));
  }
}
