// When a challenge starts over, whatever is asked of the rules and whichever
// midnights pass: what an account has got to is forgotten then, and only then.
module Challenge {
  import opened Basics
  import opened Rules
  import opened Progress
  import opened RuleBook
  import opened SameDay

  // Turned on or off, or another challenge: of another preset or size.
  predicate Differ(s: RuleSet, t: RuleSet) {
    t.on != s.on || t.rules.preset != s.rules.preset || t.rules.challenge.size != s.rules.challenge.size
  }

  // Only a set that is on has anything to wait with.
  predicate OnToWait(s: RuleSet) { s.pending.Some? ==> s.on }

  // ---- One change -----------------------------------------------------

  lemma LandingStartsOver(s: RuleSet, clock: nat)
    requires OnToWait(s)
    ensures var t := SettleOne(s, clock);
            OnToWait(t) && t.progress == if Differ(s, t) then EMPTY else s.progress
  {
  }

  lemma ChangeStartsOver(s: RuleSet, now: nat, name: string, on: bool, rules: Rules)
    requires OnToWait(s)
    ensures var t := Changed(s, now, name, on, rules);
            OnToWait(t) && t.progress == if Differ(s, t) then EMPTY else s.progress
  {
    hide LooserThan, NextMidnight;
  }

  // A set is turned off, or on again, or given another challenge: at once when it
  // was off, and otherwise only when the change lands.
  lemma ChangeDiffersExactly(s: RuleSet, now: nat, name: string, on: bool, rules: Rules)
    ensures Differ(s, Changed(s, now, name, on, rules))
            <==> !s.on && (on || rules.preset != s.rules.preset || rules.challenge.size != s.rules.challenge.size)
  {
  }

  // An account without a set is given a new one, up to twenty of them, with nothing
  // waiting and nothing got to.
  lemma NewSetIsNew(sets: seq<RuleSet>, now: nat, account: Account, name: string, on: bool, rules: Rules)
    requires SetOf(sets, account).None?
    ensures var r := Placed(sets, now, account, name, on, rules);
            && (r.Ok? <==> |sets| < 20) && (r.Err? ==> r == Err(TooMany))
            && (r.Ok? ==> r.value[..|sets|] == sets
                          && SetOf(r.value, account) == Some(RuleSet(name, on, account, rules, None, EMPTY)))
  {
    if |sets| < 20 {
      IndexIsFirst(sets + [RuleSet(name, on, account, rules, None, EMPTY)], account, |sets|);
    }
  }

  // ---- One operation --------------------------------------------------

  // What an operation first lets land.
  function LandedBy(sets: seq<RuleSet>, op: Op): seq<RuleSet> {
    match op
    case Give(_, clock, _, _, _, rules, _) => if Valid(rules) then Settled(sets, clock) else sets
    case Forget(clock, _, _) => Settled(sets, clock)
    case Ask(clock) => Settled(sets, clock)
    case Look(_, _, _) => sets
  }

  predicate Forgets(op: Op, account: Account) { op.Forget? && op.account == account && op.written }

  predicate LooksAt(op: Op, account: Account) { op.Look? && op.account == account }

  // What lands with it, or what it changes itself, is another challenge.
  predicate StartsOver(sets: seq<RuleSet>, op: Op, account: Account) {
    var s, landed, t := SetOf(sets, account), SetOf(LandedBy(sets, op), account), SetOf(Step(sets, op), account);
    s.Some? && landed.Some? && t.Some? && (Differ(s.value, landed.value) || Differ(landed.value, t.value))
  }

  ghost predicate Going(sets: seq<RuleSet>, account: Account) {
    SetOf(sets, account).Some? && OnToWait(SetOf(sets, account).value)
  }

  lemma SettledOne(sets: seq<RuleSet>, clock: nat, account: Account)
    requires SetOf(sets, account).Some?
    ensures SetOf(Settled(sets, clock), account) == Some(SettleOne(SetOf(sets, account).value, clock))
  {
    SettledIndex(sets, clock, account);
  }

  lemma LandedStartsOver(sets: seq<RuleSet>, op: Op, account: Account)
    requires Going(sets, account)
    ensures Going(LandedBy(sets, op), account)
    ensures var s, landed := SetOf(sets, account).value, SetOf(LandedBy(sets, op), account).value;
            landed.progress == if Differ(s, landed) then EMPTY else s.progress
  {
    hide Valid, SettleOne, Settled;
    var s := SetOf(sets, account).value;
    if !op.Look? {
      var clock := op.clock;
      LandingStartsOver(s, clock);
      SettledOne(sets, clock, account);
    }
  }

  lemma PlacedOne(sets: seq<RuleSet>, now: nat, who: Account, name: string, on: bool, rules: Rules,
                  account: Account)
    requires SetOf(sets, account).Some?
    ensures var r := Placed(sets, now, who, name, on, rules);
            var s := SetOf(sets, account).value;
            r.Ok? ==> SetOf(r.value, account) == Some(if who == account then Changed(s, now, name, on, rules) else s)
  {
    hide Changed;
    var r := Placed(sets, now, who, name, on, rules);
    if r.Ok? {
      var i := IndexOf(sets, who);
      if i < |sets| {
        ChangedAccount(sets[i], now, name, on, rules);
      }
      IndexIsFirst(r.value, account, IndexOf(sets, account));
    }
  }

  lemma ChangedAccount(s: RuleSet, now: nat, name: string, on: bool, rules: Rules)
    ensures Changed(s, now, name, on, rules).account == s.account
  {
  }

  // Of any operation that isn't to forget the account: what it has got to is new
  // if another challenge started, is moved on by a look, and is kept otherwise.
  lemma StepStartsOver(sets: seq<RuleSet>, op: Op, account: Account)
    requires Going(sets, account) && !Forgets(op, account)
    ensures Going(Step(sets, op), account)
    ensures var s, t := SetOf(sets, account).value, SetOf(Step(sets, op), account).value;
            t.progress == if LooksAt(op, account) then Observed(op.rules, s.progress, op.facts)
                          else if StartsOver(sets, op, account) then EMPTY else s.progress
    ensures LooksAt(op, account) ==> !StartsOver(sets, op, account)
  {
    hide Valid, Settled, Placed, Without, Observed, Changed, SettleOne;
    LandedStartsOver(sets, op, account);
    var landed := LandedBy(sets, op);
    var s := SetOf(landed, account).value;
    match op {
      case Give(now, clock, who, name, on, rules, written) =>
        if Valid(rules) {
          PlacedOne(landed, now, who, name, on, rules, account);
          ChangeStartsOver(s, now, name, on, rules);
        }
      case Forget(clock, who, written) =>
        if who != account {
          WithoutOther(landed, who, account);
        }
      case Ask(clock) =>
      case Look(who, rules, facts) =>
        IndexIsFirst(Step(sets, op), account, IndexOf(sets, account));
    }
  }

  // ---- Any operations -------------------------------------------------

  // What is left of some progress by the looks among some operations.
  function LookedAt(p: Progress, ops: seq<Op>, account: Account): Progress {
    if ops == [] then p
    else
      var op := ops[|ops| - 1];
      var q := LookedAt(p, ops[..|ops| - 1], account);
      if LooksAt(op, account) then Observed(op.rules, q, op.facts) else q
  }

  // Whether the operation at `k` started another challenge.
  predicate StartsOverAt(sets: seq<RuleSet>, ops: seq<Op>, k: nat, account: Account)
    requires k < |ops|
  {
    StartsOver(Steps(sets, ops[..k]), ops[k], account)
  }

  lemma {:induction false} StepsThenStep(sets: seq<RuleSet>, ops: seq<Op>)
    requires ops != []
    ensures Steps(sets, ops) == Step(Steps(sets, ops[..|ops| - 1]), ops[|ops| - 1])
    decreases |ops|
  {
    hide Step;
    if |ops| > 1 {
      var rest := ops[1..];
      StepsThenStep(Step(sets, ops[0]), rest);
      assert rest[..|rest| - 1] == ops[..|ops| - 1][1..];
    } else {
      assert ops[..0] == [] && ops[1..] == [];
    }
  }

  lemma {:induction false} GoesOn(sets: seq<RuleSet>, ops: seq<Op>, account: Account)
    requires Going(sets, account)
    requires forall i :: 0 <= i < |ops| ==> !Forgets(ops[i], account)
    ensures Going(Steps(sets, ops), account)
    decreases |ops|
  {
    hide Step, Going;
    if ops != [] {
      var n := |ops| - 1;
      GoesOn(sets, ops[..n], account);
      StepsThenStep(sets, ops);
      StepStartsOver(Steps(sets, ops[..n]), ops[n], account);
    }
  }

  // What an account has got to is what the looks since the last other challenge
  // make of none, or, if there was no other, of what it had got to before: any
  // changes, of any accounts, over any midnights, and failed ones.
  lemma {:induction false} ProgressExactly(sets: seq<RuleSet>, ops: seq<Op>, account: Account, k: nat)
    requires Going(sets, account) && k <= |ops|
    requires forall i :: 0 <= i < |ops| ==> !Forgets(ops[i], account)
    requires k > 0 ==> StartsOverAt(sets, ops, k - 1, account)
    requires forall i :: k <= i < |ops| ==> !StartsOverAt(sets, ops, i, account)
    ensures Going(Steps(sets, ops), account)
    ensures SetOf(Steps(sets, ops), account).value.progress
            == LookedAt(if k == 0 then SetOf(sets, account).value.progress else EMPTY, ops[k..], account)
    decreases |ops|
  {
    hide Step, StartsOver, Observed;
    GoesOn(sets, ops, account);
    if ops != [] {
      var n := |ops| - 1;
      var before := ops[..n];
      GoesOn(sets, before, account);
      StepsThenStep(sets, ops);
      StepStartsOver(Steps(sets, before), ops[n], account);
      if k <= n {
        forall i: nat | i < n ensures StartsOverAt(sets, before, i, account) == StartsOverAt(sets, ops, i, account) {
          assert before[..i] == ops[..i];
        }
        ProgressExactly(sets, before, account, k);
        assert ops[k..][..|ops[k..]| - 1] == before[k..];
        assert !StartsOverAt(sets, ops, n, account);
      } else {
        assert StartsOverAt(sets, ops, n, account);
        assert ops[k..] == [];
      }
    }
  }

  // Without a look at it, it is new exactly if another challenge started.
  lemma {:induction false} NewExactly(sets: seq<RuleSet>, ops: seq<Op>, account: Account)
    requires Going(sets, account)
    requires forall i :: 0 <= i < |ops| ==> !Forgets(ops[i], account) && !LooksAt(ops[i], account)
    ensures Going(Steps(sets, ops), account)
    ensures SetOf(Steps(sets, ops), account).value.progress
            == if exists i: nat :: i < |ops| && StartsOverAt(sets, ops, i, account) then EMPTY
               else SetOf(sets, account).value.progress
    decreases |ops|
  {
    hide Step, StartsOver;
    GoesOn(sets, ops, account);
    if ops != [] {
      var n := |ops| - 1;
      var before := ops[..n];
      NewExactly(sets, before, account);
      StepsThenStep(sets, ops);
      StepStartsOver(Steps(sets, before), ops[n], account);
      forall i: nat | i < n ensures StartsOverAt(sets, before, i, account) == StartsOverAt(sets, ops, i, account) {
        assert before[..i] == ops[..i];
      }
      assert StartsOverAt(sets, ops, n, account) == StartsOver(Steps(sets, before), ops[n], account);
    }
  }

  // ---- A failed challenge ---------------------------------------------

  // The same challenge, no less far: failed for good, with the same time, and no
  // peak any lower.
  predicate NoLess(p: Progress, q: Progress) {
    && (p.failedAt.Some? ==> q.failedAt == p.failedAt)
    && q.peak >= p.peak && q.eodPeak >= p.eodPeak
    && (p.startedAt != 0 ==> q.startedAt == p.startedAt)
  }

  lemma {:induction false} LooksTakeNothing(p: Progress, ops: seq<Op>, account: Account)
    ensures NoLess(p, LookedAt(p, ops, account))
  {
    if ops != [] {
      LooksTakeNothing(p, ops[..|ops| - 1], account);
    }
  }

  // An operation that leaves the account on and on the same challenge: any change
  // of its other rules will do, and anything done to another account.
  predicate Gentle(op: Op, account: Account, preset: Preset, size: real) {
    match op
    case Give(_, _, who, _, on, rules, _) =>
      who == account ==> on && rules.preset == preset && rules.challenge.size == size
    case Forget(_, who, _) => who != account
    case _ => true
  }

  // A set that is on, and will stay on, and on that challenge.
  predicate StaysOn(s: RuleSet, preset: Preset, size: real) {
    && s.on && s.rules.preset == preset && s.rules.challenge.size == size
    && (s.pending.Some? ==>
          s.pending.value.on && s.pending.value.rules.preset == preset && s.pending.value.rules.challenge.size == size)
  }

  lemma LandingStaysOn(s: RuleSet, clock: nat, preset: Preset, size: real)
    requires StaysOn(s, preset, size)
    ensures StaysOn(SettleOne(s, clock), preset, size)
  {
  }

  lemma ChangeStaysOn(s: RuleSet, now: nat, name: string, rules: Rules, preset: Preset, size: real)
    requires StaysOn(s, preset, size) && rules.preset == preset && rules.challenge.size == size
    ensures StaysOn(Changed(s, now, name, true, rules), preset, size)
  {
    hide LooserThan, NextMidnight;
  }

  lemma NeverDiffer(s: RuleSet, t: RuleSet, preset: Preset, size: real)
    requires StaysOn(s, preset, size) && StaysOn(t, preset, size)
    ensures !Differ(s, t) && OnToWait(s)
  {
  }

  lemma LandedStaysOn(sets: seq<RuleSet>, op: Op, account: Account, preset: Preset, size: real)
    requires SetOf(sets, account).Some? && StaysOn(SetOf(sets, account).value, preset, size)
    ensures SetOf(LandedBy(sets, op), account).Some?
    ensures StaysOn(SetOf(LandedBy(sets, op), account).value, preset, size)
  {
    hide Valid, Settled, SettleOne, StaysOn;
    if !op.Look? {
      SettledOne(sets, op.clock, account);
      LandingStaysOn(SetOf(sets, account).value, op.clock, preset, size);
    }
  }

  lemma StepStaysOn(sets: seq<RuleSet>, op: Op, account: Account, preset: Preset, size: real)
    requires SetOf(sets, account).Some? && StaysOn(SetOf(sets, account).value, preset, size)
    requires Gentle(op, account, preset, size)
    ensures SetOf(Step(sets, op), account).Some? && StaysOn(SetOf(Step(sets, op), account).value, preset, size)
  {
    hide Valid, Settled, Placed, Without, Observed, Changed;
    LandedStaysOn(sets, op, account, preset, size);
    var landed := LandedBy(sets, op);
    match op {
      case Give(now, clock, who, name, on, rules, written) =>
        if Valid(rules) {
          PlacedOne(landed, now, who, name, on, rules, account);
          if who == account {
            ChangeStaysOn(SetOf(landed, account).value, now, name, rules, preset, size);
          }
        }
      case Forget(clock, who, written) =>
        WithoutOther(landed, who, account);
      case Ask(clock) =>
      case Look(who, rules, facts) =>
        IndexIsFirst(Step(sets, op), account, IndexOf(sets, account));
    }
  }

  lemma GentleStaysOn(sets: seq<RuleSet>, op: Op, account: Account, preset: Preset, size: real)
    requires SetOf(sets, account).Some? && StaysOn(SetOf(sets, account).value, preset, size)
    requires Gentle(op, account, preset, size)
    ensures !StartsOver(sets, op, account) && !Forgets(op, account) && Going(sets, account)
    ensures SetOf(Step(sets, op), account).Some? && StaysOn(SetOf(Step(sets, op), account).value, preset, size)
  {
    hide StaysOn, Differ, OnToWait, Step, LandedBy;
    StepStaysOn(sets, op, account, preset, size);
    LandedStaysOn(sets, op, account, preset, size);
    var s, landed := SetOf(sets, account).value, SetOf(LandedBy(sets, op), account).value;
    NeverDiffer(s, landed, preset, size);
    NeverDiffer(landed, SetOf(Step(sets, op), account).value, preset, size);
  }

  // So however its limits are loosened or tightened, over any midnights, an
  // account kept on the same challenge stays failed if it was, and no peak falls.
  lemma {:induction false} FailedStaysFailed(sets: seq<RuleSet>, ops: seq<Op>, account: Account,
                                             preset: Preset, size: real)
    requires SetOf(sets, account).Some? && StaysOn(SetOf(sets, account).value, preset, size)
    requires forall i :: 0 <= i < |ops| ==> Gentle(ops[i], account, preset, size)
    ensures SetOf(Steps(sets, ops), account).Some? && StaysOn(SetOf(Steps(sets, ops), account).value, preset, size)
    ensures NoLess(SetOf(sets, account).value.progress, SetOf(Steps(sets, ops), account).value.progress)
    decreases |ops|
  {
    hide Step, Gentle, StaysOn, Raised, Locked;
    if ops != [] {
      GentleStaysOn(sets, ops[0], account, preset, size);
      StepStartsOver(sets, ops[0], account);
      var next := Step(sets, ops[0]);
      assert forall i :: 0 <= i < |ops[1..]| ==> ops[1..][i] == ops[i + 1];
      FailedStaysFailed(next, ops[1..], account, preset, size);
      if LooksAt(ops[0], account) {
        OneLookTakesNothing(ops[0].rules, SetOf(sets, account).value.progress, ops[0].facts);
      }
    }
  }

  lemma OneLookTakesNothing(rules: Rules, p: Progress, facts: Facts)
    ensures NoLess(p, Observed(rules, p, facts))
  {
  }
}
