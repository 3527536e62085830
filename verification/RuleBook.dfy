// Every account's set of rules, and the changes to them: a tightening applies
// at once, a loosening waits for 00:00 UTC.
module RuleBook {
  import opened Accounts
  import opened Basics
  import opened Rules
  import opened Progress

  const MAX_SETS := 20

  datatype Account = Account(venue: Venue, id: string)
  datatype Pending = Pending(on: bool, rules: Rules, at: nat)
  datatype RuleSet = RuleSet(
    name: string, on: bool, account: Account, rules: Rules, pending: Option<Pending>,
    progress: Progress)

  datatype Refusal = OutOfRange | TooMany | NotSaved

  // ---- What each operation comes to -----------------------------------

  predicate Due(s: RuleSet, now: nat) { s.pending.Some? && s.pending.value.at <= now }

  // A change that is due replaces the rules; the progress is new with a new
  // challenge, and whenever the rules end up off.
  function SettleOne(s: RuleSet, now: nat): RuleSet {
    if !Due(s, now) then s
    else
      var p := s.pending.value;
      s.(on := p.on, rules := p.rules, pending := None,
         progress := if Restarts(p.rules, s.rules) || !p.on then EMPTY else s.progress)
  }

  function Settled(sets: seq<RuleSet>, now: nat): (r: seq<RuleSet>)
    ensures |r| == |sets|
  {
    seq(|sets|, i requires 0 <= i < |sets| => SettleOne(sets[i], now))
  }

  // Where the account's set is, or the end if it has none.
  function IndexOf(sets: seq<RuleSet>, account: Account): (i: nat)
    ensures i <= |sets|
    ensures i < |sets| ==> sets[i].account == account
    ensures forall j :: 0 <= j < i ==> sets[j].account != account
  {
    if sets == [] then 0
    else if sets[0].account == account then 0
    else 1 + IndexOf(sets[1..], account)
  }

  function NextMidnight(now: nat): nat { (DayOf(now) + 1) * DAY_MS }

  predicate Waits(s: RuleSet, on: bool, rules: Rules) {
    s.on && (!on || LooserThan(rules, s.rules))
  }

  // A set as it is once its account's rules have been given again.
  function Changed(s: RuleSet, now: nat, name: string, on: bool, rules: Rules): RuleSet {
    if Waits(s, on, rules) then
      s.(name := name, pending := Some(Pending(on, rules, NextMidnight(now))))
    else
      RuleSet(name, on, s.account, rules, None,
              if (!s.on && on) || Restarts(rules, s.rules) then EMPTY else s.progress)
  }

  function Placed(sets: seq<RuleSet>, now: nat, account: Account, name: string, on: bool,
                  rules: Rules): Result<seq<RuleSet>, Refusal>
  {
    var i := IndexOf(sets, account);
    if i < |sets| then Ok(sets[i := Changed(sets[i], now, name, on, rules)])
    else if |sets| >= MAX_SETS then Err(TooMany)
    else Ok(sets + [RuleSet(name, on, account, rules, None, EMPTY)])
  }

  function Without(sets: seq<RuleSet>, account: Account): seq<RuleSet> {
    if sets == [] then []
    else if sets[0].account == account then Without(sets[1..], account)
    else [sets[0]] + Without(sets[1..], account)
  }

  function InForceIn(sets: seq<RuleSet>, account: Account): Option<Rules> {
    if sets == [] then None
    else if sets[0].on && sets[0].account == account then Some(sets[0].rules)
    else InForceIn(sets[1..], account)
  }

  function Stood(sets: seq<RuleSet>, account: Account, rules: Rules, facts: Facts): seq<RuleSet> {
    var i := IndexOf(sets, account);
    if i == |sets| then sets
    else sets[i := sets[i].(progress := Observed(rules, sets[i].progress, facts))]
  }

  // ---- The rules as an engine keeps them ------------------------------

  class TradingRules {
    // In memory, and as last written to the file.
    var sets: seq<RuleSet>
    var file: seq<RuleSet>

    constructor (kept: seq<RuleSet>)
      ensures sets == file == kept
    {
      sets, file := kept, kept;
    }

    // Goes through the sets in place and applies what is due.
    method Settle(now: nat)
      modifies this`sets
      ensures sets == Settled(old(sets), now)
      ensures forall i :: 0 <= i < |sets| ==>
        var was, waiting := old(sets)[i], old(sets)[i].pending;
        sets[i].progress == if waiting.Some? && waiting.value.at <= now
                               && (|| !waiting.value.on || waiting.value.rules.preset != was.rules.preset
                                   || waiting.value.rules.challenge.size != was.rules.challenge.size)
                            then EMPTY else was.progress
    {
      var i := 0;
      while i < |sets|
        invariant 0 <= i <= |sets| == |old(sets)|
        invariant forall j :: 0 <= j < i ==> sets[j] == SettleOne(old(sets)[j], now)
        invariant forall j :: i <= j < |sets| ==> sets[j] == old(sets)[j]
      {
        var s := sets[i];
        if s.pending.Some? && s.pending.value.at <= now {
          var p := s.pending.value;
          s := s.(pending := None);
          if Restarts(p.rules, s.rules) || !p.on {
            s := s.(progress := EMPTY);
          }
          s := s.(on := p.on);
          s := s.(rules := p.rules);
          sets := sets[i := s];
        }
        i := i + 1;
      }
    }

    // Takes an account's rules: asked for at `now`, settled at `clock`, and
    // `written` if the file could be. Anything that fails leaves everything
    // as it was once settled.
    method Set(now: nat, clock: nat, account: Account, name: string, on: bool, rules: Rules,
               written: bool)
      returns (r: Result<(), Refusal>)
      modifies this
      ensures !Valid(rules) ==> r == Err(OutOfRange) && sets == old(sets)
      ensures r.Ok? ==>
        Ok(sets) == Placed(Settled(old(sets), clock), now, account, name, on, rules)
        && file == sets
      ensures r.Err? ==> file == old(file)
      ensures r.Err? && Valid(rules) ==> sets == Settled(old(sets), clock)
      ensures Valid(rules) ==>
        (r.Ok? <==> written && Placed(Settled(old(sets), clock), now, account, name, on, rules).Ok?)
    {
      if !Valid(rules) {
        return Err(OutOfRange);
      }
      Settle(clock);
      var before := sets;
      var i := 0;
      while i < |sets| && sets[i].account != account
        invariant 0 <= i <= |sets|
        invariant forall j :: 0 <= j < i ==> sets[j].account != account
      {
        i := i + 1;
      }
      if i == |sets| {
        if |sets| >= MAX_SETS {
          return Err(TooMany);
        }
        sets := sets + [RuleSet(name, on, account, rules, None, EMPTY)];
      } else {
        var s := sets[i].(name := name);
        if s.on && (!on || LooserThan(rules, s.rules)) {
          s := s.(pending := Some(Pending(on, rules, (DayOf(now) + 1) * DAY_MS)));
        } else {
          if (!s.on && on) || Restarts(rules, s.rules) {
            s := s.(progress := EMPTY);
          }
          s := s.(on := on);
          s := s.(rules := rules);
          s := s.(pending := None);
        }
        sets := sets[i := s];
      }
      if !written {
        sets := before;
        return Err(NotSaved);
      }
      file := sets;
      r := Ok(());
    }

    // Forgets an account's rules at once.
    method Remove(clock: nat, account: Account, written: bool) returns (r: Result<(), Refusal>)
      modifies this
      ensures written ==> r.Ok? && sets == file == Without(Settled(old(sets), clock), account)
      ensures !written ==> r == Err(NotSaved) && sets == Settled(old(sets), clock) && file == old(file)
    {
      Settle(clock);
      var left := [];
      var i := |sets|;
      while i > 0
        invariant 0 <= i <= |sets|
        invariant left == Without(sets[i..], account)
      {
        i := i - 1;
        assert sets[i..][1..] == sets[i + 1..];
        if sets[i].account != account {
          left := [sets[i]] + left;
        }
      }
      if !written {
        return Err(NotSaved);
      }
      assert sets[0..] == sets;
      sets := left;
      file := sets;
      r := Ok(());
    }

    // The rules in force for an account, if any are.
    method InForce(clock: nat, account: Account) returns (rules: Option<Rules>)
      modifies this`sets
      ensures sets == Settled(old(sets), clock)
      ensures rules == InForceIn(sets, account)
    {
      Settle(clock);
      var i := 0;
      while i < |sets|
        invariant 0 <= i <= |sets|
        invariant InForceIn(sets, account) == InForceIn(sets[i..], account)
      {
        if sets[i].on && sets[i].account == account {
          return Some(sets[i].rules);
        }
        i := i + 1;
      }
      rules := None;
    }

    // Where the facts leave the account, its progress kept; an account without
    // a set is only looked at.
    method Stand(account: Account, rules: Rules, facts: Facts, written: bool)
      returns (status: Status)
      requires Valid(rules)
      modifies this
      ensures sets == Stood(old(sets), account, rules, facts)
      ensures var i := IndexOf(old(sets), account);
        var p := if i < |old(sets)| then old(sets)[i].progress else EMPTY;
        status == StatusOf(rules, Observed(rules, p, facts), facts)
      ensures file == if written && sets != old(sets) then sets else old(file)
    {
      var i := IndexOf(sets, account);
      if i == |sets| {
        var nowhere;
        nowhere, status := Observe(rules, EMPTY, facts);
        return;
      }
      var before := sets[i].progress;
      var progress;
      progress, status := Observe(rules, before, facts);
      sets := sets[i := sets[i].(progress := progress)];
      assert progress == before ==> sets == old(sets);
      if progress != before && written {
        assert sets[i] != old(sets)[i];
        file := sets;
      }
    }
  }
}
