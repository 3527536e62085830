// What a set of rules may say, and which changes of it take effect at once, said of
// each setting by itself.
module Settings {
  import opened Basics
  import opened Rules
  import opened RuleBook
  import opened Text

  // ---- Times of day ---------------------------------------------------

  // Two characters that read as a number: two digits, or a plus and one.
  predicate Reads(a: char, b: char, n: nat) {
    && '0' <= b <= '9'
    && (('0' <= a <= '9' && n == 10 * (a as int - '0' as int) + (b as int - '0' as int))
        || (a == '+' && n == b as int - '0' as int))
  }

  predicate IsTime(text: string, h: nat, m: nat) {
    |text| == 5 && text[2] == ':' && Reads(text[0], text[1], h) && Reads(text[3], text[4], m) && h < 24 && m < 60
  }

  lemma TwoRead(a: char, b: char, n: nat)
    ensures ParseU64([a, b]) == Some(n) <==> Reads(a, b, n)
  {
    assert [a, b][1..] == [b] && [a, b][..1] == [a];
    assert [a][..0] == [] && [b][..0] == [];
    assert a == '+' && IsDigit(b) ==> DigitsValue([b]) == DigitValue(b);
    assert IsDigit(a) ==> DigitsValue([a]) == DigitValue(a);
    assert a == '+' ==> (AllDigits([b]) <==> IsDigit(b));
    assert a != '+' ==> (AllDigits([a, b]) <==> IsDigit(a) && IsDigit(b)) by {
      assert [a, b][0] == a && [a, b][1] == b;
    }
  }

  lemma SplitAtTwo(text: string)
    ensures |text| == 5 && text[2] == ':' && text[0] != ':' && text[1] != ':' ==>
      SplitOnce(text, ':') == Some((text[..2], text[3..]))
    ensures SplitOnce(text, ':').Some? && |SplitOnce(text, ':').value.0| == 2 && |SplitOnce(text, ':').value.1| == 2
      ==> |text| == 5 && text[2] == ':' && text[0] != ':' && text[1] != ':'
  {
    if SplitOnce(text, ':').Some? {
      var (a, b) := SplitOnce(text, ':').value;
      assert |text| == |a| + 1 + |b| && text[|a|] == ':';
      assert forall i :: 0 <= i < |a| ==> text[i] == a[i];
      if |text| == 5 && text[2] == ':' && text[0] != ':' && text[1] != ':' {
        assert |a| == 2;
        assert text[..2] == a && text[3..] == b;
      }
    }
  }

  // A clock reads "HH:MM", and takes a plus for the first digit of either.
  lemma ClockExactly(text: string, h: nat, m: nat)
    requires m < 60
    ensures Clock(text) == Some(h * 60 + m) <==> IsTime(text, h, m)
  {
    hide ParseU64, SplitOnce, Reads;
    SplitAtTwo(text);
    if |text| == 5 && text[2] == ':' && text[0] != ':' && text[1] != ':' {
      assert text[..2] == [text[0], text[1]] && text[3..] == [text[3], text[4]];
      forall n: nat
        ensures ParseU64([text[0], text[1]]) == Some(n) <==> Reads(text[0], text[1], n)
        ensures ParseU64([text[3], text[4]]) == Some(n) <==> Reads(text[3], text[4], n)
      {
        TwoRead(text[0], text[1], n);
        TwoRead(text[3], text[4], n);
      }
      var hour, minute := ParseU64([text[0], text[1]]), ParseU64([text[3], text[4]]);
      if hour.Some? && minute.Some? && minute.value < 60 {
        OneReading(hour.value, minute.value, h, m);
      }
    } else {
      ColonIsNoDigit(text, h);
    }
  }

  lemma OneReading(i: nat, j: nat, h: nat, m: nat)
    requires j < 60 && m < 60
    ensures i * 60 + j == h * 60 + m <==> i == h && j == m
  {
  }

  lemma ColonIsNoDigit(text: string, h: nat)
    ensures |text| == 5 && Reads(text[0], text[1], h) ==> text[0] != ':' && text[1] != ':'
  {
  }

  predicate IsTimeOfDay(text: string) { exists h: nat, m: nat | h < 24 && m < 60 :: IsTime(text, h, m) }

  lemma ClockReadsTimes(text: string)
    ensures Clock(text).Some? <==> IsTimeOfDay(text)
  {
    hide Clock, IsTime;
    if Clock(text).Some? {
      var t := Clock(text).value;
      ClockExactly(text, t / 60, t % 60);
    }
    if IsTimeOfDay(text) {
      var h: nat, m: nat :| h < 24 && m < 60 && IsTime(text, h, m);
      ClockExactly(text, h, m);
    }
  }

  // ---- Which numbers are rules ----------------------------------------

  lemma ValidExactly(r: Rules)
    ensures Valid(r) <==>
      && 1.0 <= r.challenge.size <= 1e12 && 1.0 <= r.position.usd <= 1e12
      && 0.01 <= r.challenge.dailyPct <= 100.0 && 0.01 <= r.challenge.maxPct <= 100.0
      && 0.01 <= r.tradeLoss.pct <= 100.0 && 0.0 <= r.challenge.targetPct <= 1000.0
      && 0.01 <= r.position.leverage <= 1000.0 && 1.0 <= r.tradesPerDay <= 10000.0
      && 0.0 <= r.challenge.minDays <= 365.0 && 0.0 <= r.challenge.maxDays <= 3650.0
      && 0.0 <= r.news.minutes <= 1440.0 && 0.0 <= r.coolOff.minutes <= 1440.0
      && 0.0 <= r.tilt.revenge.minutes <= 1440.0 && 1.0 <= r.coolOff.losses <= 100.0
      && 1.0 <= r.tilt.sizeCreep.factor <= 100.0 && 1.0 <= r.tilt.overtrading.factor <= 100.0
      && IsTimeOfDay(r.hours.from) && IsTimeOfDay(r.hours.to)
  {
    hide Clock, IsTimeOfDay;
    ClockReadsTimes(r.hours.from);
    ClockReadsTimes(r.hours.to);
  }

  // ---- Changes that take effect at once -------------------------------

  // The minutes of the day from one time until the clock next shows another.
  predicate OpenMinute(hours: Hours, minute: nat) {
    && Clock(hours.from).Some? && Clock(hours.to).Some?
    && minute < 1440
    && var from, to := Clock(hours.from).value, Clock(hours.to).value;
       (minute - from) % 1440 < (to - from) % 1440
  }

  lemma WindowIsOpenMinutes(hours: Hours, minute: nat)
    ensures minute in Window(hours) <==> OpenMinute(hours, minute)
  {
    hide Covers, Clock;
    if Clock(hours.from).Some? && Clock(hours.to).Some? && minute < 1440 {
      CoversByTheClock(Clock(hours.from).value, Clock(hours.to).value, minute);
    }
  }

  lemma CoversByTheClock(from: nat, to: nat, minute: nat)
    requires from < 1440 && to < 1440 && minute < 1440
    ensures Covers(from, to, minute) <==> (minute - from) % 1440 < (to - from) % 1440
  {
  }

  // As much held to as before in every respect.
  predicate AsTight(next: Rules, was: Rules) {
    && next.preset == was.preset && next.challenge.size == was.challenge.size
    && (was.breach == Lock ==> next.breach == Lock) && (was.breach == WarnLock ==> next.breach != Warn)
    && next.challenge.dailyFrom == was.challenge.dailyFrom && next.challenge.maxKind == was.challenge.maxKind
    && next.challenge.dailyPct <= was.challenge.dailyPct && next.challenge.maxPct <= was.challenge.maxPct
    && next.tradeLoss.pct <= was.tradeLoss.pct
    && (was.tradeLoss.mode == NeedStop ==> next.tradeLoss.mode == NeedStop)
    && next.position.usd <= was.position.usd && next.position.leverage <= was.position.leverage
    && next.tradesPerDay <= was.tradesPerDay
    && (was.hours.days == Weekdays ==> next.hours.days == Weekdays)
    && (forall minute: nat | minute < 1440 :: OpenMinute(next.hours, minute) ==> OpenMinute(was.hours, minute))
    && (was.news.on ==> next.news.on && next.news.minutes >= was.news.minutes)
    && next.coolOff.losses <= was.coolOff.losses && next.coolOff.minutes >= was.coolOff.minutes
    && (was.tilt.revenge.on ==>
          && next.tilt.revenge.on && next.tilt.revenge.minutes >= was.tilt.revenge.minutes
          && (was.tilt.revenge.mode == CoolOffAfter ==> next.tilt.revenge.mode == CoolOffAfter))
  }

  lemma LooserExactly(next: Rules, was: Rules)
    ensures LooserThan(next, was) <==> !AsTight(next, was)
  {
    hide Window, OpenMinute;
    forall minute: nat
      ensures minute in Window(next.hours) <==> OpenMinute(next.hours, minute)
      ensures minute in Window(was.hours) <==> OpenMinute(was.hours, minute)
    {
      WindowIsOpenMinutes(next.hours, minute);
      WindowIsOpenMinutes(was.hours, minute);
    }
    assert forall minute :: minute in Window(next.hours) ==> minute < 1440 by { WindowIsOfMinutes(next.hours); }
  }

  lemma WindowIsOfMinutes(hours: Hours)
    ensures forall minute :: minute in Window(hours) ==> minute < 1440
  {
  }

  // Given to a set that is on, rules are in force at once exactly if it stays on and
  // they are as tight in every respect; a set that is off takes any.
  lemma AtOnceExactly(s: RuleSet, now: nat, name: string, on: bool, rules: Rules)
    ensures var t := Changed(s, now, name, on, rules);
            && (t.on == on && t.rules == rules <==> !s.on || (on && AsTight(rules, s.rules)))
            && (t.pending.Some? <==> s.on && !(on && AsTight(rules, s.rules)))
            && (t.pending.Some? ==> t.on == s.on && t.rules == s.rules
                                    && t.pending.value.on == on && t.pending.value.rules == rules)
            && t.name == name && t.account == s.account
  {
    hide LooserThan, AsTight, NextMidnight, Restarts;
    LooserExactly(rules, s.rules);
    LooserExactly(s.rules, s.rules);
    NoLooserThanItself(s.rules);
  }

  lemma NoLooserThanItself(r: Rules)
    ensures AsTight(r, r)
  {
  }
}
