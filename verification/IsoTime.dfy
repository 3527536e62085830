// Times as text: reading ISO 8601, and printing a time to the minute. Text is
// bytes here, one character each.
module IsoTime {
  import opened Basics
  import opened Text
  import opened Calendar

  // ---- Reading --------------------------------------------------------

  // The number at some digits of the text.
  function Num(s: string, from: nat, to: nat): Option<nat>
    requires from <= to <= |s|
  {
    if AllDigits(s[from..to]) then ParseU64(s[from..to]) else None
  }

  function LeadingDigits(s: string): (n: nat)
    ensures n <= |s| && AllDigits(s[..n]) && (n < |s| ==> !IsDigit(s[n]))
  {
    if s != [] && IsDigit(s[0]) then
      var n := LeadingDigits(s[1..]);
      assert s[..n + 1] == [s[0]] + s[1..][..n];
      n + 1
    else 0
  }

  // Up to three digits, made three with zeros on the right.
  function Milli(digits: string): string {
    if |digits| >= 3 then digits[..3]
    else if |digits| == 2 then digits + "0"
    else if |digits| == 1 then digits + "00"
    else "000"
  }

  // What follows the seconds: the milliseconds, and the zone that is left.
  function ReadFraction(rest: string): Option<(nat, string)> {
    if rest != [] && rest[0] == '.' then
      var frac := rest[1..];
      var digits := LeadingDigits(frac);
      if digits == 0 then None
      else
        match ParseU64(Milli(frac[..digits]))
        case Some(ms) => Some((ms, frac[digits..]))
        case None => None
    else Some((0, rest))
  }

  // The zone's offset from UTC in seconds.
  function ReadZone(zone: string): Option<int> {
    if zone == "Z" then Some(0)
    else if |zone| == 6 && (zone[0] == '+' || zone[0] == '-') && zone[3] == ':' then
      match (ParseI64(zone[1..3]), ParseI64(zone[4..6]))
      case (Some(hours), Some(minutes)) =>
        var offset: int := hours * 3600 + minutes * 60;
        Some(if zone[0] == '-' then 0 - offset else offset)
      case _ => None
    else None
  }

  // The date and time of day, as the digits stand. What is between the hour,
  // the minute and the second isn't looked at.
  function ReadClock(date: string): Option<(Date, nat, nat, nat)>
    requires |date| >= 19
  {
    match (Num(date, 0, 4), Num(date, 5, 7), Num(date, 8, 10))
    case (Some(year), Some(month), Some(day)) =>
      (match (Num(date, 11, 13), Num(date, 14, 16), Num(date, 17, 19))
       case (Some(hour), Some(minute), Some(second)) => Some((Date(year, month, day), hour, minute, second))
       case _ => None)
    case _ => None
  }

  predicate InRange(d: Date, hour: nat, minute: nat, second: nat) {
    1970 <= d.year <= 2200 && 1 <= d.month <= 12 && 1 <= d.day <= 31
    && hour < 24 && minute < 60 && second <= 60
  }

  // What a text is read as, in milliseconds; nothing if it isn't taken.
  function Read(text: string): Option<nat> {
    var date := Trim(text);
    if |date| < 20 || date[4] != '-' || date[7] != '-' || date[10] != 'T' then None
    else
      match (ReadClock(date), ReadFraction(date[19..]))
      case (Some((d, hour, minute, second)), Some((millis, zone))) =>
        (match ReadZone(zone)
         case None => None
         case Some(offset) =>
           if !InRange(d, hour, minute, second) then None
           else
             var seconds := DaysFromCivil(d.year, d.month, d.day) * 86400
                            + hour * 3600 + minute * 60 + second - offset;
             if seconds < 0 then None else Some(seconds * 1000 + millis))
      case _ => None
  }

  // ---- Writing --------------------------------------------------------

  // A zone: "Z", or a numeric offset, of up to 99 hours where RFC 3339 (section
  // 5.6) stops at 23.
  datatype Zone = Zulu | Ahead(hours: nat, minutes: nat) | Behind(hours: nat, minutes: nat)

  predicate ValidZone(z: Zone) { z.Zulu? || (z.hours < 100 && z.minutes < 60) }

  function OffsetOf(z: Zone): int {
    match z
    case Zulu => 0
    case Ahead(h, m) => h * 3600 + m * 60
    case Behind(h, m) => 0 - (h * 3600 + m * 60)
  }

  function ZoneText(z: Zone): string
    requires ValidZone(z)
  {
    match z
    case Zulu => "Z"
    case Ahead(h, m) => "+" + Pad2(h) + ":" + Pad2(m)
    case Behind(h, m) => "-" + Pad2(h) + ":" + Pad2(m)
  }

  predicate ValidYear(year: int) { 1970 <= year <= 2200 }

  function DateText(d: Date): string
    requires ValidDate(d) && ValidYear(d.year)
  {
    Decimal(d.year) + "-" + Pad2(d.month) + "-" + Pad2(d.day)
  }

  function ClockText(second: nat): string
    requires second < 86400
  {
    Pad2(second / 3600) + ":" + Pad2(second / 60 % 60) + ":" + Pad2(second % 60)
  }

  // A local date and second of the day, with any digits of a second's fraction,
  // laid out as in RFC 3339 (section 5.6).
  function Write(d: Date, second: nat, fraction: string, zone: Zone): string
    requires ValidDate(d) && ValidYear(d.year) && second < 86400
    requires AllDigits(fraction) && ValidZone(zone)
  {
    DateText(d) + "T" + ClockText(second)
    + (if fraction == [] then [] else "." + fraction) + ZoneText(zone)
  }

  // A time as UTC, to the minute.
  function Print(ms: nat): string
    requires ValidYear(CivilFromDays(ms / 1000 / 86400).year)
  {
    var d := CivilFromDays(ms / 1000 / 86400);
    var rem := ms / 1000 % 86400;
    DayLiesInItsMonth(ms / 1000 / 86400);
    ClosedFormsCount(ms / 1000 / 86400);
    DateText(d) + " " + Pad2(rem / 3600) + ":" + Pad2(rem % 3600 / 60) + " UTC"
  }

  // ---- Reading undoes writing -----------------------------------------

  lemma NumReads(s: string, from: nat, to: nat, digits: string, n: nat)
    requires from <= to <= |s| && s[from..to] == digits
    requires digits != [] && AllDigits(digits) && DigitsValue(digits) == n
    ensures Num(s, from, to) == Some(n)
  {
  }

  lemma DateTextParts(d: Date)
    requires ValidDate(d) && ValidYear(d.year)
    ensures var s := DateText(d);
            |s| == 10 && s[4] == '-' && s[7] == '-'
            && s[0..4] == Decimal(d.year) && s[5..7] == Pad2(d.month) && s[8..10] == Pad2(d.day)
  {
    YearIsFourDigits(d.year);
  }

  lemma ClockTextParts(second: nat)
    requires second < 86400
    ensures var s := ClockText(second);
            |s| == 8 && s[0..2] == Pad2(second / 3600)
            && s[3..5] == Pad2(second / 60 % 60) && s[6..8] == Pad2(second % 60)
  {
  }

  lemma Slice(a: string, b: string, from: nat, to: nat)
    requires from <= to <= |b|
    ensures (a + b)[|a| + from..|a| + to] == b[from..to]
  {
  }

  lemma SliceFront(a: string, b: string, from: nat, to: nat)
    requires from <= to <= |a|
    ensures (a + b)[from..to] == a[from..to]
  {
  }

  // Texts of numbers in their places are read as those numbers.
  lemma PartsReadBack(s: string, d: Date, hour: nat, minute: nat, second: nat)
    requires ValidDate(d) && ValidYear(d.year) && hour < 100 && minute < 100 && second < 100 && |s| >= 19
    requires s[0..4] == Decimal(d.year) && s[5..7] == Pad2(d.month) && s[8..10] == Pad2(d.day)
    requires s[11..13] == Pad2(hour) && s[14..16] == Pad2(minute) && s[17..19] == Pad2(second)
    ensures ReadClock(s) == Some((d, hour, minute, second))
  {
    hide Decimal, Pad2, DigitsValue, AllDigits, Num;
    DecimalValue(d.year);
    Pad2Value(d.month);
    Pad2Value(d.day);
    Pad2Value(hour);
    Pad2Value(minute);
    Pad2Value(second);
    NumReads(s, 0, 4, Decimal(d.year), d.year);
    NumReads(s, 5, 7, Pad2(d.month), d.month);
    NumReads(s, 8, 10, Pad2(d.day), d.day);
    NumReads(s, 11, 13, Pad2(hour), hour);
    NumReads(s, 14, 16, Pad2(minute), minute);
    NumReads(s, 17, 19, Pad2(second), second);
  }

  // The fixed part of a written time reads back.
  lemma ClockReadsBack(d: Date, second: nat, tail: string)
    requires ValidDate(d) && ValidYear(d.year) && second < 86400
    ensures var s := DateText(d) + "T" + ClockText(second) + tail;
            && |s| == 19 + |tail| && s[4] == '-' && s[7] == '-' && s[10] == 'T' && s[19..] == tail
            && ReadClock(s) == Some((d, second / 3600, second / 60 % 60, second % 60))
  {
    hide DateText, ClockText, Decimal, Pad2, DigitsValue, AllDigits, Num, ReadClock;
    var date, clock := DateText(d), ClockText(second);
    DateTextParts(d);
    ClockTextParts(second);
    var rest := "T" + clock + tail;
    var s := date + "T" + clock + tail;
    assert s == date + rest;
    var pre, post := date + "T", clock + tail;
    assert s == pre + post && |pre| == 11;
    SliceFront(date, rest, 0, 4);
    SliceFront(date, rest, 5, 7);
    SliceFront(date, rest, 8, 10);
    Slice(pre, post, 0, 2);
    Slice(pre, post, 3, 5);
    Slice(pre, post, 6, 8);
    SliceFront(clock, tail, 0, 2);
    SliceFront(clock, tail, 3, 5);
    SliceFront(clock, tail, 6, 8);
    PartsReadBack(s, d, second / 3600, second / 60 % 60, second % 60);
  }

  lemma ZoneReadsBack(zone: Zone)
    requires ValidZone(zone)
    ensures ReadZone(ZoneText(zone)) == Some(OffsetOf(zone))
    ensures ZoneText(zone) != [] && !IsDigit(ZoneText(zone)[0]) && ZoneText(zone)[0] != '.'
    ensures !IsSpace(ZoneText(zone)[|ZoneText(zone)| - 1])
  {
    if !zone.Zulu? {
      var s, h, m := ZoneText(zone), Pad2(zone.hours), Pad2(zone.minutes);
      assert s[1..3] == h && s[4..6] == m;
      Pad2Value(zone.hours);
      Pad2Value(zone.minutes);
    }
  }

  // The milliseconds of a fraction of a second, as they are read.
  function MillisOf(fraction: string): nat
    requires AllDigits(fraction)
  {
    DigitsValue(Milli(fraction))
  }

  function Pow10(n: nat): nat { if n == 0 then 1 else 10 * Pow10(n - 1) }

  // `ms` is the fraction in milliseconds, rounded down.
  predicate Truncates(fraction: string, ms: nat)
    requires AllDigits(fraction)
  {
    if |fraction| <= 3 then ms == DigitsValue(fraction) * Pow10(3 - |fraction|)
    else ms * Pow10(|fraction| - 3) <= DigitsValue(fraction) < (ms + 1) * Pow10(|fraction| - 3)
  }

  lemma AppendDigit(s: string, c: char)
    requires AllDigits(s) && IsDigit(c)
    ensures AllDigits(s + [c]) && DigitsValue(s + [c]) == 10 * DigitsValue(s) + DigitValue(c)
  {
    assert (s + [c])[..|s|] == s;
  }

  // One more digit past the third leaves the milliseconds as they were.
  lemma OneMoreDigit(m: nat, p: nat, v: nat, digit: nat)
    requires m * p <= v < (m + 1) * p && digit < 10
    ensures m * (10 * p) <= 10 * v + digit < (m + 1) * (10 * p)
  {
    assert m * (10 * p) == 10 * (m * p);
    assert (m + 1) * (10 * p) == 10 * ((m + 1) * p);
  }

  lemma ShortMillis(fraction: string)
    requires AllDigits(fraction) && |fraction| <= 3
    ensures MillisOf(fraction) == DigitsValue(fraction) * Pow10(3 - |fraction|)
    ensures |Milli(fraction)| == 3 && AllDigits(Milli(fraction))
  {
    hide DigitsValue, AllDigits;
    assert Pow10(0) == 1 && Pow10(1) == 10 && Pow10(2) == 100;
    if |fraction| == 3 {
      assert fraction[..3] == fraction;
    } else if |fraction| == 2 {
      AppendDigit(fraction, '0');
    } else if |fraction| == 1 {
      AppendDigit(fraction, '0');
      AppendDigit(fraction + "0", '0');
      assert fraction + "0" + "0" == fraction + "00";
    } else {
      NoFraction();
      assert fraction == "";
    }
  }

  lemma NoFraction()
    ensures MillisOf("") == 0 && DigitsValue("") == 0
    ensures Milli("") == "000" && AllDigits("000")
  {
    assert "000"[..2][..1][..0] == "";
  }

  lemma {:induction false} MillisTruncate(fraction: string)
    requires AllDigits(fraction)
    ensures Truncates(fraction, MillisOf(fraction))
    ensures |Milli(fraction)| == 3 && AllDigits(Milli(fraction))
  {
    if |fraction| <= 3 {
      ShortMillis(fraction);
    } else {
      var n := |fraction| - 1;
      var front := fraction[..n];
      MillisTruncate(front);
      assert front[..3] == fraction[..3];
      assert Pow10(0) == 1;
      OneMoreDigit(MillisOf(fraction), Pow10(n - 3), DigitsValue(front), DigitValue(fraction[n]));
    }
  }

  lemma LeadingDigitsOf(digits: string, rest: string)
    requires AllDigits(digits) && rest != [] && !IsDigit(rest[0])
    ensures LeadingDigits(digits + rest) == |digits|
  {
    var s := digits + rest;
    var n := LeadingDigits(s);
    assert s[|digits|] == rest[0];
    assert forall i :: 0 <= i < |digits| ==> s[i] == digits[i] && IsDigit(s[i]);
    assert forall i :: 0 <= i < n ==> s[..n][i] == s[i] && IsDigit(s[i]);
  }

  lemma FractionReadsBack(fraction: string, zone: string)
    requires AllDigits(fraction) && zone != [] && !IsDigit(zone[0]) && zone[0] != '.'
    ensures var rest := (if fraction == [] then [] else "." + fraction) + zone;
            ReadFraction(rest) == Some((MillisOf(fraction), zone))
  {
    MillisTruncate(fraction);
    if fraction != [] {
      var rest := "." + fraction + zone;
      assert rest[1..] == fraction + zone;
      LeadingDigitsOf(fraction, zone);
      assert (fraction + zone)[..|fraction|] == fraction;
      assert (fraction + zone)[|fraction|..] == zone;
      assert IsDigit(Milli(fraction)[0]);
    } else {
      assert [] + zone == zone;
    }
  }

  // The parts of a time of day make the second of the day.
  lemma SecondOfDay(second: nat)
    requires second < 86400
    ensures second / 3600 * 3600 + second / 60 % 60 * 60 + second % 60 == second
    ensures second / 3600 < 24
  {
  }

  // Written text has no space at either end to take off.
  lemma NothingToTrim(d: Date, tail: string)
    requires ValidDate(d) && ValidYear(d.year)
    requires tail != [] && !IsSpace(tail[|tail| - 1])
    ensures var s := DateText(d) + tail; Trim(s) == s
  {
    var s := DateText(d) + tail;
    assert s[0] == Decimal(d.year)[0];
    assert IsDigit(s[0]);
  }

  // Parts that read make a time that reads.
  lemma PartsRead(s: string, d: Date, second: nat, millis: nat, zone: string, offset: int)
    requires Trim(s) == s && |s| >= 20
    requires s[4] == '-' && s[7] == '-' && s[10] == 'T' && second < 86400
    requires ReadClock(s) == Some((d, second / 3600, second / 60 % 60, second % 60))
    requires ReadFraction(s[19..]) == Some((millis, zone)) && ReadZone(zone) == Some(offset)
    requires ValidDate(d) && ValidYear(d.year)
    ensures var instant := DaysFromCivil(d.year, d.month, d.day) * 86400 + second - offset;
            Read(s) == if instant < 0 then None else Some(instant * 1000 + millis)
  {
    hide DaysFromCivil, ReadClock, ReadFraction, ReadZone, Trim;
    SecondOfDay(second);
  }

  // Of every instant with a local year it takes, in any zone and to any
  // fraction of a second, the text reads back as that instant to the
  // millisecond - and as nothing only for one before the epoch.
  lemma ReadUndoesWrite(d: Date, second: nat, fraction: string, zone: Zone)
    requires ValidDate(d) && ValidYear(d.year) && second < 86400
    requires AllDigits(fraction) && ValidZone(zone)
    ensures Truncates(fraction, MillisOf(fraction))
    ensures var instant := DaysFromCivil(d.year, d.month, d.day) * 86400 + second - OffsetOf(zone);
            Read(Write(d, second, fraction, zone))
            == if instant < 0 then None else Some(instant * 1000 + MillisOf(fraction))
  {
    hide DaysFromCivil, DateText, ClockText, ZoneText, OffsetOf, ReadClock, ReadFraction, ReadZone,
         Trim, MillisOf, Truncates, Read, ValidDate, ValidYear, ValidZone;
    MillisTruncate(fraction);
    ZoneReadsBack(zone);
    FractionReadsBack(fraction, ZoneText(zone));
    var tail := (if fraction == [] then [] else "." + fraction) + ZoneText(zone);
    ClockReadsBack(d, second, tail);
    var s := DateText(d) + "T" + ClockText(second) + tail;
    assert Write(d, second, fraction, zone) == s;
    var rest := "T" + ClockText(second) + tail;
    assert s == DateText(d) + rest;
    assert rest[|rest| - 1] == tail[|tail| - 1] == ZoneText(zone)[|ZoneText(zone)| - 1];
    NothingToTrim(d, rest);
    PartsRead(s, d, second, MillisOf(fraction), ZoneText(zone), OffsetOf(zone));
  }

  // What is printed, put back as a time of its own minute in UTC.
  function AsWritten(printed: string): string
    requires |printed| >= 16
  {
    printed[..10] + "T" + printed[11..16] + ":00Z"
  }

  lemma SecondsOfDays(ms: nat)
    ensures ms / 1000 / 86400 == DayOf(ms)
    ensures ms / 60000 * 60 == DayOf(ms) * 86400 + ms / 1000 % 86400 / 60 * 60
  {
    var s := ms / 1000;
    assert s / 60 == ms / 60000;
    assert s == s / 86400 * 86400 + s % 86400;
  }

  lemma MinuteOfDay(rem: nat)
    requires rem < 86400
    ensures var second := rem / 60 * 60;
            second < 86400 && second / 3600 == rem / 3600
            && second / 60 % 60 == rem % 3600 / 60 && second % 60 == 0
  {
  }

  lemma PrintedIsWritten(d: Date, rem: nat)
    requires ValidDate(d) && ValidYear(d.year) && rem < 86400
    ensures rem / 60 * 60 < 86400
    ensures var p := DateText(d) + " " + Pad2(rem / 3600) + ":" + Pad2(rem % 3600 / 60) + " UTC";
            |p| >= 16 && AsWritten(p) == Write(d, rem / 60 * 60, [], Zulu)
  {
    DateTextParts(d);
    MinuteOfDay(rem);
    var h, m := Pad2(rem / 3600), Pad2(rem % 3600 / 60);
    var p := DateText(d) + " " + h + ":" + m + " UTC";
    assert p[..10] == DateText(d);
    assert p[11..16] == h + ":" + m;
    assert Pad2(0) == "00";
  }

  // The date and minute printed for a time read back to that minute.
  lemma PrintedReadsBack(ms: nat)
    requires ValidYear(CivilFromDays(DayOf(ms)).year)
    ensures ms / 1000 / 86400 == DayOf(ms)
    ensures |Print(ms)| >= 16 && Read(AsWritten(Print(ms))) == Some(ms / 60000 * 60000)
  {
    hide CivilFromDays, DaysFromCivil, Read, DateText, AsWritten, Write, Pad2, MillisOf, DateAfter;
    SecondsOfDays(ms);
    ClosedFormsCount(DayOf(ms));
    var d := CivilFromDays(DayOf(ms));
    var rem := ms / 1000 % 86400;
    PrintedIsWritten(d, rem);
    ReadUndoesWrite(d, rem / 60 * 60, [], Zulu);
    NoFraction();
    assert ms / 60000 * 60000 == ms / 60000 * 60 * 1000;
  }
}
