// Which of the texts taken as times are times as RFC 3339 (section 5.6) writes
// them.
module IsoText {
  import opened Basics
  import opened Text
  import opened Calendar
  import opened IsoTime

  // A time of that form, its letters capitals: a day its month has, a time of
  // day with a leap second allowed, and a zone no further than 23:59 away. (The
  // years are those the reader takes.)
  predicate CanBeRfc(d: Date, hour: nat, minute: nat, second: nat, fraction: string, zone: Zone) {
    && ValidDate(d) && ValidYear(d.year)
    && hour < 24 && minute < 60 && second <= 60
    && AllDigits(fraction) && ValidZone(zone) && (zone.Zulu? || zone.hours < 24)
  }

  function RfcText(d: Date, hour: nat, minute: nat, second: nat, fraction: string, zone: Zone): string
    requires CanBeRfc(d, hour, minute, second, fraction, zone)
  {
    DateText(d) + "T" + Pad2(hour) + ":" + Pad2(minute) + ":" + Pad2(second)
    + ((if fraction == [] then [] else "." + fraction) + ZoneText(zone))
  }

  ghost predicate Rfc(s: string) {
    exists d: Date, hour: nat, minute: nat, second: nat, fraction: string, zone: Zone ::
      CanBeRfc(d, hour, minute, second, fraction, zone)
      && s == RfcText(d, hour, minute, second, fraction, zone)
  }

  // ---- What a text can be looked at for -------------------------------

  predicate GoodZone(zone: string) {
    zone == "Z"
    || (|zone| == 6 && AllDigits(zone[1..3]) && DigitsValue(zone[1..3]) < 24
        && AllDigits(zone[4..6]) && DigitsValue(zone[4..6]) < 60)
  }

  // Colons in the time of day, a day its month has, and a zone of digits with
  // its hours below 24 and its minutes below 60.
  predicate Good(s: string)
    requires |s| >= 20
  {
    && s[13] == ':' && s[16] == ':'
    && (match ReadClock(s)
        case Some((d, _, _, _)) => d.day <= DaysInMonth(d.year, d.month)
        case None => false)
    && (match ReadFraction(s[19..])
        case Some((_, zone)) => GoodZone(zone)
        case None => false)
  }

  // ---- Digits come back -----------------------------------------------

  lemma CharComesBack(c: char)
    requires IsDigit(c)
    ensures DigitChar(DigitValue(c)) == c
  {
  }

  lemma {:induction false} DecimalComesBack(s: string)
    requires s != [] && AllDigits(s) && (|s| == 1 || s[0] != '0')
    ensures Decimal(DigitsValue(s)) == s && (s[0] != '0' ==> DigitsValue(s) > 0)
  {
    var n := |s| - 1;
    CharComesBack(s[n]);
    if n == 0 {
      assert s[..0] == [] && s == [s[0]];
    } else {
      DecimalComesBack(s[..n]);
      assert DigitsValue(s) / 10 == DigitsValue(s[..n]) && DigitsValue(s) % 10 == DigitValue(s[n]);
      assert s == s[..n] + [s[n]];
    }
  }

  lemma FourDigits(s: string)
    requires |s| == 4 && AllDigits(s)
    ensures DigitsValue(s) < 1000 + 1000 * DigitValue(s[0])
  {
    assert s[..3][..2] == s[..2] && s[..2][..1] == s[..1] && s[..1][..0] == [];
    assert DigitsValue(s[..1]) == DigitValue(s[0]);
    assert DigitsValue(s[..2]) == 10 * DigitsValue(s[..1]) + DigitValue(s[1]);
    assert DigitsValue(s[..3]) == 10 * DigitsValue(s[..2]) + DigitValue(s[2]);
  }

  lemma YearComesBack(s: string)
    requires |s| == 4 && AllDigits(s) && DigitsValue(s) >= 1000
    ensures Decimal(DigitsValue(s)) == s
  {
    FourDigits(s);
    DecimalComesBack(s);
  }

  lemma PairComesBack(s: string)
    requires |s| == 2 && AllDigits(s)
    ensures DigitsValue(s) < 100 && Pad2(DigitsValue(s)) == s
  {
    assert s[..1][..0] == [];
    assert DigitsValue(s[..1]) == DigitValue(s[0]);
    CharComesBack(s[0]);
    CharComesBack(s[1]);
  }

  lemma NumIs(s: string, from: nat, to: nat)
    requires from < to <= |s| && Num(s, from, to).Some?
    ensures AllDigits(s[from..to]) && Num(s, from, to).value == DigitsValue(s[from..to])
  {
    assert IsDigit(s[from..to][0]);
  }

  // ---- A good text is of the form -------------------------------------

  lemma DateComesBack(s: string)
    requires |s| >= 19 && s[4] == '-' && s[7] == '-' && ReadClock(s).Some?
    requires var (d, _, _, _) := ReadClock(s).value; ValidDate(d) && ValidYear(d.year)
    ensures var (d, _, _, _) := ReadClock(s).value; DateText(d) == s[..10]
  {
    hide DigitsValue, Decimal, Pad2, ValidDate, AllDigits, Num;
    NumIs(s, 0, 4);
    NumIs(s, 5, 7);
    NumIs(s, 8, 10);
    YearComesBack(s[0..4]);
    PairComesBack(s[5..7]);
    PairComesBack(s[8..10]);
    assert s[..10] == s[0..4] + "-" + s[5..7] + "-" + s[8..10];
  }

  lemma ClockComesBack(s: string)
    requires |s| >= 19 && s[13] == ':' && s[16] == ':' && ReadClock(s).Some?
    requires var (_, h, m, second) := ReadClock(s).value; h < 100 && m < 100 && second < 100
    ensures var (_, h, m, second) := ReadClock(s).value;
            Pad2(h) + ":" + Pad2(m) + ":" + Pad2(second) == s[11..19]
  {
    hide DigitsValue, Pad2, AllDigits, Num;
    NumIs(s, 11, 13);
    NumIs(s, 14, 16);
    NumIs(s, 17, 19);
    PairComesBack(s[11..13]);
    PairComesBack(s[14..16]);
    PairComesBack(s[17..19]);
    assert s[11..19] == s[11..13] + ":" + s[14..16] + ":" + s[17..19];
  }

  lemma FractionComesBack(rest: string) returns (fraction: string)
    requires ReadFraction(rest).Some?
    ensures AllDigits(fraction)
    ensures rest == (if fraction == [] then [] else "." + fraction) + ReadFraction(rest).value.1
  {
    hide Milli, ParseU64, DigitsValue;
    if rest != [] && rest[0] == '.' {
      var frac := rest[1..];
      var digits := LeadingDigits(frac);
      fraction := frac[..digits];
      assert frac == fraction + frac[digits..];
      assert rest == "." + frac;
    } else {
      fraction := [];
    }
  }

  lemma ZoneComesBack(text: string) returns (zone: Zone)
    requires ReadZone(text).Some? && GoodZone(text)
    ensures ValidZone(zone) && (zone.Zulu? || zone.hours < 24) && ZoneText(zone) == text
  {
    if text == "Z" {
      zone := Zulu;
    } else {
      PairComesBack(text[1..3]);
      PairComesBack(text[4..6]);
      var h, m := DigitsValue(text[1..3]), DigitsValue(text[4..6]);
      zone := if text[0] == '+' then Ahead(h, m) else Behind(h, m);
      assert text == [text[0]] + text[1..3] + ":" + text[4..6];
    }
  }

  lemma GoodIsRfc(s: string)
    requires |s| >= 20 && s[4] == '-' && s[7] == '-' && s[10] == 'T' && Good(s)
    requires var (d, h, m, second) := ReadClock(s).value; InRange(d, h, m, second)
    requires ReadZone(ReadFraction(s[19..]).value.1).Some?
    ensures Rfc(s)
  {
    hide ReadClock, ReadFraction, ReadZone, DateText, Pad2, ZoneText, GoodZone, DigitsValue, AllDigits;
    var (d, h, m, second) := ReadClock(s).value;
    DateComesBack(s);
    ClockComesBack(s);
    var fraction := FractionComesBack(s[19..]);
    var zone := ZoneComesBack(ReadFraction(s[19..]).value.1);
    var clock := Pad2(h) + ":" + Pad2(m) + ":" + Pad2(second);
    var tail := (if fraction == [] then [] else "." + fraction) + ZoneText(zone);
    assert s == s[..10] + "T" + s[11..19] + s[19..];
    assert s == DateText(d) + "T" + clock + tail;
    assert DateText(d) + "T" + clock + tail == RfcText(d, h, m, second, fraction, zone);
    assert CanBeRfc(d, h, m, second, fraction, zone);
  }

  // ---- A text of the form is a good one -------------------------------

  lemma ZoneIsGood(zone: Zone)
    requires ValidZone(zone)
    ensures GoodZone(ZoneText(zone)) <==> zone.Zulu? || zone.hours < 24
  {
    if !zone.Zulu? {
      var s, h, m := ZoneText(zone), Pad2(zone.hours), Pad2(zone.minutes);
      assert s[1..3] == h && s[4..6] == m;
      Pad2Value(zone.hours);
      Pad2Value(zone.minutes);
    }
  }

  // Where the parts of such a text lie.
  lemma LaidOut(date: string, h: string, m: string, second: string, tail: string)
    requires |date| == 10 && |h| == |m| == |second| == 2
    ensures var s := date + "T" + h + ":" + m + ":" + second + tail;
            && |s| == 19 + |tail| && s[13] == ':' && s[16] == ':' && s[19..] == tail
            && s[0..4] == date[0..4] && s[5..7] == date[5..7] && s[8..10] == date[8..10]
            && s[11..13] == h && s[14..16] == m && s[17..19] == second
  {
  }

  lemma RfcIsGood(d: Date, hour: nat, minute: nat, second: nat, fraction: string, zone: Zone)
    requires CanBeRfc(d, hour, minute, second, fraction, zone)
    ensures var s := RfcText(d, hour, minute, second, fraction, zone); |s| >= 20 && Good(s)
  {
    hide ReadClock, ReadFraction, DateText, Pad2, ZoneText, GoodZone, DigitsValue, AllDigits;
    ZoneReadsBack(zone);
    ZoneIsGood(zone);
    FractionReadsBack(fraction, ZoneText(zone));
    var tail := (if fraction == [] then [] else "." + fraction) + ZoneText(zone);
    DateTextParts(d);
    LaidOut(DateText(d), Pad2(hour), Pad2(minute), Pad2(second), tail);
    PartsReadBack(RfcText(d, hour, minute, second, fraction, zone), d, hour, minute, second);
  }

  // Of the texts that are taken, exactly the good ones are times of the form.
  lemma RfcExactly(text: string)
    requires Read(text).Some?
    ensures |Trim(text)| >= 20 && (Rfc(Trim(text)) <==> Good(Trim(text)))
  {
    hide ReadClock, ReadFraction, ReadZone, RfcText, Good, Trim, DaysFromCivil;
    var s := Trim(text);
    if Rfc(s) {
      var d: Date, hour: nat, minute: nat, second: nat, fraction, zone :|
        CanBeRfc(d, hour, minute, second, fraction, zone)
        && s == RfcText(d, hour, minute, second, fraction, zone);
      RfcIsGood(d, hour, minute, second, fraction, zone);
    }
    if Good(s) {
      GoodIsRfc(s);
    }
  }

  // ---- What is taken --------------------------------------------------

  function InstantOf(d: Date, hour: nat, minute: nat, second: nat, offset: int): int {
    DaysFromCivil(d.year, d.month, d.day) * 86400 + hour * 3600 + minute * 60 + second - offset
  }

  // Every time of the form is taken, a leap second too, as its instant to the
  // millisecond; only one before the epoch isn't.
  lemma RfcIsTaken(d: Date, hour: nat, minute: nat, second: nat, fraction: string, zone: Zone)
    requires CanBeRfc(d, hour, minute, second, fraction, zone)
    ensures Truncates(fraction, MillisOf(fraction))
    ensures var instant := InstantOf(d, hour, minute, second, OffsetOf(zone));
            Read(RfcText(d, hour, minute, second, fraction, zone))
            == if instant < 0 then None else Some(instant * 1000 + MillisOf(fraction))
  {
    hide ReadClock, ReadFraction, ReadZone, DateText, Pad2, ZoneText, DigitsValue, AllDigits, Trim, MillisOf,
         Truncates, DaysFromCivil, OffsetOf, LeadingDigits;
    MillisTruncate(fraction);
    ZoneReadsBack(zone);
    FractionReadsBack(fraction, ZoneText(zone));
    var tail := (if fraction == [] then [] else "." + fraction) + ZoneText(zone);
    var s := RfcText(d, hour, minute, second, fraction, zone);
    DateTextParts(d);
    LaidOut(DateText(d), Pad2(hour), Pad2(minute), Pad2(second), tail);
    PartsReadBack(s, d, hour, minute, second);
    var rest := "T" + Pad2(hour) + ":" + Pad2(minute) + ":" + Pad2(second) + tail;
    assert s == DateText(d) + rest;
    assert s[4] == DateText(d)[4] && s[7] == DateText(d)[7] && s[10] == 'T';
    assert rest[|rest| - 1] == tail[|tail| - 1] == ZoneText(zone)[|ZoneText(zone)| - 1];
    NothingToTrim(d, rest);
  }

  // A text is taken exactly with its dashes and its `T` in place, digits that read
  // as a date and time in these ranges, and a fraction and zone that read, and not
  // before the epoch.
  lemma TakenExactly(text: string)
    ensures var s := Trim(text);
            Read(text).Some? <==>
              && |s| >= 20 && s[4] == '-' && s[7] == '-' && s[10] == 'T'
              && ReadClock(s).Some? && ReadFraction(s[19..]).Some? && ReadZone(ReadFraction(s[19..]).value.1).Some?
              && var (d, hour, minute, second) := ReadClock(s).value;
                 && 1970 <= d.year <= 2200 && 1 <= d.month <= 12 && 1 <= d.day <= 31
                 && hour <= 23 && minute <= 59 && second <= 60
                 && InstantOf(d, hour, minute, second, ReadZone(ReadFraction(s[19..]).value.1).value) >= 0
  {
    hide ReadClock, ReadFraction, ReadZone, Trim, DaysFromCivil;
  }

  // ---- Others are taken too -------------------------------------------

  // What two, or four, digits of a text are read as.
  lemma PairReads(s: string, at: nat)
    requires at + 2 <= |s| && IsDigit(s[at]) && IsDigit(s[at + 1])
    ensures Num(s, at, at + 2) == Some(10 * DigitValue(s[at]) + DigitValue(s[at + 1]))
  {
    var pair := s[at..at + 2];
    assert pair[..1][..0] == [] && pair[0] == s[at] && pair[1] == s[at + 1];
    assert DigitsValue(pair[..1]) == DigitValue(s[at]);
    NumReads(s, at, at + 2, pair, 10 * DigitValue(s[at]) + DigitValue(s[at + 1]));
  }

  lemma FourRead(s: string)
    requires |s| >= 4 && AllDigits(s[..4])
    ensures Num(s, 0, 4) == Some(1000 * DigitValue(s[0]) + 100 * DigitValue(s[1])
                                 + 10 * DigitValue(s[2]) + DigitValue(s[3]))
  {
    var four := s[0..4];
    assert four[..3][..2] == four[..2] && four[..2][..1] == four[..1] && four[..1][..0] == [];
    assert DigitsValue(four[..1]) == DigitValue(s[0]);
    assert DigitsValue(four[..2]) == 10 * DigitsValue(four[..1]) + DigitValue(s[1]);
    assert DigitsValue(four[..3]) == 10 * DigitsValue(four[..2]) + DigitValue(s[2]);
    NumReads(s, 0, 4, four, DigitsValue(four));
  }

  lemma OddClock(s: string)
    requires s == "2024-06-31T05x30y00Z"
    ensures ReadClock(s) == Some((Date(2024, 6, 31), 5, 30, 0))
  {
    hide Num;
    FourRead(s);
    PairReads(s, 5);
    PairReads(s, 8);
    PairReads(s, 11);
    PairReads(s, 14);
    PairReads(s, 17);
  }

  lemma NotTrimmed(s: string)
    requires s != [] && !IsSpace(s[0]) && !IsSpace(s[|s| - 1])
    ensures Trim(s) == s
  {
  }

  lemma LateEnough()
    ensures DaysFromCivil(2024, 6, 31) > 0
  {
  }

  // With anything between hour, minute and second, and on the 31st of June.
  lemma AnOddTextIsTaken()
    ensures Read("2024-06-31T05x30y00Z").Some? && !Rfc("2024-06-31T05x30y00Z")
  {
    hide ReadClock, Rfc, Trim, DaysFromCivil;
    var s := "2024-06-31T05x30y00Z";
    OddClock(s);
    NotTrimmed(s);
    LateEnough();
    assert s[19..] == "Z";
    RfcExactly(s);
  }

  // In a zone a day or more away, whatever the time.
  lemma AFarZoneIsTaken(d: Date, second: nat, fraction: string, zone: Zone)
    requires ValidDate(d) && ValidYear(d.year) && second < 86400 && AllDigits(fraction)
    requires ValidZone(zone) && !zone.Zulu? && zone.hours >= 24
    requires Read(Write(d, second, fraction, zone)).Some?
    ensures Trim(Write(d, second, fraction, zone)) == Write(d, second, fraction, zone)
    ensures !Rfc(Write(d, second, fraction, zone))
  {
    hide DaysFromCivil, DateText, ClockText, ZoneText, ReadClock, ReadFraction, ReadZone, Rfc, GoodZone,
         Trim, Read, DigitsValue, AllDigits;
    var tail := (if fraction == [] then [] else "." + fraction) + ZoneText(zone);
    var rest := "T" + ClockText(second) + tail;
    var s := Write(d, second, fraction, zone);
    ZoneReadsBack(zone);
    ZoneIsGood(zone);
    FractionReadsBack(fraction, ZoneText(zone));
    ClockReadsBack(d, second, tail);
    assert s == DateText(d) + "T" + ClockText(second) + tail && s == DateText(d) + rest;
    assert rest[|rest| - 1] == tail[|tail| - 1] == ZoneText(zone)[|ZoneText(zone)| - 1];
    NothingToTrim(d, rest);
    RfcExactly(s);
  }
}
