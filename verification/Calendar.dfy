// The Gregorian calendar, counted day by day, and the closed forms that agree
// with the counting.
module Calendar {
  import opened Basics

  // ---- Counting days --------------------------------------------------

  datatype Date = Date(year: int, month: int, day: int)

  predicate IsLeap(year: int) { year % 4 == 0 && (year % 100 != 0 || year % 400 == 0) }

  function DaysInMonth(year: int, month: int): int {
    if month == 2 then (if IsLeap(year) then 29 else 28)
    else if month == 4 || month == 6 || month == 9 || month == 11 then 30
    else 31
  }

  predicate ValidDate(d: Date) {
    1 <= d.month <= 12 && 1 <= d.day <= DaysInMonth(d.year, d.month)
  }

  function NextDay(d: Date): Date {
    if d.day < DaysInMonth(d.year, d.month) then d.(day := d.day + 1)
    else if d.month < 12 then Date(d.year, d.month + 1, 1)
    else Date(d.year + 1, 1, 1)
  }

  const EPOCH := Date(1970, 1, 1)

  // The date `n` days after the epoch, one day at a time.
  function DateAfter(n: nat): (d: Date)
    ensures ValidDate(d) && d.year >= 1970
  {
    if n == 0 then EPOCH else NextDay(DateAfter(n - 1))
  }

  // ---- The closed forms -----------------------------------------------

  // A year counted from March, and the months from it.
  function MarchYear(year: int, month: int): int { if month <= 2 then year - 1 else year }

  function MarchMonth(month: int): int { month + if month > 2 then -3 else 9 }

  function DayOfYear(month: int, day: int): int { (153 * MarchMonth(month) + 2) / 5 + day - 1 }

  // The days before a year of a 400-year era.
  function DaysBefore(yoe: int): int { yoe * 365 + yoe / 4 - yoe / 100 }

  // The closed form: which day a date is, the epoch's being zero.
  function DaysFromCivil(year: int, month: int, day: int): int {
    var y := MarchYear(year, month);
    var era := y / 400;
    var yoe := y % 400;
    era * 146097 + (DaysBefore(yoe) + DayOfYear(month, day)) - 719468
  }

  function YearOfEra(doe: int): int { (doe - doe / 1460 + doe / 36524 - doe / 146096) / 365 }

  // The date a number of days from 1970-01-01.
  function CivilFromDays(days: int): Date {
    var z := days + 719468;
    var era := z / 146097;
    var doe := z % 146097;
    var yoe := YearOfEra(doe);
    var doy := doe - DaysBefore(yoe);
    var mp := (5 * doy + 2) / 153;
    var day := doy - (153 * mp + 2) / 5 + 1;
    var month := if mp < 10 then mp + 3 else mp - 9;
    Date(yoe + era * 400 + (if month <= 2 then 1 else 0), month, day)
  }

  // ---- They agree -----------------------------------------------------

  // A March year is a day longer when the February that ends it is.
  function LastDay(yoe: int): int { if yoe % 4 == 3 && (yoe % 100 != 99 || yoe == 399) then 365 else 364 }

  lemma DayOfYearFits(d: Date)
    requires ValidDate(d)
    ensures 0 <= DayOfYear(d.month, d.day) <= LastDay(MarchYear(d.year, d.month) % 400)
  {
    var y := MarchYear(d.year, d.month);
    if d.month == 2 {
      LeapEndsTheMarchYear(y);
    }
  }

  lemma Mod4(era: int, t: int)
    ensures (400 * era + t) % 4 == t % 4
  {
    assert 400 * era + t == 4 * (100 * era + t / 4) + t % 4;
  }

  lemma Mod100(era: int, t: int)
    ensures (400 * era + t) % 100 == t % 100
  {
  }

  lemma Mod400(era: int, t: int)
    ensures (400 * era + t) % 400 == t % 400
  {
  }

  lemma LeapEndsTheMarchYear(y: int)
    ensures LastDay(y % 400) == 365 <==> IsLeap(y + 1)
  {
    var era, yoe := y / 400, y % 400;
    Mod4(era, yoe + 1);
    Mod100(era, yoe + 1);
    Mod400(era, yoe + 1);
    LeapInEra(yoe);
  }

  lemma LeapInEra(yoe: int)
    requires 0 <= yoe < 400
    ensures LastDay(yoe) == 365 <==> IsLeap(yoe + 1)
  {
  }

  lemma MonthComesBack(month: int, day: int)
    requires 1 <= month <= 12 && 1 <= day <= (if month == 2 then 29 else DaysInMonth(1, month))
    ensures var doy := DayOfYear(month, day);
            var mp := (5 * doy + 2) / 153;
            mp == MarchMonth(month) && doy - (153 * mp + 2) / 5 + 1 == day
  {
  }

  // The three corrections, for a day of an era as centuries, leap cycles,
  // years over and days over.
  lemma Corrections(c: int, q: int, s: int, doy: int, doe: int)
    requires 0 <= c < 4 && 0 <= q < 25 && 0 <= s < 4
    requires 0 <= doy <= (if s == 3 && (q != 24 || c == 3) then 365 else 364)
    requires doe == 36524 * c + 1461 * q + 365 * s + doy
    ensures 0 <= doe < 146097
    ensures doe / 36524 - doe / 146096 == c
    ensures var over := 24 * c + q + 365 * s + doy;
            doe / 1460 == 25 * c + q + if over >= 1460 then 1 else 0
  {
  }

  lemma YearComesBack(c: int, q: int, s: int, doy: int)
    requires 0 <= c < 4 && 0 <= q < 25 && 0 <= s < 4
    requires 0 <= doy <= (if s == 3 && (q != 24 || c == 3) then 365 else 364)
    ensures var yoe := 100 * c + 4 * q + s;
            var doe := 36524 * c + 1461 * q + 365 * s + doy;
            DaysBefore(yoe) + doy == doe && 0 <= doe < 146097 && YearOfEra(doe) == yoe
  {
    var yoe := 100 * c + 4 * q + s;
    var doe := 36524 * c + 1461 * q + 365 * s + doy;
    assert yoe / 4 == 25 * c + q && yoe / 100 == c;
    Corrections(c, q, s, doy, doe);
    var carry := if 24 * c + q + 365 * s + doy >= 1460 then 1 else 0;
    var top := doe - doe / 1460 + doe / 36524 - doe / 146096;
    assert top == 365 * yoe + (doy - carry) && 0 <= doy - carry <= 364;
    assert top / 365 == yoe;
  }

  lemma YearOfEraComesBack(yoe: int, doy: int)
    requires 0 <= yoe < 400 && 0 <= doy <= LastDay(yoe)
    ensures 0 <= DaysBefore(yoe) + doy < 146097 && YearOfEra(DaysBefore(yoe) + doy) == yoe
  {
    var c, q, s := yoe / 100, yoe % 100 / 4, yoe % 4;
    assert yoe == 100 * c + 4 * q + s;
    assert yoe % 100 == 4 * q + s;
    YearComesBack(c, q, s, doy);
  }

  lemma ValidMonth(d: Date)
    requires ValidDate(d)
    ensures 1 <= d.month <= 12 && 1 <= d.day <= (if d.month == 2 then 29 else DaysInMonth(1, d.month))
  {
  }

  // Every date comes back from its number of days.
  lemma DateComesBack(d: Date)
    requires ValidDate(d)
    ensures CivilFromDays(DaysFromCivil(d.year, d.month, d.day)) == d
  {
    hide ValidDate, DaysBefore, YearOfEra, LastDay;
    var y := MarchYear(d.year, d.month);
    var yoe, doy := y % 400, DayOfYear(d.month, d.day);
    DayOfYearFits(d);
    ValidMonth(d);
    YearOfEraComesBack(yoe, doy);
    MonthComesBack(d.month, d.day);
    EraComesBack(y / 400, DaysBefore(yoe) + doy);
  }

  // A day is one day of one era.
  lemma EraComesBack(era: int, doe: int)
    requires 0 <= doe < 146097
    ensures (era * 146097 + doe) / 146097 == era && (era * 146097 + doe) % 146097 == doe
  {
  }

  // The next year of an era starts the day after this one ends.
  lemma NextYearStarts(y: int)
    ensures y / 400 * 146097 + DaysBefore(y % 400) + LastDay(y % 400) + 1
            == (y + 1) / 400 * 146097 + DaysBefore((y + 1) % 400)
  {
    var era, yoe := y / 400, y % 400;
    if yoe == 399 {
      assert (y + 1) / 400 == era + 1 && (y + 1) % 400 == 0;
    } else {
      assert (y + 1) / 400 == era && (y + 1) % 400 == yoe + 1;
      assert yoe == 100 * (yoe / 100) + yoe % 100;
      assert (yoe + 1) / 4 == yoe / 4 + (if yoe % 4 == 3 then 1 else 0);
      assert (yoe + 1) / 100 == yoe / 100 + (if yoe % 100 == 99 then 1 else 0);
    }
  }

  // Within a March year the days of the year do the counting.
  lemma WithinTheYear(d: Date, n: Date)
    requires MarchYear(n.year, n.month) == MarchYear(d.year, d.month)
    requires DayOfYear(n.month, n.day) == DayOfYear(d.month, d.day) + 1
    ensures DaysFromCivil(n.year, n.month, n.day) == DaysFromCivil(d.year, d.month, d.day) + 1
  {
    hide DayOfYear, MarchYear, DaysBefore;
  }

  lemma MonthEnds(d: Date)
    requires ValidDate(d) && d.month != 2 && d.day == DaysInMonth(d.year, d.month)
    ensures var n := NextDay(d);
            && MarchYear(n.year, n.month) == MarchYear(d.year, d.month)
            && DayOfYear(n.month, n.day) == DayOfYear(d.month, d.day) + 1
  {
  }

  lemma FebruaryEnds(year: int)
    ensures DaysFromCivil(year, 3, 1) == DaysFromCivil(year, 2, DaysInMonth(year, 2)) + 1
  {
    hide DaysBefore;
    LeapEndsTheMarchYear(year - 1);
    NextYearStarts(year - 1);
    assert DayOfYear(3, 1) == 0 && DayOfYear(2, DaysInMonth(year, 2)) == LastDay((year - 1) % 400);
  }

  // The next day is one more, at the end of any month of any year.
  lemma NextIsOneMore(d: Date)
    requires ValidDate(d)
    ensures ValidDate(NextDay(d))
    ensures var n := NextDay(d);
            DaysFromCivil(n.year, n.month, n.day) == DaysFromCivil(d.year, d.month, d.day) + 1
  {
    hide DaysFromCivil, LastDay;
    if d.day < DaysInMonth(d.year, d.month) {
      WithinTheYear(d, NextDay(d));
    } else if d.month == 2 {
      FebruaryEnds(d.year);
    } else {
      MonthEnds(d);
      WithinTheYear(d, NextDay(d));
    }
  }

  // The closed forms are the counting, both ways, on every day from the epoch.
  lemma {:induction false} ClosedFormsCount(n: nat)
    ensures CivilFromDays(n) == DateAfter(n)
    ensures DaysFromCivil(DateAfter(n).year, DateAfter(n).month, DateAfter(n).day) == n
  {
    hide CivilFromDays, DaysFromCivil;
    EpochIsDayZero();
    if n > 0 {
      ClosedFormsCount(n - 1);
      NextIsOneMore(DateAfter(n - 1));
    }
    DateComesBack(DateAfter(n));
  }

  lemma EpochIsDayZero()
    ensures DaysFromCivil(1970, 1, 1) == 0
  {
    assert 1969 / 400 == 4 && 1969 % 400 == 369;
    assert DaysBefore(369) == 134774 && DayOfYear(1, 1) == 306;
  }

  // ---- Months ---------------------------------------------------------

  // The month a time lies in.
  function YearMonth(ms: nat): (int, int) {
    var d := CivilFromDays(DayOf(ms));
    (d.year, d.month)
  }

  // When a month starts; zero stands in for any before the epoch.
  function MonthStart(year: int, month: int): nat {
    var days := DaysFromCivil(year, month, 1);
    (if days < 0 then 0 else days) * DAY_MS
  }

  // Months counted one after another.
  function MonthIndex(year: int, month: int): int { year * 12 + month - 1 }

  function FirstOf(k: int): int { DaysFromCivil(k / 12, k % 12 + 1, 1) }

  lemma FirstOfIndex(year: int, month: int)
    requires 1 <= month <= 12
    ensures FirstOf(MonthIndex(year, month)) == DaysFromCivil(year, month, 1)
  {
    var k := MonthIndex(year, month);
    assert k / 12 == year && k % 12 == month - 1;
  }

  // The days of a month follow its first, and the next month follows them.
  lemma DaysOfMonth(year: int, month: int, day: int)
    requires 1 <= month <= 12 && 1 <= day <= DaysInMonth(year, month)
    ensures DaysFromCivil(year, month, day) == DaysFromCivil(year, month, 1) + day - 1
  {
  }

  lemma NextFirst(k: int)
    ensures FirstOf(k + 1) == FirstOf(k) + DaysInMonth(k / 12, k % 12 + 1)
  {
    var year, month := k / 12, k % 12 + 1;
    var last := Date(year, month, DaysInMonth(year, month));
    DaysOfMonth(year, month, last.day);
    NextIsOneMore(last);
    if month == 12 {
      assert (k + 1) / 12 == year + 1 && (k + 1) % 12 == 0;
    } else {
      assert (k + 1) / 12 == year && (k + 1) % 12 == month;
    }
  }

  lemma {:induction false} FirstsRise(j: int, k: int)
    requires j <= k
    ensures FirstOf(j) <= FirstOf(k)
    decreases k - j
  {
    if j < k {
      FirstsRise(j, k - 1);
      NextFirst(k - 1);
    }
  }

  // A day lies in its own month, and no other.
  lemma DayLiesInItsMonth(n: nat)
    ensures var d := CivilFromDays(n);
            && 1 <= d.month <= 12 && d.year >= 1970
            && 0 <= FirstOf(MonthIndex(d.year, d.month)) <= n < FirstOf(MonthIndex(d.year, d.month) + 1)
  {
    hide CivilFromDays, DaysFromCivil, FirstOf, DateAfter;
    ClosedFormsCount(n);
    DateLiesInItsMonth(DateAfter(n));
  }

  lemma DateLiesInItsMonth(d: Date)
    requires ValidDate(d) && d.year >= 1970
    ensures var n := DaysFromCivil(d.year, d.month, d.day);
            0 <= FirstOf(MonthIndex(d.year, d.month)) <= n < FirstOf(MonthIndex(d.year, d.month) + 1)
  {
    hide DaysFromCivil;
    var k := MonthIndex(d.year, d.month);
    EpochIsDayZero();
    FirstOfIndex(1970, 1);
    FirstOfIndex(d.year, d.month);
    NextFirst(k);
    assert k / 12 == d.year && k % 12 + 1 == d.month;
    DaysOfMonth(d.year, d.month, d.day);
    FirstsRise(MonthIndex(1970, 1), k);
  }

  // The month a time is in starts at the last month boundary not after it.
  lemma MonthStartIsGreatest(ms: nat, year: int, month: int)
    requires 1 <= month <= 12
    ensures var (y, m) := YearMonth(ms);
            && MonthStart(y, m) <= ms
            && (MonthStart(year, month) <= ms ==> MonthStart(year, month) <= MonthStart(y, m))
  {
    hide CivilFromDays, DaysFromCivil, FirstOf;
    var n := DayOf(ms);
    var (y, m) := YearMonth(ms);
    DayLiesInItsMonth(n);
    FirstOfIndex(y, m);
    FirstOfIndex(year, month);
    var k, j := MonthIndex(y, m), MonthIndex(year, month);
    if j <= k {
      FirstsRise(j, k);
    } else {
      FirstsRise(k + 1, j);
      assert DaysFromCivil(year, month, 1) > n;
    }
  }

  // A month's own start reads back as that month.
  lemma MonthStartReadsBack(year: int, month: int)
    requires year >= 1970 && 1 <= month <= 12
    ensures MonthStart(year, month) == DaysFromCivil(year, month, 1) * DAY_MS
    ensures YearMonth(MonthStart(year, month)) == (year, month)
  {
    hide CivilFromDays, DaysFromCivil, FirstOf;
    EpochIsDayZero();
    FirstOfIndex(1970, 1);
    FirstOfIndex(year, month);
    FirstsRise(MonthIndex(1970, 1), MonthIndex(year, month));
    DateComesBack(Date(year, month, 1));
  }

  // Times in order are in months in order.
  lemma MonthsInOrder(a: nat, b: nat)
    requires a <= b
    ensures MonthIndex(YearMonth(a).0, YearMonth(a).1) <= MonthIndex(YearMonth(b).0, YearMonth(b).1)
  {
    hide CivilFromDays, FirstOf;
    var j, k := MonthIndex(YearMonth(a).0, YearMonth(a).1), MonthIndex(YearMonth(b).0, YearMonth(b).1);
    DayLiesInItsMonth(DayOf(a));
    DayLiesInItsMonth(DayOf(b));
    if j > k {
      FirstsRise(k + 1, j);
    }
  }
}
