/** The arithmetic of `getNextMidnightTimestamp` in src/utils.ts: given the
    zone-local calendar date that Intl reports, the code returns
    `Date.UTC(year, month - 1, day + 1)`, i.e. 00:00 UTC of the next calendar
    date. `Date.UTC` is modelled after section 21.4 of ECMA-262 (DayFromYear,
    MakeDay, MakeDate, TimeClip and the two-digit-year rule of Date.UTC). */
module CivilDate {
  import opened Wrappers

  const MsPerDay: int := 86400000

  /** Largest magnitude of a time value (section 21.4.1.1 of ECMA-262). */
  const MaxTimeValue: int := 8640000000000000

  predicate IsLeapYear(y: int) {
    y % 4 == 0 && (y % 100 != 0 || y % 400 == 0)
  }

  function DaysInYear(y: int): int {
    if IsLeapYear(y) then 366 else 365
  }

  /** DayFromYear: the day number of January 1st of year `y`, counted from
      1970-01-01. Dafny's `/` by a positive constant is floor division, as in
      the standard's formula. */
  function DayFromYear(y: int): int {
    365 * (y - 1970) + (y - 1969) / 4 - (y - 1901) / 100 + (y - 1601) / 400
  }

  /** Length of month `mn` (0 = January). */
  function DaysInMonth(mn: int, leap: bool): int
    requires 0 <= mn < 12
  {
    if mn == 1 then (if leap then 29 else 28)
    else if mn == 3 || mn == 5 || mn == 8 || mn == 10 then 30
    else 31
  }

  /** Days of the year before the first of month `mn` (0 = January). */
  function DaysBeforeMonth(mn: int, leap: bool): int
    requires 0 <= mn < 12
  {
    [0, 31, 59, 90, 120, 151, 181, 212, 243, 273, 304, 334][mn]
      + (if leap && mn >= 2 then 1 else 0)
  }

  /** MakeDay(year, month, date): months beyond 0..11 carry into the year and
      a date beyond the month's length runs on into the following months. */
  function MakeDay(year: int, month: int, date: int): int {
    var ym := year + month / 12;
    var mn := month % 12;
    DayFromYear(ym) + DaysBeforeMonth(mn, IsLeapYear(ym)) + date - 1
  }

  function MakeDate(day: int, time: int): int {
    day * MsPerDay + time
  }

  /** TimeClip: None stands for NaN. */
  function TimeClip(t: int): Option<int> {
    if -MaxTimeValue <= t <= MaxTimeValue then Some(t) else None
  }

  /** `Date.UTC(year, month, date)`; a year in 0..99 means 1900 + year. */
  function DateUtc(year: int, month: int, date: int): (r: Option<int>)
    ensures r.Some? ==> r.value % MsPerDay == 0
    ensures r.Some? ==> -MaxTimeValue <= r.value <= MaxTimeValue
  {
    var yr := if 0 <= year <= 99 then 1900 + year else year;
    TimeClip(MakeDate(MakeDay(yr, month, date), 0))
  }

  /** A proleptic-Gregorian calendar date, month 1..12 as Intl reports it. */
  datatype Date = Date(year: int, month: int, day: int)

  predicate Valid(d: Date) {
    1 <= d.month <= 12 && 1 <= d.day <= DaysInMonth(d.month - 1, IsLeapYear(d.year))
  }

  /** The next calendar date. */
  function Successor(d: Date): (n: Date)
    requires Valid(d)
    ensures Valid(n)
  {
    if d.day < DaysInMonth(d.month - 1, IsLeapYear(d.year)) then Date(d.year, d.month, d.day + 1)
    else if d.month < 12 then Date(d.year, d.month + 1, 1)
    else Date(d.year + 1, 1, 1)
  }

  /** Day number of a date, counted from 1970-01-01: its 00:00 UTC is
      EpochDay(d) * MsPerDay. */
  function EpochDay(d: Date): int
    requires 1 <= d.month <= 12
  {
    DayFromYear(d.year) + DaysBeforeMonth(d.month - 1, IsLeapYear(d.year)) + d.day - 1
  }

  /** Calendar order. */
  predicate Before(a: Date, b: Date) {
    || a.year < b.year
    || (a.year == b.year && a.month < b.month)
    || (a.year == b.year && a.month == b.month && a.day < b.day)
  }

  /** `getNextMidnightTimestamp` given the zone-local date parts: None is NaN. */
  function NextMidnightTimestamp(local: Date): (r: Option<int>)
    ensures r.Some? ==> r.value % MsPerDay == 0
  {
    DateUtc(local.year, local.month - 1, local.day + 1)
  }

  // ---------------------------------------------------------------------
  // Calendar arithmetic

  /** The floor quotients in DayFromYear step up by one from year `y` to
      year `y + 1` exactly when `y` is a multiple of 4, 100 or 400. */
  lemma QuarterStep(y: int)
    ensures (y - 1968) / 4 - (y - 1969) / 4 == (if y % 4 == 0 then 1 else 0)
  {
    assert (y - 1968) % 4 == y % 4;
  }

  lemma CenturyStep(y: int)
    ensures (y - 1900) / 100 - (y - 1901) / 100 == (if y % 100 == 0 then 1 else 0)
  {
    assert (y - 1900) % 100 == y % 100;
  }

  lemma QuadricentennialStep(y: int)
    ensures (y - 1600) / 400 - (y - 1601) / 400 == (if y % 400 == 0 then 1 else 0)
  {
    assert (y - 1600) % 400 == y % 400;
  }

  /** Within a year, MakeDay is the year's first day plus the day of the year. */
  lemma MakeDayInYear(y: int, mn: int, date: int)
    requires 0 <= mn < 12
    ensures MakeDay(y, mn, date) == DayFromYear(y) + DaysBeforeMonth(mn, IsLeapYear(y)) + date - 1
  {
    assert mn / 12 == 0 && mn % 12 == mn;
  }

  /** The day number is MakeDay of the date's parts, with the month
      counted from 0 as Date.UTC takes it. */
  lemma EpochDayIsMakeDay(d: Date)
    requires 1 <= d.month <= 12
    ensures EpochDay(d) == MakeDay(d.year, d.month - 1, d.day)
  {
    MakeDayInYear(d.year, d.month - 1, d.day);
  }

  /** Consecutive years are DaysInYear apart. */
  lemma YearLength(y: int)
    ensures DayFromYear(y + 1) == DayFromYear(y) + DaysInYear(y)
  {
    var q := (y - 1968) / 4 - (y - 1969) / 4;
    var c := (y - 1900) / 100 - (y - 1901) / 100;
    var f := (y - 1600) / 400 - (y - 1601) / 400;
    assert DayFromYear(y + 1) == DayFromYear(y) + 365 + q - c + f;
    QuarterStep(y);
    CenturyStep(y);
    QuadricentennialStep(y);
    LeapDivisors(y);
  }

  /** A multiple of 400 is a multiple of 100, which is a multiple of 4. */
  lemma LeapDivisors(y: int)
    ensures y % 400 == 0 ==> y % 100 == 0
    ensures y % 100 == 0 ==> y % 4 == 0
  {
    if y % 400 == 0 {
      var j := 4 * (y / 400);
      assert y == 100 * j;
      HundredfoldMod(j);
    }
    if y % 100 == 0 {
      var j := 25 * (y / 100);
      assert y == 4 * j;
      FourfoldMod(j);
    }
  }

  lemma HundredfoldMod(j: int)
    ensures (100 * j) % 100 == 0
  {
  }

  lemma FourfoldMod(j: int)
    ensures (4 * j) % 4 == 0
  {
  }

  /** Consecutive months are the earlier month's length apart. */
  lemma MonthLength(mn: int, leap: bool)
    requires 0 <= mn < 11
    ensures DaysBeforeMonth(mn + 1, leap) == DaysBeforeMonth(mn, leap) + DaysInMonth(mn, leap)
  {
  }

  /** The day of the year of a valid date lies within its year. */
  lemma DayOfYearBounds(d: Date)
    requires Valid(d)
    ensures 0 <= EpochDay(d) - DayFromYear(d.year) < DaysInYear(d.year)
  {
    var leap := IsLeapYear(d.year);
    if d.month < 12 {
      MonthsIncrease(d.month - 1, 11, leap);
    }
  }

  /** The successor date is the next day number. */
  lemma SuccessorIsNextDay(d: Date)
    requires Valid(d)
    ensures EpochDay(Successor(d)) == EpochDay(d) + 1
  {
    var n := Successor(d);
    if d.day < DaysInMonth(d.month - 1, IsLeapYear(d.year)) {
      assert n == Date(d.year, d.month, d.day + 1);
      NextDayInMonth(d);
    } else if d.month < 12 {
      assert n == Date(d.year, d.month + 1, 1);
      assert d == Date(d.year, d.month, DaysInMonth(d.month - 1, IsLeapYear(d.year)));
      NextMonth(d.year, d.month);
    } else {
      assert n == Date(d.year + 1, 1, 1);
      assert d == Date(d.year, 12, 31);
      NewYear(d.year);
    }
  }

  lemma NextDayInMonth(d: Date)
    requires 1 <= d.month <= 12
    ensures EpochDay(Date(d.year, d.month, d.day + 1)) == EpochDay(d) + 1
  {
  }

  /** The first of a month follows the last day of the month before. */
  lemma NextMonth(y: int, m: int)
    requires 1 <= m < 12
    ensures EpochDay(Date(y, m + 1, 1)) == EpochDay(Date(y, m, DaysInMonth(m - 1, IsLeapYear(y)))) + 1
  {
    MonthLength(m - 1, IsLeapYear(y));
  }

  /** January 1st follows December 31st. */
  lemma NewYear(y: int)
    ensures EpochDay(Date(y + 1, 1, 1)) == EpochDay(Date(y, 12, 31)) + 1
  {
    YearLength(y);
  }

  /** Later years start later, after the whole of every earlier year. */
  lemma {:induction false} YearsIncrease(a: int, b: int)
    requires a < b
    ensures DayFromYear(a) + DaysInYear(a) <= DayFromYear(b)
    decreases b - a
  {
    YearLength(a);
    if a + 1 < b {
      YearsIncrease(a + 1, b);
    }
  }

  lemma MonthsIncrease(m: int, n: int, leap: bool)
    requires 0 <= m < n < 12
    ensures DaysBeforeMonth(m, leap) + DaysInMonth(m, leap) <= DaysBeforeMonth(n, leap)
  {
  }

  /** Day numbers follow calendar order. */
  lemma EpochDayIncreases(a: Date, b: Date)
    requires Valid(a) && Valid(b) && Before(a, b)
    ensures EpochDay(a) < EpochDay(b)
  {
    if a.year < b.year {
      EarlierYear(a, b);
    } else {
      EarlierInYear(a, b);
    }
  }

  lemma EarlierYear(a: Date, b: Date)
    requires Valid(a) && Valid(b) && a.year < b.year
    ensures EpochDay(a) < EpochDay(b)
  {
    DayOfYearBounds(a);
    DayOfYearBounds(b);
    YearsIncrease(a.year, b.year);
  }

  lemma EarlierInYear(a: Date, b: Date)
    requires Valid(a) && Valid(b) && a.year == b.year && Before(a, b)
    ensures EpochDay(a) < EpochDay(b)
  {
    var leap := IsLeapYear(a.year);
    DayOfYearIncreases(a.month - 1, a.day, b.month - 1, b.day, leap);
  }

  /** Within one year, an earlier month and day is an earlier day of the year. */
  lemma DayOfYearIncreases(m: int, da: int, n: int, db: int, leap: bool)
    requires 0 <= m <= n < 12 && da <= DaysInMonth(m, leap) && 1 <= db
    requires m < n || da < db
    ensures DaysBeforeMonth(m, leap) + da < DaysBeforeMonth(n, leap) + db
  {
    if m < n {
      MonthsIncrease(m, n, leap);
    }
  }

  /** Distinct valid dates have distinct day numbers. */
  lemma EpochDayInjective(a: Date, b: Date)
    requires Valid(a) && Valid(b)
    ensures EpochDay(a) == EpochDay(b) <==> a == b
  {
    if a != b {
      if Before(a, b) {
        EpochDayIncreases(a, b);
      } else {
        EpochDayIncreases(b, a);
      }
    }
  }

  // ---------------------------------------------------------------------
  // getNextMidnightTimestamp

  /** Outside the two-digit years, the result is 00:00 UTC of the successor
      date, one day after 00:00 UTC of the zone-local date itself. */
  lemma NextMidnightIsSuccessorMidnight(d: Date)
    requires Valid(d) && !(0 <= d.year <= 99)
    ensures NextMidnightTimestamp(d) == TimeClip(EpochDay(Successor(d)) * MsPerDay)
    ensures NextMidnightTimestamp(d) == TimeClip(EpochDay(d) * MsPerDay + MsPerDay)
  {
    var day := EpochDay(d);
    NextMidnightOfDay(d);
    MidnightAfter(day);
    SuccessorIsNextDay(d);
  }

  /** Date.UTC of the day after is the day number plus one. */
  lemma NextMidnightOfDay(d: Date)
    requires 1 <= d.month <= 12 && !(0 <= d.year <= 99)
    ensures NextMidnightTimestamp(d) == TimeClip(MakeDate(EpochDay(d) + 1, 0))
  {
    MakeDayInYear(d.year, d.month - 1, d.day + 1);
  }

  lemma MidnightAfter(day: int)
    ensures MakeDate(day + 1, 0) == (day + 1) * MsPerDay == day * MsPerDay + MsPerDay
  {
  }

  /** The result names exactly one date: a valid date's midnight equals it
      precisely when that date is the successor. */
  lemma NextMidnightIdentifiesSuccessor(d: Date, x: Date)
    requires Valid(d) && Valid(x) && !(0 <= d.year <= 99)
    requires NextMidnightTimestamp(d).Some?
    ensures NextMidnightTimestamp(d) == Some(EpochDay(x) * MsPerDay) <==> x == Successor(d)
  {
    NextMidnightIsSuccessorMidnight(d);
    EpochDayInjective(x, Successor(d));
  }

  /** Dec 31 rolls over to Jan 1 of the next year. */
  lemma YearRollover(y: int)
    requires !(0 <= y <= 99)
    ensures NextMidnightTimestamp(Date(y, 12, 31)) == TimeClip(EpochDay(Date(y + 1, 1, 1)) * MsPerDay)
  {
    assert Valid(Date(y, 12, 31)) && Successor(Date(y, 12, 31)) == Date(y + 1, 1, 1);
    NextMidnightIsSuccessorMidnight(Date(y, 12, 31));
  }

  /** The last day of a month before December rolls over to the 1st of the
      next month. */
  lemma MonthRollover(y: int, m: int)
    requires !(0 <= y <= 99) && 1 <= m < 12
    ensures
      var last := Date(y, m, DaysInMonth(m - 1, IsLeapYear(y)));
      NextMidnightTimestamp(last) == TimeClip(EpochDay(Date(y, m + 1, 1)) * MsPerDay)
  {
    NextMidnightIsSuccessorMidnight(Date(y, m, DaysInMonth(m - 1, IsLeapYear(y))));
  }

  /** Feb 28 is followed by Feb 29 exactly in leap years, else by Mar 1. */
  lemma LeapDay(y: int)
    requires !(0 <= y <= 99)
    ensures IsLeapYear(y) ==> NextMidnightTimestamp(Date(y, 2, 28)) == TimeClip(EpochDay(Date(y, 2, 29)) * MsPerDay)
    ensures !IsLeapYear(y) ==> NextMidnightTimestamp(Date(y, 2, 28)) == TimeClip(EpochDay(Date(y, 3, 1)) * MsPerDay)
  {
    NextMidnightIsSuccessorMidnight(Date(y, 2, 28));
  }

  /** A zone-local year 0..99 is read by Date.UTC as 1900..1999. */
  lemma TwoDigitYears(d: Date)
    requires 0 <= d.year <= 99
    ensures NextMidnightTimestamp(d) == NextMidnightTimestamp(Date(d.year + 1900, d.month, d.day))
  {
  }

  /** 2025-05-01 in the zone gives 2025-05-02T00:00:00Z. */
  lemma NextMidnightExample()
    ensures NextMidnightTimestamp(Date(2025, 5, 1)) == Some(1746144000000)
  {
    assert DayFromYear(2025) == 20089;
    MakeDayInYear(2025, 4, 2);
    assert MakeDay(2025, 4, 2) == 20210;
  }
}
