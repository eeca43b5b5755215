/**
 * Calendar arithmetic behind the daily buckets: the Gregorian leap-year rule
 * (RFC 3339, Appendix C), the day index of a timestamp, and the count of days
 * between 1970-01-01 and a calendar date, in both directions.
 */
module Calendar {

  const SecondsPerDay: nat := 86400
  const EpochYear: int := 1970
  /** The largest timestamp an i32 holds; `timestamp.toI32()` is exact up to here. */
  const MaxTimestamp: int := 0x7fff_ffff

  /** `isLeapYear`: the nested tests of the source, which amount to the Gregorian rule. */
  function IsLeapYear(year: int): (leap: bool)
    ensures leap <==> year % 4 == 0 && (year % 100 != 0 || year % 400 == 0)
  {
    if year % 4 == 0 then
      if year % 100 == 0 then
        if year % 400 == 0 then true else false
      else true
    else false
  }

  /** `getUnixDays`: the day index of a timestamp, the floor of its quotient by a day. */
  function UnixDays(timestamp: int): (days: nat)
    requires 0 <= timestamp <= MaxTimestamp
    ensures days * SecondsPerDay <= timestamp < (days + 1) * SecondsPerDay
  {
    timestamp / SecondsPerDay
  }

  function DaysInYear(year: int): (days: nat)
    ensures days == 365 || days == 366
    ensures days == 366 <==> IsLeapYear(year)
  {
    if IsLeapYear(year) then 366 else 365
  }

  /** The source's `daysInMonth` table before February is corrected. */
  const CommonMonthDays: seq<nat> := [31, 28, 31, 30, 31, 30, 31, 31, 30, 31, 30, 31]

  /** Length of month `month` (0 = January) of `year`, February corrected for leap years. */
  function MonthLength(year: int, month: int): (days: nat)
    requires 0 <= month < 12
    ensures 28 <= days <= 31
    ensures month == 1 ==> days == if IsLeapYear(year) then 29 else 28
    ensures month != 1 ==> days == CommonMonthDays[month]
  {
    if month == 1 then (if IsLeapYear(year) then 29 else 28) else CommonMonthDays[month]
  }

  /** Days in the whole years 1970 .. year - 1. */
  function DaysBeforeYear(year: int): (days: nat)
    requires year >= EpochYear
    ensures 365 * (year - EpochYear) <= days <= 366 * (year - EpochYear)
    decreases year - EpochYear
  {
    if year == EpochYear then 0 else DaysBeforeYear(year - 1) + DaysInYear(year - 1)
  }

  /** Days in the months 0 .. month - 1 of `year`. */
  function DaysBeforeMonth(year: int, month: int): (days: nat)
    requires 0 <= month <= 12
    ensures 28 * month <= days <= 31 * month
  {
    if month == 0 then 0 else DaysBeforeMonth(year, month - 1) + MonthLength(year, month - 1)
  }

  /** The twelve months of a year add up to its length. */
  lemma MonthsFillYear(year: int)
    ensures DaysBeforeMonth(year, 12) == DaysInYear(year)
  {
    var feb := MonthLength(year, 1);
    assert DaysBeforeMonth(year, 2) == 31 + feb;
    assert DaysBeforeMonth(year, 4) == 31 + feb + 31 + 30;
    assert DaysBeforeMonth(year, 6) == 31 + feb + 31 + 30 + 31 + 30;
    assert DaysBeforeMonth(year, 8) == 31 + feb + 31 + 30 + 31 + 30 + 31 + 31;
    assert DaysBeforeMonth(year, 10) == 31 + feb + 31 + 30 + 31 + 30 + 31 + 31 + 30 + 31;
  }

  lemma {:induction false} DaysBeforeYearMonotone(y1: int, y2: int)
    requires EpochYear <= y1 <= y2
    ensures DaysBeforeYear(y1) <= DaysBeforeYear(y2)
    decreases y2 - y1
  {
    if y1 < y2 {
      DaysBeforeYearMonotone(y1, y2 - 1);
    }
  }

  lemma {:induction false} DaysBeforeMonthMonotone(year: int, m1: int, m2: int)
    requires 0 <= m1 <= m2 <= 12
    ensures DaysBeforeMonth(year, m1) <= DaysBeforeMonth(year, m2)
    decreases m2 - m1
  {
    if m1 < m2 {
      DaysBeforeMonthMonotone(year, m1, m2 - 1);
    }
  }

  /** Leap days in the years 1 .. year - 1 of the proleptic Gregorian calendar. */
  function LeapDaysBefore(year: int): int {
    (year - 1) / 4 - (year - 1) / 100 + (year - 1) / 400
  }

  /** Passing year `y` adds one to each count of multiples exactly when `y` is such a multiple. */
  lemma DivisibleStep(y: int)
    ensures LeapDaysBefore(y + 1) - LeapDaysBefore(y) == if IsLeapYear(y) then 1 else 0
  {
    var by4 := MultipleStep(y, 4);
    var by100 := MultipleStep(y, 100);
    var by400 := MultipleStep(y, 400);
    assert LeapDaysBefore(y + 1) - LeapDaysBefore(y) == by4 - by100 + by400;
    NestedMultiples(y);
  }

  /** A multiple of 400 is a multiple of 100, and a multiple of 100 is a multiple of 4. */
  lemma NestedMultiples(y: int)
    ensures y % 400 == 0 ==> y % 100 == 0
    ensures y % 100 == 0 ==> y % 4 == 0
  {
    var q400, q100 := y / 400, y / 100;
    if y % 400 == 0 {
      MultipleHasNoRemainder(y, 100, 4 * q400);
    }
    if y % 100 == 0 {
      MultipleHasNoRemainder(y, 4, 25 * q100);
    }
  }

  lemma MultipleHasNoRemainder(y: int, k: int, q: int)
    requires k == 4 || k == 100
    requires y == k * q
    ensures y % k == 0
  {
    var r := y % k;
    assert y == k * (y / k) + r && 0 <= r < k;
    assert r == k * (q - y / k);
  }

  lemma MultipleStep(y: int, k: int) returns (step: int)
    requires k == 4 || k == 100 || k == 400
    ensures step == y / k - (y - 1) / k
    ensures step == if y % k == 0 then 1 else 0
  {
    var q, r := y / k, y % k;
    assert y == k * q + r && 0 <= r < k;
    if r == 0 {
      assert y - 1 == k * (q - 1) + (k - 1);
    } else {
      assert y - 1 == k * q + (r - 1);
    }
    step := y / k - (y - 1) / k;
  }

  /** Closed form of the year sum: 365 days a year plus one per leap year since 1970. */
  lemma {:induction false} DaysBeforeYearClosedForm(year: int)
    requires year >= EpochYear
    ensures DaysBeforeYear(year) == 365 * (year - EpochYear) + LeapDaysBefore(year) - LeapDaysBefore(EpochYear)
    decreases year - EpochYear
  {
    if year > EpochYear {
      var y := year - 1;
      DaysBeforeYearClosedForm(y);
      DivisibleStep(y);
      assert DaysBeforeYear(year) == DaysBeforeYear(y) + DaysInYear(y);
    }
  }

  /** A calendar date as the source holds it: the year, the month index 0..11 and the 1-based day. */
  datatype Date = Date(year: int, month: int, day: int)

  predicate ValidDate(d: Date) {
    d.year >= EpochYear && 0 <= d.month < 12 && 1 <= d.day <= MonthLength(d.year, d.month)
  }

  /** Days from 1970-01-01 to `d`; a valid date falls inside its own year. */
  function DaysFromCivil(d: Date): (days: nat)
    requires ValidDate(d)
    ensures DaysBeforeYear(d.year) <= days < DaysBeforeYear(d.year + 1)
  {
    DaysBeforeMonthMonotone(d.year, d.month + 1, 12);
    MonthsFillYear(d.year);
    DaysBeforeYear(d.year) + DaysBeforeMonth(d.year, d.month) + d.day - 1
  }

  /** The years partition the day counts: a count lies in the span of one year only. */
  lemma YearSpansDisjoint(y1: int, y2: int, days: int)
    requires EpochYear <= y1 && EpochYear <= y2
    requires DaysBeforeYear(y1) <= days < DaysBeforeYear(y1 + 1)
    requires DaysBeforeYear(y2) <= days < DaysBeforeYear(y2 + 1)
    ensures y1 == y2
  {
    if y1 < y2 {
      DaysBeforeYearMonotone(y1 + 1, y2);
    } else if y2 < y1 {
      DaysBeforeYearMonotone(y2 + 1, y1);
    }
  }

  /** Two valid dates with the same day count are in the same year. */
  lemma SameDaysSameYear(d1: Date, d2: Date)
    requires ValidDate(d1) && ValidDate(d2)
    requires DaysFromCivil(d1) == DaysFromCivil(d2)
    ensures d1.year == d2.year
  {
    YearSpansDisjoint(d1.year, d2.year, DaysFromCivil(d1));
  }

  /** Two valid dates with the same day count are the same date. */
  lemma DaysFromCivilInjective(d1: Date, d2: Date)
    requires ValidDate(d1) && ValidDate(d2)
    requires DaysFromCivil(d1) == DaysFromCivil(d2)
    ensures d1 == d2
  {
    SameDaysSameYear(d1, d2);
    var y := d1.year;
    assert DaysBeforeMonth(y, d1.month) + d1.day == DaysBeforeMonth(y, d2.month) + d2.day;
    if d1.month < d2.month {
      DaysBeforeMonthMonotone(y, d1.month + 1, d2.month);
    } else if d2.month < d1.month {
      DaysBeforeMonthMonotone(y, d2.month + 1, d1.month);
    }
  }

  /** The date `rem` days into month `month` of `year`, moving on through the year's later months. */
  function MonthFrom(rem: nat, year: int, month: int): (d: Date)
    requires year >= EpochYear && 0 <= month < 12
    requires DaysBeforeMonth(year, month) + rem < DaysInYear(year)
    ensures ValidDate(d) && d.year == year
    ensures DaysBeforeMonth(year, d.month) + d.day - 1 == DaysBeforeMonth(year, month) + rem
    decreases 12 - month
  {
    var length := MonthLength(year, month);
    if rem < length then Date(year, month, rem + 1)
    else
      MonthsFillYear(year);
      MonthFrom(rem - length, year, month + 1)
  }

  /** The date `rem` days after January 1st of `year`. */
  function YearFrom(rem: nat, year: int): (d: Date)
    requires year >= EpochYear
    ensures ValidDate(d) && DaysFromCivil(d) == DaysBeforeYear(year) + rem
    decreases rem
  {
    var length := DaysInYear(year);
    if rem >= length then YearFrom(rem - length, year + 1)
    else MonthFrom(rem, year, 0)
  }

  /** The calendar date of day index `days`: a valid date whose day count is `days`. */
  function CivilFromDays(days: nat): (d: Date)
    ensures ValidDate(d) && DaysFromCivil(d) == days
  {
    YearFrom(days, EpochYear)
  }

  /** Going from a valid date to its day count and back gives the date. */
  lemma CivilFromDaysRoundTrip(d: Date)
    requires ValidDate(d)
    ensures CivilFromDays(DaysFromCivil(d)) == d
  {
    DaysFromCivilInjective(CivilFromDays(DaysFromCivil(d)), d);
  }

  /** Day index 24855 (the last an i32 timestamp reaches) is in 2038, so every year here has four digits. */
  lemma CivilYearBound(days: nat)
    requires days <= MaxTimestamp / SecondsPerDay
    ensures EpochYear <= CivilFromDays(days).year <= 2038
  {
  }
}
