/**
 * `getDateString`: the `YYYY-MM-DD` date (the `full-date` form of section 5.6
 * of RFC 3339) of a timestamp, found by subtracting whole years and then whole
 * months from the seconds since 1970-01-01T00:00:00Z.
 */
module DateFormat {
  import opened Decimal
  import opened Calendar

  /** `${year}-${month}-${day}`. */
  function JoinDate(year: string, month: string, day: string): string {
    year + "-" + month + "-" + day
  }

  /** The year, a dash, the 1-based month and the day, both padded to two digits. */
  function FormatDate(d: Date): string
    requires ValidDate(d)
  {
    JoinDate(NatToString(d.year), PadStart(NatToString(d.month + 1), 2, '0'), PadStart(NatToString(d.day), 2, '0'))
  }

  /** The date string of a timestamp: the calendar date of its day index, formatted. */
  function DateString(timestamp: int): (s: string)
    requires 0 <= timestamp <= MaxTimestamp
    ensures |s| == 10 && s[4] == '-' && s[7] == '-'
  {
    var d := CivilFromDays(UnixDays(timestamp));
    CivilYearBound(UnixDays(timestamp));
    FormatDateReadsBack(d);
    FormatDate(d)
  }

  /** Splitting `t = 86400 * k + r` by whole days. */
  lemma DayQuotient(k: nat, r: nat)
    ensures (SecondsPerDay * k + r) / SecondsPerDay == k + r / SecondsPerDay
  {
  }

  method GetDateString(timestamp: int) returns (s: string)
    requires 0 <= timestamp <= MaxTimestamp
    ensures s == DateString(timestamp)
  {
    var secondsInAYear := SecondsPerDay * 365;
    var secondsInALeapYear := SecondsPerDay * 366;
    var rest := timestamp;
    var year := EpochYear;
    var month := 0;
    var day := 1;
    var daysInMonth := new nat[12] [31, 28, 31, 30, 31, 30, 31, 31, 30, 31, 30, 31];

    while rest >= (if IsLeapYear(year) then secondsInALeapYear else secondsInAYear)
      invariant year >= EpochYear
      invariant 0 <= rest && rest + SecondsPerDay * DaysBeforeYear(year) == timestamp
    {
      rest := rest - if IsLeapYear(year) then secondsInALeapYear else secondsInAYear;
      year := year + 1;
    }
    // The seconds left are less than one year of `year`.
    assert rest < SecondsPerDay * DaysInYear(year);

    daysInMonth[1] := if IsLeapYear(year) then 29 else 28;
    MonthsFillYear(year);

    while rest >= SecondsPerDay * daysInMonth[month]
      invariant 0 <= month < 12
      invariant forall k :: 0 <= k < 12 ==> daysInMonth[k] == MonthLength(year, k)
      invariant 0 <= rest
      invariant rest + SecondsPerDay * (DaysBeforeYear(year) + DaysBeforeMonth(year, month)) == timestamp
      invariant rest < SecondsPerDay * (DaysInYear(year) - DaysBeforeMonth(year, month))
      decreases 12 - month
    {
      rest := rest - SecondsPerDay * daysInMonth[month];
      month := month + 1;
    }

    day := day + rest / SecondsPerDay;
    var date := Date(year, month, day);
    assert ValidDate(date);
    DayQuotient(DaysBeforeYear(year) + DaysBeforeMonth(year, month), rest);
    assert DaysFromCivil(date) == UnixDays(timestamp);
    CivilFromDaysRoundTrip(date);

    var formattedMonth := PadStart(NatToString(month + 1), 2, '0');
    var formattedDay := PadStart(NatToString(day), 2, '0');
    s := NatToString(year) + "-" + formattedMonth + "-" + formattedDay;
  }

  lemma PiecesAt(s: string, y: string, m: string, d: string)
    requires |y| == 4 && |m| == 2 && |d| == 2 && s == y + "-" + m + "-" + d
    ensures |s| == 10 && s[4] == '-' && s[7] == '-' && s[..4] == y && s[5..7] == m && s[8..] == d
  {
    assert s == y + ("-" + m + "-" + d);
    assert s[..4] == y;
    assert s[5..7] == m;
    assert s[8..] == d;
  }

  /** The pieces of a formatted date with a four-digit year sit at fixed places. */
  lemma FormatDatePieces(d: Date)
    requires ValidDate(d) && 1000 <= d.year <= 9999
    ensures var s := FormatDate(d);
      && |s| == 10 && s[4] == '-' && s[7] == '-'
      && s[..4] == NatToString(d.year)
      && s[5..7] == PadStart(NatToString(d.month + 1), 2, '0')
      && s[8..] == PadStart(NatToString(d.day), 2, '0')
  {
    var y := NatToString(d.year);
    var m := PadStart(NatToString(d.month + 1), 2, '0');
    var dd := PadStart(NatToString(d.day), 2, '0');
    FourDigits(d.year);
    AtMostTwoDigits(d.month + 1);
    AtMostTwoDigits(d.day);
    PiecesAt(FormatDate(d), y, m, dd);
  }

  /** A formatted date with a four-digit year reads back, piece by piece, as the date. */
  lemma FormatDateReadsBack(d: Date)
    requires ValidDate(d) && 1000 <= d.year <= 9999
    ensures var s := FormatDate(d);
      && |s| == 10 && s[4] == '-' && s[7] == '-'
      && AllDigits(s[..4]) && AllDigits(s[5..7]) && AllDigits(s[8..])
      && ValueOf(s[..4]) == d.year && ValueOf(s[5..7]) == d.month + 1 && ValueOf(s[8..]) == d.day
  {
    FormatDatePieces(d);
    NatToStringRoundTrip(d.year);
    PadTwoDigits(d.month + 1);
    PadTwoDigits(d.day);
  }

  /** `s` is four year digits, a dash, two month digits, a dash and two day digits, which read back
    * as a valid date whose day count is `days`. */
  predicate ReadsBackAs(s: string, days: nat) {
    && |s| == 10 && s[4] == '-' && s[7] == '-'
    && AllDigits(s[..4]) && AllDigits(s[5..7]) && AllDigits(s[8..])
    && 1 <= ValueOf(s[5..7]) <= 12
    && var date := Date(ValueOf(s[..4]), ValueOf(s[5..7]) - 1, ValueOf(s[8..]));
    && ValidDate(date) && DaysFromCivil(date) == days
  }

  /** What the date string says: it reads back as the timestamp's day index. */
  lemma DateStringLayout(timestamp: int)
    requires 0 <= timestamp <= MaxTimestamp
    ensures ReadsBackAs(DateString(timestamp), UnixDays(timestamp))
  {
    var d := CivilFromDays(UnixDays(timestamp));
    CivilYearBound(UnixDays(timestamp));
    FormatDateReadsBack(d);
  }

  /** Different dates with four-digit years format differently. */
  lemma FormatDateInjective(d1: Date, d2: Date)
    requires ValidDate(d1) && 1000 <= d1.year <= 9999
    requires ValidDate(d2) && 1000 <= d2.year <= 9999
    ensures FormatDate(d1) == FormatDate(d2) <==> d1 == d2
  {
    FormatDateReadsBack(d1);
    FormatDateReadsBack(d2);
  }

  /** Two timestamps get the same date string exactly when they have the same day index. */
  lemma DateStringIdentifiesDay(t1: int, t2: int)
    requires 0 <= t1 <= MaxTimestamp && 0 <= t2 <= MaxTimestamp
    ensures DateString(t1) == DateString(t2) <==> UnixDays(t1) == UnixDays(t2)
  {
    var n1, n2 := UnixDays(t1), UnixDays(t2);
    CivilYearBound(n1);
    CivilYearBound(n2);
    FormatDateInjective(CivilFromDays(n1), CivilFromDays(n2));
  }

  lemma FormatEpoch()
    ensures ValidDate(Date(1970, 0, 1)) && FormatDate(Date(1970, 0, 1)) == "1970-01-01"
  {
    assert NatToString(19) == ['1', '9'];
    assert NatToString(197) == NatToString(19) + ['7'];
    assert NatToString(1970) == NatToString(197) + ['0'];
    assert NatToString(1970) == "1970";
    assert PadStart(NatToString(1), 2, '0') == "01";
    assert FormatDate(Date(1970, 0, 1)) == JoinDate("1970", "01", "01");
  }

  /** Timestamp 0 is "1970-01-01". */
  lemma EpochDateString()
    ensures DateString(0) == "1970-01-01"
  {
    var d := Date(1970, 0, 1);
    assert DaysFromCivil(d) == 0;
    CivilFromDaysRoundTrip(d);
    FormatEpoch();
  }

  lemma FormatLeapDay()
    ensures ValidDate(Date(2024, 1, 29)) && FormatDate(Date(2024, 1, 29)) == "2024-02-29"
  {
    assert NatToString(20) == ['2', '0'];
    assert NatToString(202) == NatToString(20) + ['2'];
    assert NatToString(2024) == NatToString(202) + ['4'];
    assert PadStart(NatToString(2), 2, '0') == "02";
    assert NatToString(29) == ['2', '9'];
    assert PadStart(NatToString(29), 2, '0') == "29";
  }

  lemma LeapDayCount()
    ensures ValidDate(Date(2024, 1, 29)) && DaysFromCivil(Date(2024, 1, 29)) == 19782
  {
    DaysBeforeYearClosedForm(2024);
    assert DaysBeforeYear(2024) == 19723;
    assert DaysBeforeMonth(2024, 1) == 31;
  }

  /** 2024 is a leap year: 2024-02-29 00:00:00Z (1709164800) is "2024-02-29". */
  lemma LeapDayDateString()
    ensures DateString(1709164800) == "2024-02-29"
  {
    var d := Date(2024, 1, 29);
    LeapDayCount();
    CivilFromDaysRoundTrip(d);
    FormatLeapDay();
  }
}
