/**
 * `timestampToDateString`: the UTC calendar date of a Unix timestamp,
 * written "yyyy-MM-dd". The calendar is the Gregorian one; days are counted
 * from 1970-01-01.
 */
module Calendar {
  import opened Encoding

  const SecondsPerDay: nat := 86400

  predicate IsLeapYear(y: int) {
    y % 4 == 0 && (y % 100 != 0 || y % 400 == 0)
  }

  function DaysInYear(y: int): nat {
    if IsLeapYear(y) then 366 else 365
  }

  function DaysInMonth(y: int, m: int): nat
    requires 1 <= m <= 12
  {
    if m == 2 then (if IsLeapYear(y) then 29 else 28)
    else if m == 4 || m == 6 || m == 9 || m == 11 then 30
    else 31
  }

  /** Days of year `y` before the first of month `m` (m == 13: the whole year). */
  function DaysBeforeMonth(y: int, m: int): nat
    requires 1 <= m <= 13
  {
    var common := [0, 31, 59, 90, 120, 151, 181, 212, 243, 273, 304, 334, 365][m - 1];
    if m > 2 && IsLeapYear(y) then common + 1 else common
  }

  lemma DaysBeforeNextMonth(y: int, m: int)
    requires 1 <= m <= 12
    ensures DaysBeforeMonth(y, m + 1) == DaysBeforeMonth(y, m) + DaysInMonth(y, m)
    ensures DaysBeforeMonth(y, 13) == DaysInYear(y)
  {
  }

  datatype Date = Date(year: int, month: int, day: int)

  /** A real calendar day on or after 1970-01-01. */
  predicate ValidDate(d: Date) {
    d.year >= 1970 && 1 <= d.month <= 12 && 1 <= d.day <= DaysInMonth(d.year, d.month)
  }

  /** Days in the years 1970 .. y-1. */
  function DaysBeforeYear(y: int): nat
    requires y >= 1970
    decreases y - 1970
  {
    if y == 1970 then 0 else DaysBeforeYear(y - 1) + DaysInYear(y - 1)
  }

  /** Days from 1970-01-01 to `d`: the inverse of DateOfDay. */
  function DayNumber(d: Date): nat
    requires ValidDate(d)
  {
    DaysBeforeYear(d.year) + DaysBeforeMonth(d.year, d.month) + d.day - 1
  }

  /** Month and day of the `rem`-th day (from 0) of year `y`, counting from month `m`. */
  function MonthWalk(y: int, m: int, rem: nat): (d: Date)
    requires y >= 1970 && 1 <= m <= 12
    requires DaysBeforeMonth(y, m) + rem < DaysInYear(y)
    ensures ValidDate(d) && d.year == y && d.month >= m
    ensures DaysBeforeMonth(y, d.month) + d.day - 1 == DaysBeforeMonth(y, m) + rem
    decreases 12 - m
  {
    DaysBeforeNextMonth(y, m);
    if rem < DaysInMonth(y, m) then Date(y, m, rem + 1)
    else MonthWalk(y, m + 1, rem - DaysInMonth(y, m))
  }

  /** The date `rem` days after January 1st of year `y`. */
  function YearWalk(y: int, rem: nat): (d: Date)
    requires y >= 1970
    ensures ValidDate(d) && d.year >= y
    ensures DaysBeforeYear(d.year) == DaysBeforeYear(y) + (rem - (DaysBeforeMonth(d.year, d.month) + d.day - 1))
    decreases rem
  {
    if rem < DaysInYear(y) then MonthWalk(y, 1, rem)
    else
      var d := YearWalk(y + 1, rem - DaysInYear(y));
      d
  }

  /** The calendar date of day number `n` (0 is 1970-01-01). */
  function DateOfDay(n: nat): (d: Date)
    ensures ValidDate(d)
    ensures DayNumber(d) == n
  {
    YearWalk(1970, n)
  }

  lemma {:induction false} DaysBeforeYearMonotonic(y: int, z: int)
    requires 1970 <= y < z
    ensures DaysBeforeYear(y) + DaysInYear(y) <= DaysBeforeYear(z)
    decreases z - y
  {
    if z > y + 1 {
      DaysBeforeYearMonotonic(y, z - 1);
    }
  }

  /** Distinct valid dates have distinct day numbers. */
  lemma DayNumberInjective(d: Date, e: Date)
    requires ValidDate(d) && ValidDate(e)
    requires DayNumber(d) == DayNumber(e)
    ensures d == e
  {
    DaysBeforeNextMonth(d.year, d.month);
    DaysBeforeNextMonth(e.year, e.month);
    if d.year < e.year {
      DaysBeforeYearMonotonic(d.year, e.year);
      MonthBoundWithinYear(d.year, d.month);
    } else if e.year < d.year {
      DaysBeforeYearMonotonic(e.year, d.year);
      MonthBoundWithinYear(e.year, e.month);
    } else if d.month < e.month {
      MonthsOrdered(d.year, d.month + 1, e.month);
    } else if e.month < d.month {
      MonthsOrdered(d.year, e.month + 1, d.month);
    }
  }

  lemma MonthBoundWithinYear(y: int, m: int)
    requires 1 <= m <= 12
    ensures DaysBeforeMonth(y, m) + DaysInMonth(y, m) <= DaysInYear(y)
  {
    DaysBeforeNextMonth(y, m);
    MonthsOrdered(y, m + 1, 13);
  }

  lemma MonthsOrdered(y: int, m: int, n: int)
    requires 1 <= m <= n <= 13
    ensures DaysBeforeMonth(y, m) <= DaysBeforeMonth(y, n)
  {
  }

  /** Every valid date is the date of its own day number. */
  lemma DateOfDayNumber(d: Date)
    requires ValidDate(d)
    ensures DateOfDay(DayNumber(d)) == d
  {
    DayNumberInjective(DateOfDay(DayNumber(d)), d);
  }

  /** "yyyy": at least four digits, zero padded. */
  function YearText(y: nat): (r: string)
    ensures AllDigits(r) && |r| >= 4
  {
    if y < 10000 then FixedWidth(y, 4)
    else
      assert Pow10(4) == 10000;
      NatToDecimalLength(y, 4);
      NatToDecimal(y)
  }

  /** `timestampToDateString`: "yyyy-MM-dd" of the UTC day that holds `timestamp`. */
  function DateString(timestamp: nat): (r: string)
  {
    var d := DateOfDay(timestamp / SecondsPerDay);
    YearText(d.year) + "-" + FixedWidth(d.month, 2) + "-" + FixedWidth(d.day, 2)
  }

  /**
   * Up to year 9999 the date text is exactly ten characters, with dashes at
   * positions 4 and 7, and its three fields read back as the UTC date of the
   * timestamp.
   */
  lemma DateStringReadsBack(timestamp: nat)
    requires DateOfDay(timestamp / SecondsPerDay).year < 10000
    ensures var r := DateString(timestamp);
      var d := DateOfDay(timestamp / SecondsPerDay);
      && |r| == 10 && r[4] == '-' && r[7] == '-'
      && AllDigits(r[..4]) && AllDigits(r[5..7]) && AllDigits(r[8..])
      && ParseNat(r[..4]) == d.year && ParseNat(r[5..7]) == d.month && ParseNat(r[8..]) == d.day
  {
    var d := DateOfDay(timestamp / SecondsPerDay);
    var r := DateString(timestamp);
    assert Pow10(2) == 100 && Pow10(4) == 10000;
    ParseFixedWidth(d.year, 4);
    ParseFixedWidth(d.month, 2);
    ParseFixedWidth(d.day, 2);
    DashedFields(FixedWidth(d.year, 4), FixedWidth(d.month, 2), FixedWidth(d.day, 2));
  }

  /** Fields of four, two and two characters joined by dashes are found again at fixed positions. */
  lemma DashedFields(y4: string, m2: string, d2: string)
    requires |y4| == 4 && |m2| == 2 && |d2| == 2
    ensures var r := y4 + "-" + m2 + "-" + d2;
      |r| == 10 && r[4] == '-' && r[7] == '-' && r[..4] == y4 && r[5..7] == m2 && r[8..] == d2
  {
    var r := y4 + "-" + m2 + "-" + d2;
    assert r[..4] == y4;
    assert r[5..7] == m2;
    assert r[8..] == d2;
  }

  /** Up to year 9999, the date text identifies the UTC day: equal texts mean the same day. */
  lemma DateStringIdentifiesDay(t1: nat, t2: nat)
    requires DateOfDay(t1 / SecondsPerDay).year < 10000
    requires DateOfDay(t2 / SecondsPerDay).year < 10000
    requires DateString(t1) == DateString(t2)
    ensures t1 / SecondsPerDay == t2 / SecondsPerDay
  {
    DateStringReadsBack(t1);
    DateStringReadsBack(t2);
    var d1, d2 := DateOfDay(t1 / SecondsPerDay), DateOfDay(t2 / SecondsPerDay);
    assert d1 == d2;
  }
}
