/** Calendar dates. The pages store dates as `YYYY-MM-DD` strings and read them
    back through `new Date(..)`; here a date is already parsed into its year,
    month (1-12) and day, and `DayNumber` counts whole days so that differences
    of dates are whole numbers of days. */
module Dates {

  datatype Date = Date(year: int, month: int, day: int)

  /** Days since 1970-01-01 in the proleptic Gregorian calendar (the
      "days from civil" algorithm; `/` and `%` are floor operations here since
      every divisor is positive). */
  function DayNumber(d: Date): int {
    var y := if d.month <= 2 then d.year - 1 else d.year;
    var era := y / 400;
    var yoe := y - era * 400;
    var mp := (d.month + 9) % 12;
    var doy := (153 * mp + 2) / 5 + d.day - 1;
    var doe := yoe * 365 + yoe / 4 - yoe / 100 + doy;
    era * 146097 + doe - 719468
  }

  /** `getMonth() === month && getFullYear() === year` for a stored date. */
  predicate InMonth(d: Date, month: int, year: int) {
    d.month == month && d.year == year
  }

  /** Within a month the day number advances one per day. */
  lemma DayNumberWithinMonth(y: int, m: int, d: int, k: int)
    requires 1 <= m <= 12
    ensures DayNumber(Date(y, m, d + k)) == DayNumber(Date(y, m, d)) + k
  {
  }

  /** The Gregorian leap-year rule. */
  predicate IsLeap(y: int) {
    y % 4 == 0 && (y % 100 != 0 || y % 400 == 0)
  }

  function DaysIn(y: int, m: int): int {
    if m == 2 then (if IsLeap(y) then 29 else 28)
    else if m == 4 || m == 6 || m == 9 || m == 11 then 30
    else 31
  }

  /** A date that exists on the calendar. */
  predicate Valid(d: Date) {
    1 <= d.month <= 12 && 1 <= d.day <= DaysIn(d.year, d.month)
  }

  /** The calendar's next day, defined without reference to `DayNumber`. */
  function NextDay(d: Date): (r: Date)
    requires Valid(d)
    ensures Valid(r)
  {
    if d.day < DaysIn(d.year, d.month) then Date(d.year, d.month, d.day + 1)
    else if d.month < 12 then Date(d.year, d.month + 1, 1)
    else Date(d.year + 1, 1, 1)
  }

  /** The day count of the March-based years before `y`, as `DayNumber`
      computes it. */
  function YearStart(y: int): int {
    var era := y / 400;
    var yoe := y - era * 400;
    era * 146097 + yoe * 365 + yoe / 4 - yoe / 100
  }

  /** The March-based year that starts in `y - 1` ends in February of `y`, so
      it has 366 days exactly when `y` is a leap year. */
  lemma YearLength(y: int)
    ensures YearStart(y) - YearStart(y - 1) == if IsLeap(y) then 366 else 365
  {
    var a := y - 1;
    var era := a / 400;
    var yoe := a - era * 400;
    if yoe == 399 {
      EraSplit(y, era + 1, 0);
      assert YearStart(y) == (era + 1) * 146097;
      EraSplit(a, era, 399);
      assert YearStart(a) == era * 146097 + 399 * 365 + 99 - 3;
    } else {
      EraSplit(y, era, yoe + 1);
      EraSplit(a, era, yoe);
      QuarterStep(yoe);
      CenturyStep(yoe);
    }
  }

  /** Writing a year as a whole number of 400-year eras and a remainder fixes
      its era, its remainder and its leap-year tests. */
  lemma EraSplit(y: int, era: int, yoe: int)
    requires y == era * 400 + yoe && 0 <= yoe < 400
    ensures y / 400 == era && y - era * 400 == yoe
    ensures y % 4 == yoe % 4 && y % 100 == yoe % 100
    ensures y % 400 == 0 <==> yoe == 0
  {
    ShiftMod4(era * 100, yoe);
    ShiftMod100(era * 4, yoe);
  }

  lemma ShiftMod4(k: int, r: int)
    ensures (k * 4 + r) % 4 == r % 4
  {
  }

  lemma ShiftMod100(k: int, r: int)
    ensures (k * 100 + r) % 100 == r % 100
  {
  }

  lemma QuarterStep(r: int)
    requires 0 <= r
    ensures (r + 1) / 4 - r / 4 == if (r + 1) % 4 == 0 then 1 else 0
  {
  }

  lemma CenturyStep(r: int)
    requires 0 <= r
    ensures (r + 1) / 100 - r / 100 == if (r + 1) % 100 == 0 then 1 else 0
  {
  }

  /** The last day of February is followed by March 1st. */
  lemma FebruaryEnd(y: int)
    ensures DayNumber(Date(y, 3, 1)) == DayNumber(Date(y, 2, DaysIn(y, 2))) + 1
  {
    YearLength(y);
    DayNumberParts(Date(y, 3, 1));
    DayNumberParts(Date(y, 2, DaysIn(y, 2)));
    assert MonthOffset(3) == 0 && MonthOffset(2) == 337;
  }

  /** The days before the 1st of month `m` in its March-based year. */
  function MonthOffset(m: int): int {
    (153 * ((m + 9) % 12) + 2) / 5
  }

  /** `DayNumber` is the start of the date's March-based year, plus the days
      before its month in that year, plus the day of the month. */
  lemma DayNumberParts(d: Date)
    ensures DayNumber(d) ==
      YearStart(if d.month <= 2 then d.year - 1 else d.year) + MonthOffset(d.month) + d.day - 1 - 719468
  {
  }

  /** The offsets of successive months in the same March-based year differ by
      the earlier month's length. */
  lemma MonthOffsetStep(y: int, m: int)
    requires 1 <= m <= 11 && m != 2
    ensures MonthOffset(m + 1) - MonthOffset(m) == DaysIn(y, m)
  {
    if m == 1 {
      assert MonthOffset(1) == 306 && MonthOffset(2) == 337;
    } else if m <= 6 {
      assert MonthOffset(3) == 0 && MonthOffset(4) == 31 && MonthOffset(5) == 61;
      assert MonthOffset(6) == 92 && MonthOffset(7) == 122;
    } else {
      assert MonthOffset(7) == 122 && MonthOffset(8) == 153 && MonthOffset(9) == 184;
      assert MonthOffset(10) == 214 && MonthOffset(11) == 245 && MonthOffset(12) == 275;
    }
  }

  /** The last day of every other month but December is followed by the 1st of
      the next. */
  lemma MonthEnd(y: int, m: int)
    requires 1 <= m <= 11 && m != 2
    ensures DayNumber(Date(y, m + 1, 1)) == DayNumber(Date(y, m, DaysIn(y, m))) + 1
  {
    DayNumberParts(Date(y, m + 1, 1));
    DayNumberParts(Date(y, m, DaysIn(y, m)));
    MonthOffsetStep(y, m);
  }

  /** December 31st is followed by January 1st of the next year. */
  lemma YearEnd(y: int)
    ensures DayNumber(Date(y + 1, 1, 1)) == DayNumber(Date(y, 12, 31)) + 1
  {
  }

  /** `DayNumber` counts calendar days: the next day of every date on the
      calendar is one more, across month and year ends too. */
  lemma NextDayCounts(d: Date)
    requires Valid(d)
    ensures DayNumber(NextDay(d)) == DayNumber(d) + 1
  {
    if d.day < DaysIn(d.year, d.month) {
      assert NextDay(d) == Date(d.year, d.month, d.day + 1);
      DayNumberWithinMonth(d.year, d.month, d.day, 1);
    } else if d.month == 2 {
      assert NextDay(d) == Date(d.year, 3, 1) && d == Date(d.year, 2, DaysIn(d.year, 2));
      FebruaryEnd(d.year);
    } else if d.month < 12 {
      assert NextDay(d) == Date(d.year, d.month + 1, 1) && d == Date(d.year, d.month, DaysIn(d.year, d.month));
      MonthEnd(d.year, d.month);
    } else {
      assert NextDay(d) == Date(d.year + 1, 1, 1) && d == Date(d.year, 12, 31);
      YearEnd(d.year);
    }
  }

  /** Day 0 is 1970-01-01, the epoch `Date` differences are measured from. */
  lemma EpochIsDayZero()
    ensures DayNumber(Date(1970, 1, 1)) == 0
  {
  }
}
