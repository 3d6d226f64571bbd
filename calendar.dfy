/**
 * Proleptic Gregorian calendar arithmetic in UTC, as the ECMAScript `Date`
 * object does it: day numbers counted from 1970-01-01 (ECMA-262 section
 * 21.4.1, "Day Number and Time within Day", "Year Number", "Month Number",
 * "Date Number") and the month/day overflow of the MakeDay abstract operation.
 */
module Calendar {

  /** A calendar date; `month` runs 1..12 and `day` 1..31 when `ValidDate` holds. */
  datatype Date = Date(year: int, month: int, day: int)

  /** An instant in UTC: a date and the milliseconds elapsed since its midnight. */
  datatype Instant = Instant(date: Date, msOfDay: int)

  const MsPerDay: int := 86400000

  predicate IsLeapYear(y: int)
  {
    y % 4 == 0 && (y % 100 != 0 || y % 400 == 0)
  }

  function DaysInYear(y: int): (n: int)
    ensures n == 365 || n == 366
    ensures n == 366 <==> IsLeapYear(y)
  {
    if IsLeapYear(y) then 366 else 365
  }

  function DaysInMonth(y: int, m: int): (n: int)
    requires 1 <= m <= 12
    ensures 28 <= n <= 31
    ensures n == 29 <==> m == 2 && IsLeapYear(y)
  {
    if m == 2 then (if IsLeapYear(y) then 29 else 28)
    else if m == 4 || m == 6 || m == 9 || m == 11 then 30
    else 31
  }

  predicate ValidDate(d: Date)
  {
    1 <= d.month <= 12 && 1 <= d.day <= DaysInMonth(d.year, d.month)
  }

  predicate ValidInstant(t: Instant)
  {
    ValidDate(t.date) && 0 <= t.msOfDay < MsPerDay
  }

  /** Calendar order: `a` is a strictly earlier date than `b`. */
  predicate Before(a: Date, b: Date)
  {
    a.year < b.year || (a.year == b.year && (a.month < b.month || (a.month == b.month && a.day < b.day)))
  }

  /** The number of whole months from year 0 to the start of month `m` of year `y`. */
  function MonthIndex(y: int, m: int): int
  {
    12 * y + (m - 1)
  }

  /**
   * The date `d - 1` days after the first of month `m` of year `y`: a day
   * number beyond the month's length spills over into the following months.
   */
  function Overflow(y: int, m: int, d: int): (r: Date)
    requires 1 <= m <= 12 && 1 <= d
    ensures ValidDate(r)
    decreases d
  {
    if d <= DaysInMonth(y, m) then Date(y, m, d)
    else if m == 12 then Overflow(y + 1, 1, d - 31)
    else Overflow(y, m + 1, d - DaysInMonth(y, m))
  }

  /**
   * MakeDay(year, month, date) of ECMA-262 section 21.4.1, read back as a
   * calendar date: `month` is zero-based and may run past 11 (the excess
   * carries into the year), and `date` may run past the month's length.
   */
  function MakeDay(year: int, month: int, date: int): (r: Date)
    requires 1 <= date
    ensures ValidDate(r)
  {
    Overflow(year + month / 12, month % 12 + 1, date)
  }

  /** `setMonth(getMonth() + n)` on a date. */
  function AddMonths(d: Date, n: int): (r: Date)
    requires ValidDate(d)
    ensures ValidDate(r)
  {
    MakeDay(d.year, d.month - 1 + n, d.day)
  }

  /** `setFullYear(getFullYear() + n)` on a date. */
  function AddYears(d: Date, n: int): (r: Date)
    requires ValidDate(d)
    ensures ValidDate(r)
  {
    MakeDay(d.year + n, d.month - 1, d.day)
  }

  /** Overflow never lands in a month before the one it starts from; it stays put when the day fits. */
  lemma {:induction false} OverflowNotEarlier(y: int, m: int, d: int)
    requires 1 <= m <= 12 && 1 <= d
    ensures MonthIndex(y, m) <= MonthIndex(Overflow(y, m, d).year, Overflow(y, m, d).month)
    ensures d <= DaysInMonth(y, m) ==> Overflow(y, m, d) == Date(y, m, d)
    decreases d
  {
    if d > DaysInMonth(y, m) {
      if m == 12 {
        OverflowNotEarlier(y + 1, 1, d - 31);
      } else {
        OverflowNotEarlier(y, m + 1, d - DaysInMonth(y, m));
      }
    }
  }

  /** MakeDay lands in month number `12 * year + month` or later, and exactly there, on `date`, when the date fits. */
  lemma MakeDayMonth(year: int, month: int, date: int)
    requires 1 <= date
    ensures MonthIndex(year, 1) + month <= MonthIndex(MakeDay(year, month, date).year, MakeDay(year, month, date).month)
    ensures date <= 28 ==> MakeDay(year, month, date).day == date
    ensures date <= 28 ==> MonthIndex(year, 1) + month == MonthIndex(MakeDay(year, month, date).year, MakeDay(year, month, date).month)
  {
    OverflowNotEarlier(year + month / 12, month % 12 + 1, date);
  }

  /** A date in a later month is a later date. */
  lemma LaterMonthIsLater(a: Date, b: Date)
    requires ValidDate(a) && ValidDate(b)
    requires MonthIndex(a.year, a.month) < MonthIndex(b.year, b.month)
    ensures Before(a, b)
  {
  }

  /** Adding a positive number of months gives a strictly later date. */
  lemma AddMonthsLater(d: Date, n: int)
    requires ValidDate(d) && n >= 1
    ensures Before(d, AddMonths(d, n))
  {
    MakeDayMonth(d.year, d.month - 1 + n, d.day);
    LaterMonthIsLater(d, AddMonths(d, n));
  }

  /** Adding a positive number of years gives a strictly later date. */
  lemma AddYearsLater(d: Date, n: int)
    requires ValidDate(d) && n >= 1
    ensures Before(d, AddYears(d, n))
  {
    MakeDayMonth(d.year + n, d.month - 1, d.day);
    LaterMonthIsLater(d, AddYears(d, n));
  }

  // ---------------------------------------------------------------------------
  // Day numbers and time values

  /** Day(TimeFromYear(y)) of ECMA-262: the day number of January 1 of year `y`. */
  function DayFromYear(y: int): int
  {
    365 * (y - 1970) + (y - 1969) / 4 - (y - 1901) / 100 + (y - 1601) / 400
  }

  /** The number of days in the months of year `y` before month `m`. */
  function DaysBeforeMonth(y: int, m: int): (n: int)
    requires 1 <= m <= 13
    ensures 0 <= n
    decreases m
  {
    if m == 1 then 0 else DaysBeforeMonth(y, m - 1) + DaysInMonth(y, m - 1)
  }

  /** The day number of a date: days since 1970-01-01, negative before it. */
  function DayNumber(d: Date): int
    requires ValidDate(d)
  {
    DayFromYear(d.year) + DaysBeforeMonth(d.year, d.month) + d.day - 1
  }

  /** The time value of an instant, in milliseconds since the epoch. */
  function TimeValue(t: Instant): int
    requires ValidDate(t.date)
  {
    DayNumber(t.date) * MsPerDay + t.msOfDay
  }

  /** Consecutive years are `DaysInYear` days apart. */
  lemma DayFromYearStep(y: int)
    ensures DayFromYear(y + 1) == DayFromYear(y) + DaysInYear(y)
  {
    var a, b, c := (y - 1969) / 4, (y - 1901) / 100, (y - 1601) / 400;
    var a', b', c' := (y + 1 - 1969) / 4, (y + 1 - 1901) / 100, (y + 1 - 1601) / 400;
    assert DayFromYear(y) == 365 * (y - 1970) + a - b + c;
    assert DayFromYear(y + 1) == 365 * (y - 1970) + 365 + a' - b' + c';
    StepBy4(y);
    StepBy100(y);
    StepBy400(y);
    LeapDaysByDivisors(y);
  }

  /** The leap rule as a sum: one day for divisibility by 4, less one for 100, plus one for 400. */
  lemma LeapDaysByDivisors(y: int)
    ensures DaysInYear(y) == 365 + (if y % 4 == 0 then 1 else 0) - (if y % 100 == 0 then 1 else 0) + (if y % 400 == 0 then 1 else 0)
  {
    if y % 400 == 0 {
      assert y == 100 * (4 * (y / 400));
      assert y == 4 * (100 * (y / 400));
    } else if y % 100 == 0 {
      assert y == 4 * (25 * (y / 100));
    }
  }

  /** The count of years divisible by 4 grows by one exactly at such a year. */
  lemma StepBy4(y: int)
    ensures (y + 1 - 1969) / 4 == (y - 1969) / 4 + (if y % 4 == 0 then 1 else 0)
  {
  }

  /** The count of years divisible by 100 grows by one exactly at such a year. */
  lemma StepBy100(y: int)
    ensures (y + 1 - 1901) / 100 == (y - 1901) / 100 + (if y % 100 == 0 then 1 else 0)
  {
  }

  /** The count of years divisible by 400 grows by one exactly at such a year. */
  lemma StepBy400(y: int)
    ensures (y + 1 - 1601) / 400 == (y - 1601) / 400 + (if y % 400 == 0 then 1 else 0)
  {
  }

  /** The days of a year's twelve months add up to the year's length. */
  lemma DaysBeforeYearEnd(y: int)
    ensures DaysBeforeMonth(y, 13) == DaysInYear(y)
  {
  }

  /** A year starts after every day of any earlier year. */
  lemma {:induction false} DayFromYearMonotone(y: int, z: int)
    requires y < z
    ensures DayFromYear(y) + DaysInYear(y) <= DayFromYear(z)
    decreases z - y
  {
    DayFromYearStep(y);
    if y + 1 < z {
      DayFromYearMonotone(y + 1, z);
    }
  }

  /** Within one year, a later month starts after every day of an earlier month. */
  lemma {:induction false} DaysBeforeMonthMonotone(y: int, m: int, n: int)
    requires 1 <= m < n <= 13
    ensures DaysBeforeMonth(y, m) + DaysInMonth(y, m) <= DaysBeforeMonth(y, n)
    decreases n - m
  {
    if m + 1 < n {
      DaysBeforeMonthMonotone(y, m + 1, n);
    }
  }

  /** The first day of zero-based month `month` of `year`, the excess months carried into the year. */
  function FirstOfMonth(year: int, month: int): (r: Date)
    ensures ValidDate(r) && r.day == 1
    ensures MonthIndex(r.year, r.month) == MonthIndex(year, 1) + month
  {
    Date(year + month / 12, month % 12 + 1, 1)
  }

  /**
   * Overflow is counting days: the result's day number is that of the first
   * of month `m` plus `d - 1`, however far `d` runs past the month's end.
   */
  lemma {:induction false} OverflowDayNumber(y: int, m: int, d: int)
    requires 1 <= m <= 12 && 1 <= d
    ensures DayNumber(Overflow(y, m, d)) == DayNumber(Date(y, m, 1)) + d - 1
    decreases d
  {
    if d > DaysInMonth(y, m) {
      if m == 12 {
        OverflowDayNumber(y + 1, 1, d - 31);
        YearCarryDayNumber(y);
      } else {
        OverflowDayNumber(y, m + 1, d - DaysInMonth(y, m));
        NextMonthDayNumber(y, m);
      }
    }
  }

  /** January 1 of the next year comes 31 days after December 1. */
  lemma YearCarryDayNumber(y: int)
    ensures DayNumber(Date(y + 1, 1, 1)) == DayNumber(Date(y, 12, 1)) + 31
  {
    DayFromYearStep(y);
    DaysBeforeYearEnd(y);
  }

  /** Within a year, the first of the next month comes a month's length after the first of this one. */
  lemma NextMonthDayNumber(y: int, m: int)
    requires 1 <= m < 12
    ensures DayNumber(Date(y, m + 1, 1)) == DayNumber(Date(y, m, 1)) + DaysInMonth(y, m)
  {
  }

  /**
   * ECMA-262's own definition of MakeDay: Day(first of the target month) +
   * date - 1. A day past the target month's length moves into the following
   * month; it is never clamped to the month's last day.
   */
  lemma MakeDayDayNumber(year: int, month: int, date: int)
    requires 1 <= date
    ensures DayNumber(MakeDay(year, month, date)) == DayNumber(FirstOfMonth(year, month)) + date - 1
  {
    var y, m := year + month / 12, month % 12 + 1;
    assert MakeDay(year, month, date) == Overflow(y, m, date);
    assert FirstOfMonth(year, month) == Date(y, m, 1);
    OverflowDayNumber(y, m, date);
  }

  /** `setMonth(getMonth() + n)` counts `d.day - 1` days on from the first of the target month. */
  lemma AddMonthsDayNumber(d: Date, n: int)
    requires ValidDate(d)
    ensures DayNumber(AddMonths(d, n)) == DayNumber(FirstOfMonth(d.year, d.month - 1 + n)) + d.day - 1
  {
    var month := d.month - 1 + n;
    assert AddMonths(d, n) == MakeDay(d.year, month, d.day);
    MakeDayDayNumber(d.year, month, d.day);
  }

  /** `setFullYear(getFullYear() + n)` counts `d.day - 1` days on from the first of the same month `n` years on. */
  lemma AddYearsDayNumber(d: Date, n: int)
    requires ValidDate(d)
    ensures DayNumber(AddYears(d, n)) == DayNumber(Date(d.year + n, d.month, 1)) + d.day - 1
  {
    assert (d.month - 1) / 12 == 0 && (d.month - 1) % 12 + 1 == d.month;
    assert AddYears(d, n) == Overflow(d.year + n, d.month, d.day);
    OverflowDayNumber(d.year + n, d.month, d.day);
  }

  /** Day numbers follow calendar order, in both directions. */
  lemma DayNumberOrder(a: Date, b: Date)
    requires ValidDate(a) && ValidDate(b)
    ensures Before(a, b) <==> DayNumber(a) < DayNumber(b)
    ensures a == b <==> DayNumber(a) == DayNumber(b)
  {
    if Before(a, b) {
      DayNumberStrict(a, b);
    } else if Before(b, a) {
      DayNumberStrict(b, a);
    }
  }

  lemma DayNumberStrict(a: Date, b: Date)
    requires ValidDate(a) && ValidDate(b) && Before(a, b)
    ensures DayNumber(a) < DayNumber(b)
  {
    if a.year < b.year {
      DaysBeforeMonthMonotone(a.year, a.month, 13);
      DaysBeforeYearEnd(a.year);
      DayFromYearMonotone(a.year, b.year);
    } else if a.month < b.month {
      DaysBeforeMonthMonotone(a.year, a.month, b.month);
    }
  }
}
