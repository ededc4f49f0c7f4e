/** The weekday of a departure date, as `convdate` obtains it from
    `Time.strptime(date, '%m/%d/%Y').wday`: 0 for Sunday up to 6 for
    Saturday, in the proleptic Gregorian calendar. The date is taken already
    split into month, day and year. */
module Calendar {

  datatype Date = Date(year: int, month: int, day: int)

  predicate IsLeapYear(y: int)
  {
    y % 4 == 0 && (y % 100 != 0 || y % 400 == 0)
  }

  function DaysInMonth(y: int, m: int): int
    requires 1 <= m <= 12
  {
    if m == 2 then (if IsLeapYear(y) then 29 else 28)
    else if m == 4 || m == 6 || m == 9 || m == 11 then 30
    else 31
  }

  /** A calendar date that exists: `strptime` is given well-formed input. */
  predicate ValidDate(d: Date)
  {
    1 <= d.month <= 12 && 1 <= d.day <= DaysInMonth(d.year, d.month)
  }

  /** Days of the year before the first of month `m`. */
  function DaysBeforeMonth(y: int, m: int): int
    requires 1 <= m <= 12
  {
    [0, 31, 59, 90, 120, 151, 181, 212, 243, 273, 304, 334][m - 1]
      + (if m > 2 && IsLeapYear(y) then 1 else 0)
  }

  /** Days from 1 January of year 1 to 1 January of year `y`; `/` is floor
      division for a positive divisor, so years before 1 count backwards. */
  function DaysBeforeYear(y: int): int
  {
    var p := y - 1;
    365 * p + p / 4 - p / 100 + p / 400
  }

  /** Days since Monday, 1 January of year 1. */
  function DayNumber(d: Date): int
    requires ValidDate(d)
  {
    DaysBeforeYear(d.year) + DaysBeforeMonth(d.year, d.month) + d.day - 1
  }

  /** `convdate`: the weekday of a valid date, Sunday being 0. */
  function Weekday(d: Date): (w: int)
    requires ValidDate(d)
    ensures 0 <= w <= 6
  {
    (DayNumber(d) + 1) % 7
  }

  /** The day after `d`. */
  function NextDay(d: Date): (n: Date)
    requires ValidDate(d)
    ensures ValidDate(n)
  {
    if d.day < DaysInMonth(d.year, d.month) then Date(d.year, d.month, d.day + 1)
    else if d.month < 12 then Date(d.year, d.month + 1, 1)
    else Date(d.year + 1, 1, 1)
  }

  /** The cumulative month table agrees with the month lengths. */
  lemma DaysBeforeNextMonth(y: int, m: int)
    requires 1 <= m < 12
    ensures DaysBeforeMonth(y, m + 1) == DaysBeforeMonth(y, m) + DaysInMonth(y, m)
  {
  }

  /** A year has 366 days when it is a leap year and 365 otherwise. */
  lemma YearLength(y: int)
    ensures DaysBeforeYear(y + 1) == DaysBeforeYear(y) + DaysBeforeMonth(y, 12) + 31
  {
    var p := y - 1;
    StepDiv4(p);
    StepDiv100(p);
    StepDiv400(p);
    CenturyDivisibility(y);
    var leap := if IsLeapYear(y) then 1 else 0;
    assert DaysBeforeMonth(y, 12) == 334 + leap;
    assert (if y % 4 == 0 then 1 else 0) - (if y % 100 == 0 then 1 else 0)
      + (if y % 400 == 0 then 1 else 0) == leap;
  }

  /** A multiple of 400 is a multiple of 100, and a multiple of 100 is a
      multiple of 4. */
  lemma CenturyDivisibility(y: int)
    ensures y % 400 == 0 ==> y % 100 == 0
    ensures y % 100 == 0 ==> y % 4 == 0
  {
    if y % 400 == 0 {
      MultipleOf100(y / 400 * 4);
      assert y == (y / 400 * 4) * 100;
    }
    if y % 100 == 0 {
      MultipleOf4(y / 100 * 25);
      assert y == (y / 100 * 25) * 4;
    }
  }

  lemma MultipleOf100(k: int)
    ensures (k * 100) % 100 == 0
  {
  }

  lemma MultipleOf4(k: int)
    ensures (k * 4) % 4 == 0
  {
  }

  lemma StepDiv4(p: int)
    ensures (p + 1) / 4 == p / 4 + (if (p + 1) % 4 == 0 then 1 else 0)
  {
  }

  lemma StepDiv100(p: int)
    ensures (p + 1) / 100 == p / 100 + (if (p + 1) % 100 == 0 then 1 else 0)
  {
  }

  lemma StepDiv400(p: int)
    ensures (p + 1) / 400 == p / 400 + (if (p + 1) % 400 == 0 then 1 else 0)
  {
  }

  /** Consecutive dates have consecutive day numbers. */
  lemma NextDayNumber(d: Date)
    requires ValidDate(d)
    ensures DayNumber(NextDay(d)) == DayNumber(d) + 1
  {
    if d.day == DaysInMonth(d.year, d.month) {
      if d.month < 12 {
        DaysBeforeNextMonth(d.year, d.month);
      } else {
        YearLength(d.year);
      }
    }
  }

  /** The weekday advances by one, Saturday wrapping to Sunday, from each
      date to the next. */
  lemma NextWeekday(d: Date)
    requires ValidDate(d)
    ensures Weekday(NextDay(d)) == (Weekday(d) + 1) % 7
  {
    NextDayNumber(d);
    ModSucc(DayNumber(d) + 1);
  }

  lemma ModSucc(x: int)
    ensures (x + 1) % 7 == (x % 7 + 1) % 7
  {
  }

  lemma ModShift(x: int)
    ensures (x + 146097) % 7 == x % 7
  {
  }

  lemma LeapPeriod(y: int)
    ensures IsLeapYear(y + 400) == IsLeapYear(y)
  {
    ShiftMod4(y);
    ShiftMod100(y);
    ShiftMod400(y);
  }

  lemma ShiftMod4(y: int)
    ensures (y + 400) % 4 == y % 4
  {
  }

  lemma ShiftMod100(y: int)
    ensures (y + 400) % 100 == y % 100
  {
  }

  lemma ShiftMod400(y: int)
    ensures (y + 400) % 400 == y % 400
  {
  }

  lemma FourHundredYears(y: int)
    ensures DaysBeforeYear(y + 400) == DaysBeforeYear(y) + 7 * 20871
  {
    var p := y - 1;
    assert (p + 400) / 4 == p / 4 + 100;
    assert (p + 400) / 100 == p / 100 + 4;
    assert (p + 400) / 400 == p / 400 + 1;
  }

  /** The calendar repeats its weekdays every 400 years (146097 days). */
  lemma WeekdayPeriod(d: Date)
    requires ValidDate(d)
    ensures ValidDate(Date(d.year + 400, d.month, d.day))
    ensures Weekday(Date(d.year + 400, d.month, d.day)) == Weekday(d)
  {
    var e := Date(d.year + 400, d.month, d.day);
    LeapPeriod(d.year);
    FourHundredYears(d.year);
    assert DayNumber(e) == DayNumber(d) + 7 * 20871;
    ModShift(DayNumber(d) + 1);
  }

  /** 1 January 1970 was a Thursday and 1 January 2000 a Saturday. */
  lemma KnownWeekdays()
    ensures Weekday(Date(1970, 1, 1)) == 4
    ensures Weekday(Date(2000, 1, 1)) == 6
  {
  }
}
