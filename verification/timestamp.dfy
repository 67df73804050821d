/**
 * The dashboard's load-time correction: every game timestamp is moved one hour later, carrying
 * into the day, month and year on the proleptic Gregorian calendar (naive timestamps, no
 * daylight-saving rules).
 */
module Timestamp {

  /** A parsed timestamp: calendar date and time of day. */
  datatype DateTime = DateTime(year: int, month: int, day: int, hour: int, minute: int, second: int)

  predicate IsLeapYear(y: int) {
    y % 4 == 0 && (y % 100 != 0 || y % 400 == 0)
  }

  function DaysInYear(y: int): nat {
    if IsLeapYear(y) then 366 else 365
  }

  function DaysInMonth(y: int, m: int): nat
    requires 1 <= m <= 12
  {
    if m == 2 then (if IsLeapYear(y) then 29 else 28)
    else if m == 4 || m == 6 || m == 9 || m == 11 then 30
    else 31
  }

  /** A real calendar date and time of day, from year 1 on. */
  predicate Valid(dt: DateTime) {
    && 1 <= dt.year
    && 1 <= dt.month <= 12
    && 1 <= dt.day <= DaysInMonth(dt.year, dt.month)
    && 0 <= dt.hour < 24
    && 0 <= dt.minute < 60
    && 0 <= dt.second < 60
  }

  /** Days in the years before `y`, counted from 1 January of year 1. */
  function DaysBeforeYear(y: int): nat
    requires 1 <= y
    decreases y
  {
    if y == 1 then 0 else DaysBeforeYear(y - 1) + DaysInYear(y - 1)
  }

  /** Days in the months of year `y` before month `m`. */
  function DaysBeforeMonth(y: int, m: int): nat
    requires 1 <= m <= 13
    decreases m
  {
    if m == 1 then 0 else DaysBeforeMonth(y, m - 1) + DaysInMonth(y, m - 1)
  }

  /** The twelve months make up the year. */
  lemma MonthsFillYear(y: int)
    ensures DaysBeforeMonth(y, 13) == DaysInYear(y)
  {
    assert DaysBeforeMonth(y, 3) == 31 + DaysInMonth(y, 2);
    assert DaysBeforeMonth(y, 7) == DaysBeforeMonth(y, 3) + 31 + 30 + 31 + 30;
    assert DaysBeforeMonth(y, 13) == DaysBeforeMonth(y, 7) + 31 + 31 + 30 + 31 + 30 + 31;
  }

  /** Days since 1 January of year 1. */
  function DayNumber(dt: DateTime): int
    requires Valid(dt)
  {
    DaysBeforeYear(dt.year) + DaysBeforeMonth(dt.year, dt.month) + dt.day - 1
  }

  /** Seconds since midnight of 1 January of year 1: the reference the shift is measured against. */
  function Seconds(dt: DateTime): int
    requires Valid(dt)
  {
    DayNumber(dt) * 86400 + dt.hour * 3600 + dt.minute * 60 + dt.second
  }

  /** The date after the given one, carrying into the month and the year. */
  function NextDay(dt: DateTime): (r: DateTime)
    requires Valid(dt)
    ensures Valid(r)
    ensures DayNumber(r) == DayNumber(dt) + 1
    ensures (r.hour, r.minute, r.second) == (dt.hour, dt.minute, dt.second)
  {
    if dt.day < DaysInMonth(dt.year, dt.month) then
      dt.(day := dt.day + 1)
    else if dt.month < 12 then
      MonthCarry(dt);
      dt.(month := dt.month + 1, day := 1)
    else
      YearCarry(dt);
      dt.(year := dt.year + 1, month := 1, day := 1)
  }

  /** The first day of the next month follows the last day of this one. */
  lemma MonthCarry(dt: DateTime)
    requires Valid(dt) && dt.day == DaysInMonth(dt.year, dt.month) && dt.month < 12
    ensures Valid(dt.(month := dt.month + 1, day := 1))
    ensures DayNumber(dt.(month := dt.month + 1, day := 1)) == DayNumber(dt) + 1
  {
  }

  /** 1 January follows 31 December. */
  lemma YearCarry(dt: DateTime)
    requires Valid(dt) && dt.day == DaysInMonth(dt.year, dt.month) && dt.month == 12
    ensures Valid(dt.(year := dt.year + 1, month := 1, day := 1))
    ensures DayNumber(dt.(year := dt.year + 1, month := 1, day := 1)) == DayNumber(dt) + 1
  {
    MonthsFillYear(dt.year);
  }

  /** `DateTime + Timedelta(hours=1)`. */
  function AddHour(dt: DateTime): (r: DateTime)
    requires Valid(dt)
    ensures Valid(r)
    ensures Seconds(r) == Seconds(dt) + 3600
    ensures (r.minute, r.second) == (dt.minute, dt.second)
  {
    if dt.hour < 23 then dt.(hour := dt.hour + 1)
    else NextDay(dt).(hour := 0)
  }

  lemma {:induction false} DaysBeforeMonthGrows(y: int, m1: int, m2: int)
    requires 1 <= m1 <= m2 <= 13
    ensures DaysBeforeMonth(y, m1) <= DaysBeforeMonth(y, m2)
    decreases m2 - m1
  {
    if m1 < m2 {
      DaysBeforeMonthGrows(y, m1, m2 - 1);
    }
  }

  lemma {:induction false} DaysBeforeYearGrows(y1: int, y2: int)
    requires 1 <= y1 <= y2
    ensures DaysBeforeYear(y1) <= DaysBeforeYear(y2)
    decreases y2 - y1
  {
    if y1 < y2 {
      DaysBeforeYearGrows(y1, y2 - 1);
    }
  }

  /** A valid date's day number falls inside its month, and its month inside its year. */
  lemma DayNumberBounds(dt: DateTime)
    requires Valid(dt)
    ensures DaysBeforeYear(dt.year) + DaysBeforeMonth(dt.year, dt.month) <= DayNumber(dt)
    ensures DayNumber(dt) < DaysBeforeYear(dt.year) + DaysBeforeMonth(dt.year, dt.month + 1)
    ensures DayNumber(dt) < DaysBeforeYear(dt.year + 1)
  {
    DaysBeforeMonthGrows(dt.year, dt.month + 1, 13);
    MonthsFillYear(dt.year);
  }

  /** The years' day ranges do not overlap. */
  lemma YearUnique(y1: int, y2: int, n: int)
    requires 1 <= y1 && 1 <= y2
    requires DaysBeforeYear(y1) <= n < DaysBeforeYear(y1 + 1)
    requires DaysBeforeYear(y2) <= n < DaysBeforeYear(y2 + 1)
    ensures y1 == y2
  {
    if y1 < y2 {
      DaysBeforeYearGrows(y1 + 1, y2);
    } else if y2 < y1 {
      DaysBeforeYearGrows(y2 + 1, y1);
    }
  }

  /** Within a year, the months' day ranges do not overlap. */
  lemma MonthUnique(y: int, m1: int, m2: int, n: int)
    requires 1 <= m1 <= 12 && 1 <= m2 <= 12
    requires DaysBeforeMonth(y, m1) <= n < DaysBeforeMonth(y, m1 + 1)
    requires DaysBeforeMonth(y, m2) <= n < DaysBeforeMonth(y, m2 + 1)
    ensures m1 == m2
  {
    if m1 < m2 {
      DaysBeforeMonthGrows(y, m1 + 1, m2);
    } else if m2 < m1 {
      DaysBeforeMonthGrows(y, m2 + 1, m1);
    }
  }

  /** Different valid dates have different day numbers. */
  lemma DayNumberInjective(a: DateTime, b: DateTime)
    requires Valid(a) && Valid(b)
    requires DayNumber(a) == DayNumber(b)
    ensures (a.year, a.month, a.day) == (b.year, b.month, b.day)
  {
    DayNumberBounds(a);
    DayNumberBounds(b);
    YearUnique(a.year, b.year, DayNumber(a));
    var n := DayNumber(a) - DaysBeforeYear(a.year);
    MonthUnique(a.year, a.month, b.month, n);
  }

  /** `q * unit + r` with `0 <= r < unit` determines `q` and `r`. */
  lemma DivisionUnique(q1: int, r1: int, q2: int, r2: int, unit: int)
    requires unit > 0 && 0 <= r1 < unit && 0 <= r2 < unit
    requires q1 * unit + r1 == q2 * unit + r2
    ensures q1 == q2 && r1 == r2
  {
    if q1 != q2 {
      var lo, hi := if q1 < q2 then q1 else q2, if q1 < q2 then q2 else q1;
      assert (hi - lo) * unit == hi * unit - lo * unit;
      MulAtLeast(hi - lo, unit);
    }
  }

  lemma MulAtLeast(k: int, unit: int)
    requires k >= 1 && unit > 0
    ensures k * unit >= unit
  {
    assert k * unit == (k - 1) * unit + unit;
  }

  /** Different valid timestamps are different instants: `Seconds` determines the timestamp. */
  lemma SecondsInjective(a: DateTime, b: DateTime)
    requires Valid(a) && Valid(b)
    requires Seconds(a) == Seconds(b)
    ensures a == b
  {
    var ta := a.hour * 3600 + a.minute * 60 + a.second;
    var tb := b.hour * 3600 + b.minute * 60 + b.second;
    DivisionUnique(DayNumber(a), ta, DayNumber(b), tb, 86400);
    DivisionUnique(a.hour, a.minute * 60 + a.second, b.hour, b.minute * 60 + b.second, 3600);
    DivisionUnique(a.minute, a.second, b.minute, b.second, 60);
    DayNumberInjective(a, b);
  }

  /** The shifted timestamp is the one valid timestamp exactly an hour later. */
  lemma AddHourUnique(dt: DateTime, later: DateTime)
    requires Valid(dt) && Valid(later)
    requires Seconds(later) == Seconds(dt) + 3600
    ensures AddHour(dt) == later
  {
    SecondsInjective(AddHour(dt), later);
  }

  /** The worked example: a game played in the last hour of 2012 (UTC) falls in the first hour of 2013 in server time. */
  lemma ExampleNewYear()
    ensures AddHour(DateTime(2012, 12, 31, 23, 1, 3)) == DateTime(2013, 1, 1, 0, 1, 3)
  {
  }

  /** Leap days are honoured: in 2012, 28 February 23:30 moves to 29 February. */
  lemma ExampleLeapDay()
    ensures AddHour(DateTime(2012, 2, 28, 23, 30, 0)) == DateTime(2012, 2, 29, 0, 30, 0)
  {
  }

  /** In 2013, a common year, 28 February 23:30 moves to 1 March. */
  lemma ExampleCommonYear()
    ensures AddHour(DateTime(2013, 2, 28, 23, 30, 0)) == DateTime(2013, 3, 1, 0, 30, 0)
  {
  }
}
