/**
 * Naive timestamps on the proleptic Gregorian calendar, as Python's `datetime` has them.
 *
 * A `DateTime` is a day number (days since 0001-01-01, which is day 0 and a Monday) and a
 * time of day in microseconds since midnight.  Comparison is chronological.
 */
module Calendar {

  const MicrosPerSecond: nat := 1_000_000
  const MicrosPerMinute: nat := 60_000_000
  const MicrosPerHour: nat := 3_600_000_000
  const MicrosPerDay: nat := 86_400_000_000

  /** The last whole second of a day, 23:59:59.000000. */
  const LastSecond: nat := 86_399_000_000

  /** The first year after the range of Python's `datetime`. */
  const YearLimit: int := 10000

  type TimeOfDay = t: nat | t < 86_400_000_000

  /**
   * A wall-clock timestamp: day number and microsecond of the day.  It carries no time zone;
   * every timestamp the application writes is in UTC+8, so wall-clock order is instant order.
   */
  datatype DateTime = DateTime(day: int, tod: TimeOfDay)

  datatype Date = Date(year: int, month: int, day: int)

  // ---------------------------------------------------------------- ordering

  /** `a <= b` on Python datetimes. */
  predicate Le(a: DateTime, b: DateTime) {
    a.day < b.day || (a.day == b.day && a.tod <= b.tod)
  }

  predicate Lt(a: DateTime, b: DateTime) {
    Le(a, b) && a != b
  }

  /** Microseconds since 0001-01-01 00:00:00. */
  function Linear(t: DateTime): int {
    t.day * MicrosPerDay + t.tod
  }

  function FromLinear(x: int): (t: DateTime)
    ensures Linear(t) == x
  {
    DateTime(x / MicrosPerDay, x % MicrosPerDay)
  }

  lemma LinearInjective(a: DateTime, b: DateTime)
    requires Linear(a) == Linear(b)
    ensures a == b
  {
    LeIsLinear(a, b);
    LeIsLinear(b, a);
  }

  lemma LeIsLinear(a: DateTime, b: DateTime)
    ensures Le(a, b) <==> Linear(a) <= Linear(b)
  {
    if a.day < b.day {
      assert Linear(a) < (a.day + 1) * MicrosPerDay <= Linear(b);
    } else if b.day < a.day {
      assert Linear(b) < (b.day + 1) * MicrosPerDay <= Linear(a);
    }
  }

  /** `t + timedelta(microseconds=delta)`; the range limits of `datetime` are not modelled. */
  function Plus(t: DateTime, delta: int): (r: DateTime)
    ensures Linear(r) == Linear(t) + delta
  {
    FromLinear(Linear(t) + delta)
  }

  /** `t + timedelta(days=n)`: the same time of day, `n` days later. */
  function ShiftDays(t: DateTime, n: int): DateTime {
    DateTime(t.day + n, t.tod)
  }

  /** Shifting by whole days is adding `n` days' worth of microseconds. */
  lemma ShiftDaysIsPlus(t: DateTime, n: int)
    ensures ShiftDays(t, n) == Plus(t, n * MicrosPerDay)
  {
    LinearInjective(ShiftDays(t, n), Plus(t, n * MicrosPerDay));
  }

  /** `t.replace(hour=0, minute=0, second=0, microsecond=0)`. */
  function StartOfDay(t: DateTime): (r: DateTime)
    ensures r.day == t.day && r.tod == 0 && Le(r, t)
  {
    DateTime(t.day, 0)
  }

  // ---------------------------------------------------------------- civil calendar

  predicate IsLeap(y: int) {
    y % 4 == 0 && (y % 100 != 0 || y % 400 == 0)
  }

  function DaysInYear(y: int): nat {
    if IsLeap(y) then 366 else 365
  }

  function DaysInMonth(y: int, m: int): (n: nat)
    requires 1 <= m <= 12
    ensures 28 <= n <= 31
  {
    if m == 2 then (if IsLeap(y) then 29 else 28)
    else if m == 4 || m == 6 || m == 9 || m == 11 then 30
    else 31
  }

  /** Days in the months of year `y` before month `m`; month 13 stands for the whole year. */
  function DaysBeforeMonth(y: int, m: int): nat
    requires 1 <= m <= 13
  {
    var leap := if m > 2 && IsLeap(y) then 1 else 0;
    leap + (
      if m == 1 then 0 else if m == 2 then 31 else if m == 3 then 59
      else if m == 4 then 90 else if m == 5 then 120 else if m == 6 then 151
      else if m == 7 then 181 else if m == 8 then 212 else if m == 9 then 243
      else if m == 10 then 273 else if m == 11 then 304 else if m == 12 then 334
      else 365)
  }

  lemma MonthStep(y: int, m: int)
    requires 1 <= m <= 12
    ensures DaysBeforeMonth(y, m + 1) == DaysBeforeMonth(y, m) + DaysInMonth(y, m)
    ensures DaysBeforeMonth(y, 13) == DaysInYear(y)
  {
  }

  /** Days in the years before year `y` (year 1 is the first). */
  function DaysBeforeYear(y: int): int
    requires y >= 1
  {
    var k := y - 1;
    365 * k + k / 4 - k / 100 + k / 400
  }

  lemma YearStep(y: int)
    requires y >= 1
    ensures DaysBeforeYear(y + 1) == DaysBeforeYear(y) + DaysInYear(y)
  {
    DivStep(y - 1, 4);
    DivStep(y - 1, 100);
    DivStep(y - 1, 400);
  }

  /** The quotient by one of the leap-year divisors goes up by one exactly at a multiple. */
  lemma DivStep(k: int, q: int)
    requires q == 4 || q == 100 || q == 400
    ensures (k + 1) / q == k / q + (if (k + 1) % q == 0 then 1 else 0)
  {
    if q == 4 {
      assert (k + 1) / 4 == k / 4 + (if (k + 1) % 4 == 0 then 1 else 0);
    } else if q == 100 {
      assert (k + 1) / 100 == k / 100 + (if (k + 1) % 100 == 0 then 1 else 0);
    } else {
      assert (k + 1) / 400 == k / 400 + (if (k + 1) % 400 == 0 then 1 else 0);
    }
  }

  lemma {:induction false} YearsIncrease(y: int, z: int)
    requires 1 <= y <= z
    ensures DaysBeforeYear(y) + 365 * (z - y) <= DaysBeforeYear(z)
    decreases z - y
  {
    if y < z {
      YearStep(y);
      YearsIncrease(y + 1, z);
    }
  }

  predicate ValidDate(d: Date) {
    1 <= d.year && 1 <= d.month <= 12 && 1 <= d.day <= DaysInMonth(d.year, d.month)
  }

  /** The day number of a calendar date (Python's `toordinal() - 1`). */
  function DayNumber(d: Date): int
    requires ValidDate(d)
  {
    DaysBeforeYear(d.year) + DaysBeforeMonth(d.year, d.month) + d.day - 1
  }

  /** The date of day number `n`, searching forward from year `y`. */
  function DateFrom(n: int, y: int): (d: Date)
    requires y >= 1 && DaysBeforeYear(y) <= n
    ensures ValidDate(d) && DayNumber(d) == n && d.year >= y
    decreases n - DaysBeforeYear(y)
  {
    YearStep(y);
    if n < DaysBeforeYear(y + 1) then
      var doy := n - DaysBeforeYear(y);
      var m := MonthOf(y, doy);
      Date(y, m, doy - DaysBeforeMonth(y, m) + 1)
    else DateFrom(n, y + 1)
  }

  /** The month of year `y` that holds day `doy` (0-based) of that year. */
  function MonthOf(y: int, doy: int): (m: int)
    requires 0 <= doy < DaysInYear(y)
    ensures 1 <= m <= 12
    ensures DaysBeforeMonth(y, m) <= doy < DaysBeforeMonth(y, m) + DaysInMonth(y, m)
  {
    MonthFrom(y, doy, 1)
  }

  /** The month `m' >= m` that holds day `doy`, searching forward from month `m`. */
  function MonthFrom(y: int, doy: int, m: int): (r: int)
    requires 1 <= m <= 12 && DaysBeforeMonth(y, m) <= doy < DaysInYear(y)
    ensures m <= r <= 12
    ensures DaysBeforeMonth(y, r) <= doy < DaysBeforeMonth(y, r) + DaysInMonth(y, r)
    decreases 12 - m
  {
    MonthStep(y, m);
    if m == 12 || doy < DaysBeforeMonth(y, m + 1) then m else MonthFrom(y, doy, m + 1)
  }

  /** The calendar date of day number `n` (Python's `date.fromordinal(n + 1)`). */
  function ToDate(n: int): (d: Date)
    requires n >= 0
    ensures ValidDate(d) && DayNumber(d) == n
  {
    assert DaysBeforeYear(1) == 0;
    DateFrom(n, 1)
  }

  /** Distinct valid dates have distinct day numbers, so `ToDate` inverts `DayNumber`. */
  lemma DateRoundTrip(d: Date)
    requires ValidDate(d)
    ensures ToDate(DayNumber(d)) == d
  {
    var n := DayNumber(d);
    var e := ToDate(n);
    InYear(d);
    InYear(e);
    SameYear(n, d.year, e.year);
    var doy := n - DaysBeforeYear(d.year);
    SameMonth(d.year, doy, d.month, e.month);
  }

  /** A valid date's day number lies among the day numbers of its year. */
  lemma InYear(d: Date)
    requires ValidDate(d)
    ensures DaysBeforeYear(d.year) <= DayNumber(d) < DaysBeforeYear(d.year + 1)
  {
    MonthStep(d.year, d.month);
    MonthsIncrease(d.year, d.month + 1, 13);
    YearStep(d.year);
  }

  lemma SameYear(n: int, y: int, z: int)
    requires 1 <= y && 1 <= z
    requires DaysBeforeYear(y) <= n < DaysBeforeYear(y + 1)
    requires DaysBeforeYear(z) <= n < DaysBeforeYear(z + 1)
    ensures y == z
  {
    if y < z {
      YearsIncrease(y + 1, z);
    } else if z < y {
      YearsIncrease(z + 1, y);
    }
  }

  lemma SameMonth(y: int, doy: int, m: int, k: int)
    requires 1 <= m <= 12 && 1 <= k <= 12
    requires DaysBeforeMonth(y, m) <= doy < DaysBeforeMonth(y, m) + DaysInMonth(y, m)
    requires DaysBeforeMonth(y, k) <= doy < DaysBeforeMonth(y, k) + DaysInMonth(y, k)
    ensures m == k
  {
    MonthStep(y, m);
    MonthStep(y, k);
    if m < k {
      MonthsIncrease(y, m + 1, k);
    } else if k < m {
      MonthsIncrease(y, k + 1, m);
    }
  }

  lemma MonthsIncrease(y: int, m: int, k: int)
    requires 1 <= m <= k <= 13
    ensures DaysBeforeMonth(y, m) <= DaysBeforeMonth(y, k)
  {
  }

  /** ISO weekday as Python's `weekday()`: Monday is 0. */
  function Weekday(n: int): (w: int)
    ensures 0 <= w < 7
  {
    n % 7
  }

  // ---------------------------------------------------------------- datetimes in range

  /** A datetime that Python can represent: years 1 to 9999. */
  predicate Valid(t: DateTime) {
    0 <= t.day < MaxDay
  }

  /** The day number of 10000-01-01, one past the last representable day. */
  const MaxDay: int := 3652059

  lemma MaxDayIsYearLimit()
    ensures DaysBeforeYear(YearLimit) == MaxDay
  {
  }

  function DateOf(t: DateTime): Date
    requires t.day >= 0
  {
    ToDate(t.day)
  }

  lemma ValidYear(t: DateTime)
    requires Valid(t)
    ensures 1 <= DateOf(t).year < YearLimit
  {
    var y := DateOf(t).year;
    MaxDayIsYearLimit();
    if y >= YearLimit {
      YearsIncrease(YearLimit, y);
    }
  }

  /** `now.replace(day=1, hour=0, minute=0, second=0, microsecond=0)`. */
  function MonthStart(now: DateTime): (r: DateTime)
    requires Valid(now)
    ensures r.tod == 0 && 0 <= r.day <= now.day && DateOf(r) == Date(DateOf(now).year, DateOf(now).month, 1)
  {
    var d := DateOf(now);
    var r := DateTime(DayNumber(Date(d.year, d.month, 1)), 0);
    DateRoundTrip(Date(d.year, d.month, 1));
    r
  }

  /** Day `n` falls in month `m` of year `y` exactly when it lies among that month's day numbers. */
  lemma MonthOfDay(n: int, y: int, m: int)
    requires n >= 0 && y >= 1 && 1 <= m <= 12
    ensures (ToDate(n).year == y && ToDate(n).month == m) <==>
            DayNumber(Date(y, m, 1)) <= n < DayNumber(Date(y, m, 1)) + DaysInMonth(y, m)
  {
    var first := DayNumber(Date(y, m, 1));
    var e := ToDate(n);
    if e.year == y && e.month == m {
      assert n == first + e.day - 1;
    }
    if first <= n < first + DaysInMonth(y, m) {
      DateRoundTrip(Date(y, m, n - first + 1));
    }
  }

  /** The first day of the month after month `m` of year `y`, December rolling over to January. */
  function NextMonthStart(y: int, m: int): (d: Date)
    requires y >= 1 && 1 <= m <= 12
    ensures ValidDate(d) && d.day == 1
  {
    if m == 12 then Date(y + 1, 1, 1) else Date(y, m + 1, 1)
  }

  lemma NextMonthStartNumber(y: int, m: int)
    requires y >= 1 && 1 <= m <= 12
    ensures DayNumber(NextMonthStart(y, m)) == DayNumber(Date(y, m, 1)) + DaysInMonth(y, m)
  {
    MonthStep(y, m);
    YearStep(y);
  }

  /** The day before the first of the next month is the last day of month `m`. */
  lemma LastDayOfMonth(y: int, m: int)
    requires y >= 1 && 1 <= m <= 12
    ensures DayNumber(NextMonthStart(y, m)) - 1 >= 0
    ensures ToDate(DayNumber(NextMonthStart(y, m)) - 1) == Date(y, m, DaysInMonth(y, m))
  {
    NextMonthStartNumber(y, m);
    assert DaysBeforeYear(1) == 0;
    YearsIncrease(1, y);
    var last := Date(y, m, DaysInMonth(y, m));
    assert DayNumber(last) == DayNumber(Date(y, m, 1)) + DaysInMonth(y, m) - 1;
    DateRoundTrip(last);
  }
}
