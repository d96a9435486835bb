/** Calendar dates and date-times as chrono's `NaiveDate` and `NaiveDateTime`
    present them: a proleptic Gregorian civil date plus a time of day. */
module Calendar {

  const NanosPerDay: int := 86_400_000_000_000

  datatype Date = Date(year: int, month: int, day: int)

  /** `nanos` is the time of day in nanoseconds after midnight. */
  datatype DateTime = DateTime(date: Date, nanos: int)

  predicate IsLeapYear(y: int) {
    y % 4 == 0 && (y % 100 != 0 || y % 400 == 0)
  }

  function DaysInMonth(y: int, m: int): int
    requires 1 <= m <= 12
  {
    if m == 2 then (if IsLeapYear(y) then 29 else 28)
    else if m == 4 || m == 6 || m == 9 || m == 11 then 30
    else 31
  }

  predicate ValidDate(d: Date) {
    1 <= d.month <= 12 && 1 <= d.day <= DaysInMonth(d.year, d.month)
  }

  predicate ValidDateTime(dt: DateTime) {
    ValidDate(dt.date) && 0 <= dt.nanos < NanosPerDay
  }

  /** chrono's `NaiveDateTime` can only hold a real date and time of day. */
  type NaiveDateTime = dt: DateTime | ValidDateTime(dt) witness DateTime(Date(1970, 1, 1), 0)

  /** chrono's ordering of dates: chronological, which for civil dates is
      lexicographic on (year, month, day). */
  predicate DateLe(a: Date, b: Date) {
    a.year < b.year
    || (a.year == b.year && (a.month < b.month || (a.month == b.month && a.day <= b.day)))
  }

  predicate DateLt(a: Date, b: Date) {
    DateLe(a, b) && a != b
  }

  /** chrono's ordering of date-times: by date, then by time of day. */
  predicate Le(a: DateTime, b: DateTime) {
    DateLt(a.date, b.date) || (a.date == b.date && a.nanos <= b.nanos)
  }

  predicate Lt(a: DateTime, b: DateTime) {
    Le(a, b) && a != b
  }

  lemma LeTotal(a: DateTime, b: DateTime)
    ensures Le(a, b) || Le(b, a)
  {
  }

  lemma LeTransitive(a: DateTime, b: DateTime, c: DateTime)
    requires Le(a, b) && Le(b, c)
    ensures Le(a, c)
  {
  }

  lemma LeAntisymmetric(a: DateTime, b: DateTime)
    requires Le(a, b) && Le(b, a)
    ensures a == b
  {
  }

  /** Days from 1 January of year 1 to 1 January of year `y`. */
  function DaysBeforeYear(y: int): int {
    365 * (y - 1) + (y - 1) / 4 - (y - 1) / 100 + (y - 1) / 400
  }

  /** Days from 1 January to the first of each month, and to the end of the
      year, in a common year. */
  const DaysBeforeMonthCommon: seq<int> := [0, 31, 59, 90, 120, 151, 181, 212, 243, 273, 304, 334, 365]

  /** Days from 1 January of `y` to the first of month `m` (13: to the end of the year). */
  function DaysBeforeMonth(y: int, m: int): int
    requires 1 <= m <= 13
  {
    DaysBeforeMonthCommon[m - 1] + (if m > 2 && IsLeapYear(y) then 1 else 0)
  }

  /** Days since 1970-01-01 (negative before it). */
  function DayNumber(d: Date): int
    requires 1 <= d.month <= 12
  {
    DaysBeforeYear(d.year) + DaysBeforeMonth(d.year, d.month) + d.day - 1 - DaysBeforeYear(1970)
  }

  /** Nanoseconds since 1970-01-01T00:00:00. */
  function Instant(dt: DateTime): int
    requires 1 <= dt.date.month <= 12
  {
    DayNumber(dt.date) * NanosPerDay + dt.nanos
  }

  /** `t < dt + Duration::days(days)`. */
  predicate BeforeDaysAfter(t: DateTime, dt: DateTime, days: int)
    requires 1 <= t.date.month <= 12 && 1 <= dt.date.month <= 12
  {
    Instant(t) < Instant(dt) + days * NanosPerDay
  }

  lemma {:induction false} DaysBeforeMonthBounds(y: int, m: int)
    requires 1 <= m <= 12
    ensures DaysBeforeMonth(y, m) + DaysInMonth(y, m) == DaysBeforeMonth(y, m + 1)
    ensures 0 <= DaysBeforeMonth(y, m)
  {
    if m > 1 {
      DaysBeforeMonthBounds(y, m - 1);
    }
  }

  lemma {:induction false} DaysBeforeMonthMonotone(y: int, m1: int, m2: int)
    requires 1 <= m1 < m2 <= 13
    ensures DaysBeforeMonth(y, m1) + DaysInMonth(y, m1) <= DaysBeforeMonth(y, m2)
  {
    if m2 > m1 + 1 {
      DaysBeforeMonthMonotone(y, m1, m2 - 1);
    }
  }

  /** Stepping `x` to `x + 1` raises `x / k` exactly when `x + 1` is a multiple of `k`. */
  lemma DivStep(x: int, k: int)
    requires k == 4 || k == 100 || k == 400
    ensures (x + 1) / k == if (x + 1) % k == 0 then x / k + 1 else x / k
  {
    var q, r := x / k, x % k;
    assert x == k * q + r && 0 <= r < k;
    if r + 1 < k {
      assert x + 1 == k * q + (r + 1);
    } else {
      assert x + 1 == k * (q + 1) + 0;
    }
  }

  /** A calendar year has 365 days, 366 in a leap year. */
  lemma YearLength(y: int)
    ensures DaysBeforeYear(y + 1) - DaysBeforeYear(y) == if IsLeapYear(y) then 366 else 365
  {
    DivStep(y - 1, 4);
    DivStep(y - 1, 100);
    DivStep(y - 1, 400);
    if y % 400 == 0 {
      CenturyOf400(y);
    }
    if y % 100 == 0 {
      LeapOfCentury(y);
    }
  }

  /** A multiple of 400 is a multiple of 100. */
  lemma CenturyOf400(y: int)
    requires y % 400 == 0
    ensures y % 100 == 0
  {
    var n := y / 400;
    assert y == 100 * (4 * n);
  }

  /** A multiple of 100 is a multiple of 4. */
  lemma LeapOfCentury(y: int)
    requires y % 100 == 0
    ensures y % 4 == 0
  {
    var n := y / 100;
    assert y == 4 * (25 * n);
  }

  lemma MonthsOfYear(y: int)
    ensures DaysBeforeMonth(y, 13) == if IsLeapYear(y) then 366 else 365
  {
  }

  lemma {:induction false} DaysBeforeYearMonotone(y1: int, y2: int)
    requires y1 < y2
    ensures DaysBeforeYear(y1) + (if IsLeapYear(y1) then 366 else 365) <= DaysBeforeYear(y2)
    decreases y2 - y1
  {
    YearLength(y1);
    if y2 > y1 + 1 {
      DaysBeforeYearMonotone(y1 + 1, y2);
    }
  }

  /** The day number is strictly increasing along chrono's date order, so the
      date order and the 30-day window measure time in the same direction. */
  lemma DayNumberMonotone(a: Date, b: Date)
    requires ValidDate(a) && ValidDate(b) && DateLt(a, b)
    ensures DayNumber(a) < DayNumber(b)
  {
    if a.year < b.year {
      DaysBeforeMonthMonotone(a.year, a.month, 13);
      MonthsOfYear(a.year);
      DaysBeforeYearMonotone(a.year, b.year);
      DaysBeforeMonthBounds(b.year, b.month);
    } else if a.month < b.month {
      DaysBeforeMonthMonotone(a.year, a.month, b.month);
    }
  }
}
