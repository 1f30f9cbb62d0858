/** Proleptic Gregorian calendar dates and their day numbers. Day numbers
    follow Python's `date.toordinal()`: 0001-01-01 is day 1. The pipeline
    works on day numbers, which is how pandas compares, orders and steps
    through `Timestamp`s at day precision. */
module Calendar {

  datatype Date = Date(year: int, month: int, day: int)

  predicate IsLeapYear(y: int) {
    y % 4 == 0 && (y % 100 != 0 || y % 400 == 0)
  }

  function DaysInYear(y: int): (n: int) {
    if IsLeapYear(y) then 366 else 365
  }

  function DaysInMonth(y: int, m: int): (n: int)
    requires 1 <= m <= 12
  {
    if m == 2 then (if IsLeapYear(y) then 29 else 28)
    else if m == 4 || m == 6 || m == 9 || m == 11 then 30
    else 31
  }

  /** A real calendar date: day 30 of February and month 13 are not. */
  predicate Valid(d: Date) {
    1 <= d.year && 1 <= d.month <= 12 && 1 <= d.day <= DaysInMonth(d.year, d.month)
  }

  /** Days in the years 1 .. y - 1. */
  function DaysBeforeYear(y: int): (n: int)
    requires 1 <= y
  {
    var p := y - 1;
    365 * p + p / 4 - p / 100 + p / 400
  }

  /** Days in the months 1 .. m - 1 of year y. */
  function DaysBeforeMonth(y: int, m: int): (n: int)
    requires 1 <= m <= 12
  {
    var common :=
      if m == 1 then 0 else if m == 2 then 31 else if m == 3 then 59
      else if m == 4 then 90 else if m == 5 then 120 else if m == 6 then 151
      else if m == 7 then 181 else if m == 8 then 212 else if m == 9 then 243
      else if m == 10 then 273 else if m == 11 then 304 else 334;
    if m > 2 && IsLeapYear(y) then common + 1 else common
  }

  /** The day number of a date. */
  function Ordinal(d: Date): (n: int)
    requires Valid(d)
  {
    DaysBeforeYear(d.year) + DaysBeforeMonth(d.year, d.month) + d.day
  }

  /** Chronological order of dates: by year, then month, then day. */
  predicate Before(a: Date, b: Date) {
    a.year < b.year
    || (a.year == b.year && (a.month < b.month || (a.month == b.month && a.day < b.day)))
  }

  /** Stepping y by one steps y / 4, y / 100 and y / 400 up exactly at
      their multiples. */
  lemma DivSteps(y: int)
    requires 1 <= y
    ensures y / 4 == (y - 1) / 4 + (if y % 4 == 0 then 1 else 0)
    ensures y / 100 == (y - 1) / 100 + (if y % 100 == 0 then 1 else 0)
    ensures y / 400 == (y - 1) / 400 + (if y % 400 == 0 then 1 else 0)
  {
  }

  lemma MultipleOf400(y: int)
    ensures y % 400 == 0 ==> y % 100 == 0
    ensures y % 100 == 0 ==> y % 4 == 0
  {
    var k, t, r := y / 400, y / 100, y % 100;
    assert y == 400 * k + y % 400 && y == 100 * t + r && 0 <= r < 100;
    if y % 400 == 0 {
      assert r == 100 * (4 * k - t);
    }
    var u, v := y / 4, y % 4;
    assert y == 4 * u + v && 0 <= v < 4;
    if r == 0 {
      assert v == 4 * (25 * t - u);
    }
  }

  lemma YearStep(y: int)
    requires 1 <= y
    ensures DaysBeforeYear(y + 1) == DaysBeforeYear(y) + DaysInYear(y)
  {
    DivSteps(y);
    MultipleOf400(y);
  }

  lemma {:induction false} YearsAfter(a: int, b: int)
    requires 1 <= a < b
    ensures DaysBeforeYear(a) + DaysInYear(a) <= DaysBeforeYear(b)
    decreases b - a
  {
    YearStep(a);
    if a + 1 < b {
      YearsAfter(a + 1, b);
    }
  }

  lemma MonthStep(y: int, m: int)
    requires 1 <= m < 12
    ensures DaysBeforeMonth(y, m + 1) == DaysBeforeMonth(y, m) + DaysInMonth(y, m)
  {
  }

  /** The day of the year of a valid date lies in 1 .. DaysInYear. */
  lemma DayOfYearBounds(d: Date)
    requires Valid(d)
    ensures 1 <= DaysBeforeMonth(d.year, d.month) + d.day <= DaysInYear(d.year)
  {
  }

  lemma {:induction false} MonthsAfter(y: int, a: int, b: int)
    requires 1 <= a < b <= 12
    ensures DaysBeforeMonth(y, a) + DaysInMonth(y, a) <= DaysBeforeMonth(y, b)
  {
  }

  /** Day numbers ascend with the calendar. */
  lemma OrdinalBefore(a: Date, b: Date)
    requires Valid(a) && Valid(b) && Before(a, b)
    ensures Ordinal(a) < Ordinal(b)
  {
    if a.year < b.year {
      DayOfYearBounds(a);
      DayOfYearBounds(b);
      YearsAfter(a.year, b.year);
    } else if a.month < b.month {
      MonthsAfter(a.year, a.month, b.month);
    }
  }

  /** Day numbers order dates exactly as the calendar does, and name each
      date once. */
  lemma OrdinalOrder(a: Date, b: Date)
    requires Valid(a) && Valid(b)
    ensures Ordinal(a) < Ordinal(b) <==> Before(a, b)
    ensures Ordinal(a) == Ordinal(b) <==> a == b
  {
    if Before(a, b) {
      OrdinalBefore(a, b);
    } else if Before(b, a) {
      OrdinalBefore(b, a);
    }
  }

  /** The year holding day n, searched upward from year y. */
  function YearOf(n: int, y: int): (r: int)
    requires 1 <= y && DaysBeforeYear(y) < n
    ensures y <= r && DaysBeforeYear(r) < n <= DaysBeforeYear(r) + DaysInYear(r)
    decreases n - DaysBeforeYear(y)
  {
    YearStep(y);
    if n <= DaysBeforeYear(y) + DaysInYear(y) then y else YearOf(n, y + 1)
  }

  /** The month of year y holding day-of-year r, searched upward from month m. */
  function MonthOf(y: int, r: int, m: int): (res: int)
    requires 1 <= m <= 12 && DaysBeforeMonth(y, m) < r <= DaysInYear(y)
    ensures m <= res <= 12
    ensures DaysBeforeMonth(y, res) < r <= DaysBeforeMonth(y, res) + DaysInMonth(y, res)
    decreases 12 - m
  {
    if m == 12 || r <= DaysBeforeMonth(y, m) + DaysInMonth(y, m) then m
    else
      MonthStep(y, m);
      MonthOf(y, r, m + 1)
  }

  /** The date of day number n: the inverse of Ordinal. */
  function FromOrdinal(n: int): (d: Date)
    requires 1 <= n
    ensures Valid(d) && Ordinal(d) == n
  {
    var y := YearOf(n, 1);
    var r := n - DaysBeforeYear(y);
    var m := MonthOf(y, r, 1);
    Date(y, m, r - DaysBeforeMonth(y, m))
  }

  lemma FromOrdinalOfOrdinal(d: Date)
    requires Valid(d)
    ensures Ordinal(d) >= 1 && FromOrdinal(Ordinal(d)) == d
  {
    DayOfYearBounds(d);
    OrdinalOrder(FromOrdinal(Ordinal(d)), d);
  }

  /** The dates a pandas `Timestamp` (nanoseconds since 1970, in 64 bits) can
      hold at midnight: 1677-09-22 through 2262-04-11. */
  const FirstTimestampDate := Date(1677, 9, 22)
  const LastTimestampDate := Date(2262, 4, 11)

  const MinDay := Ordinal(FirstTimestampDate)
  const MaxDay := Ordinal(LastTimestampDate)

  predicate InTimestampRange(n: int) {
    MinDay <= n <= MaxDay
  }

  /** Every day in the Timestamp range has a four-digit year. */
  lemma TimestampYears(n: int)
    requires InTimestampRange(n)
    ensures 1 <= n
    ensures 1677 <= FromOrdinal(n).year <= 2262
  {
    assert MinDay >= 1;
    var d := FromOrdinal(n);
    OrdinalOrder(d, FirstTimestampDate);
    OrdinalOrder(d, LastTimestampDate);
  }
}
