/** The part of Python's `datetime.date` the download and expiration code relies on:
    construction with range checks, comparison, `toordinal()` and `date + timedelta(days=n)`. */
module Calendar {
  import opened Outcomes

  const MinYear: int := 1
  const MaxYear: int := 9999
  /** `date(9999, 12, 31).toordinal()` */
  const MaxOrdinal: int := 3652059

  /** A proleptic Gregorian calendar date, as (year, month, day). */
  datatype Date = Date(year: int, month: int, day: int)

  predicate IsLeapYear(y: int) {
    y % 4 == 0 && (y % 100 != 0 || y % 400 == 0)
  }

  function DaysInYear(y: int): int {
    if IsLeapYear(y) then 366 else 365
  }

  function DaysInMonth(y: int, m: int): int
    requires 1 <= m <= 12
  {
    if m == 2 then (if IsLeapYear(y) then 29 else 28)
    else if m == 4 || m == 6 || m == 9 || m == 11 then 30
    else 31
  }

  /** The dates a `datetime.date` object can hold. */
  predicate Valid(d: Date) {
    MinYear <= d.year <= MaxYear && 1 <= d.month <= 12 && 1 <= d.day <= DaysInMonth(d.year, d.month)
  }

  /** The range of a C `int`, which `date()` converts each argument to first. */
  const IntMin: int := -0x8000_0000
  const IntMax: int := 0x7fff_ffff

  predicate FitsCInt(n: int) {
    IntMin <= n <= IntMax
  }

  /** `date(y, m, d)`: an argument that does not fit a C `int` raises OverflowError
      before any range check; then the year, the month and the day are range-checked,
      and any failure raises ValueError. */
  function MakeDate(y: int, m: int, d: int): (r: Result<Date>)
    ensures r.Ok? <==> Valid(Date(y, m, d))
    ensures r.Ok? ==> r.value.year == y && r.value.month == m && r.value.day == d
    ensures r.Err? ==> r.error == if FitsCInt(y) && FitsCInt(m) && FitsCInt(d) then ValueError else OverflowError
  {
    if !(FitsCInt(y) && FitsCInt(m) && FitsCInt(d)) then Err(OverflowError)
    else if !(MinYear <= y <= MaxYear) then Err(ValueError)
    else if !(1 <= m <= 12) then Err(ValueError)
    else if !(1 <= d <= DaysInMonth(y, m)) then Err(ValueError)
    else Ok(Date(y, m, d))
  }

  /** `a <= b` on dates: Python compares the (year, month, day) tuples. */
  predicate LessEq(a: Date, b: Date) {
    a.year < b.year || (a.year == b.year && (a.month < b.month || (a.month == b.month && a.day <= b.day)))
  }

  /** Days in the years before year `y` (Python's `_days_before_year`). */
  function DaysBeforeYear(y: int): int {
    var p := y - 1;
    p * 365 + p / 4 - p / 100 + p / 400
  }

  /** Days in the months of year `y` before month `m` (Python's `_days_before_month`). */
  function DaysBeforeMonth(y: int, m: int): int
    requires 1 <= m <= 12
  {
    var table := [0, 31, 59, 90, 120, 151, 181, 212, 243, 273, 304, 334];
    table[m - 1] + (if m > 2 && IsLeapYear(y) then 1 else 0)
  }

  /** `d.toordinal()`: day 1 is 0001-01-01. */
  function ToOrdinal(d: Date): int
    requires Valid(d)
  {
    DaysBeforeYear(d.year) + DaysBeforeMonth(d.year, d.month) + d.day
  }

  lemma DivStep(p: int, k: int)
    requires k == 4 || k == 100 || k == 400
    ensures (p + 1) / k == p / k + (if (p + 1) % k == 0 then 1 else 0)
  {
  }

  lemma Multiple400(y: int)
    ensures y % 400 == 0 ==> y % 100 == 0
  {
    var q, r := y / 400, y % 400;
    assert y == 400 * q + r;
    assert y == 100 * (4 * q + r / 100) + r % 100;
  }

  lemma Multiple100(y: int)
    ensures y % 100 == 0 ==> y % 4 == 0
  {
    var q, r := y / 100, y % 100;
    assert y == 100 * q + r;
    assert y == 4 * (25 * q + r / 4) + r % 4;
  }

  lemma YearStep(y: int)
    ensures DaysBeforeYear(y + 1) == DaysBeforeYear(y) + DaysInYear(y)
  {
    var p := y - 1;
    DivStep(p, 4);
    DivStep(p, 100);
    DivStep(p, 400);
    Multiple400(y);
    Multiple100(y);
    assert DaysBeforeYear(y + 1) - DaysBeforeYear(y) ==
           365 + ((p + 1) / 4 - p / 4) - ((p + 1) / 100 - p / 100) + ((p + 1) / 400 - p / 400);
  }

  lemma MonthStep(y: int, m: int)
    requires 1 <= m <= 12
    ensures m < 12 ==> DaysBeforeMonth(y, m + 1) == DaysBeforeMonth(y, m) + DaysInMonth(y, m)
    ensures m == 12 ==> DaysBeforeMonth(y, m) + DaysInMonth(y, m) == DaysInYear(y)
  {
  }

  /** Whole years before `y1` are no more than those before `y2` once a year is added. */
  lemma {:induction false} YearsMonotone(y1: int, y2: int)
    requires y1 < y2
    ensures DaysBeforeYear(y1) + DaysInYear(y1) <= DaysBeforeYear(y2)
    decreases y2 - y1
  {
    YearStep(y1);
    if y1 + 1 < y2 {
      YearsMonotone(y1 + 1, y2);
    }
  }

  lemma MonthsMonotone(y: int, m1: int, m2: int)
    requires 1 <= m1 < m2 <= 12
    ensures DaysBeforeMonth(y, m1) + DaysInMonth(y, m1) <= DaysBeforeMonth(y, m2)
  {
  }

  /** A strictly earlier valid date has a strictly smaller ordinal. */
  lemma OrdinalStrict(a: Date, b: Date)
    requires Valid(a) && Valid(b) && LessEq(a, b) && a != b
    ensures ToOrdinal(a) < ToOrdinal(b)
  {
    if a.year < b.year {
      YearsMonotone(a.year, b.year);
      MonthStep(a.year, a.month);
      if a.month < 12 {
        MonthsMonotone(a.year, a.month, 12);
      }
    } else if a.month < b.month {
      MonthsMonotone(a.year, a.month, b.month);
    }
  }

  /** Python's tuple comparison of dates agrees with the order of their ordinals. */
  lemma OrdinalOrder(a: Date, b: Date)
    requires Valid(a) && Valid(b)
    ensures LessEq(a, b) <==> ToOrdinal(a) <= ToOrdinal(b)
  {
    if LessEq(a, b) {
      if a != b {
        OrdinalStrict(a, b);
      }
    } else {
      OrdinalStrict(b, a);
    }
  }

  /** Two valid dates with the same ordinal are the same date. */
  lemma OrdinalInjective(a: Date, b: Date)
    requires Valid(a) && Valid(b) && ToOrdinal(a) == ToOrdinal(b)
    ensures a == b
  {
    OrdinalOrder(a, b);
    OrdinalOrder(b, a);
  }

  /** Every valid date lies between 0001-01-01 and 9999-12-31 in ordinal terms. */
  lemma OrdinalRange(d: Date)
    requires Valid(d)
    ensures 1 <= ToOrdinal(d) <= MaxOrdinal
  {
    OrdinalOrder(Date(MinYear, 1, 1), d);
    OrdinalOrder(d, Date(MaxYear, 12, 31));
  }

  /** The first day of the month after `d`'s month. */
  function NextMonthStart(d: Date): Date {
    if d.month == 12 then Date(d.year + 1, 1, 1) else Date(d.year, d.month + 1, 1)
  }

  /** The last day of the month before `d`'s month. */
  function PrevMonthEnd(d: Date): Date
    requires 1 <= d.month <= 12
  {
    var y := if d.month == 1 then d.year - 1 else d.year;
    var m := if d.month == 1 then 12 else d.month - 1;
    Date(y, m, DaysInMonth(y, m))
  }

  lemma NextMonthOrdinal(d: Date)
    requires Valid(d) && (d.year < MaxYear || d.month < 12)
    ensures Valid(NextMonthStart(d))
    ensures ToOrdinal(NextMonthStart(d)) == ToOrdinal(d) + DaysInMonth(d.year, d.month) - d.day + 1
  {
    MonthStep(d.year, d.month);
    YearStep(d.year);
  }

  lemma PrevMonthOrdinal(d: Date)
    requires Valid(d) && (d.year > MinYear || d.month > 1)
    ensures Valid(PrevMonthEnd(d))
    ensures ToOrdinal(PrevMonthEnd(d)) == ToOrdinal(d) - d.day
  {
    var p := PrevMonthEnd(d);
    MonthStep(p.year, p.month);
    YearStep(p.year);
  }

  /** The ordinals of the last month of year 9999 and the first month of year 1. */
  lemma RangeEnds(d: Date)
    requires Valid(d)
    ensures d.year == MaxYear && d.month == 12 ==> ToOrdinal(d) == MaxOrdinal - 31 + d.day
    ensures d.year == MinYear && d.month == 1 ==> ToOrdinal(d) == d.day
  {
  }

  /** `d + timedelta(days=n)`: Python converts to an ordinal, adds `n`, and raises
      OverflowError when the sum leaves 1..MaxOrdinal.  The model walks month by month
      and is proved to land on exactly that ordinal. */
  function AddDays(d: Date, n: int): (r: Result<Date>)
    requires Valid(d)
    ensures r.Ok? <==> 1 <= ToOrdinal(d) + n <= MaxOrdinal
    ensures r.Ok? ==> Valid(r.value) && ToOrdinal(r.value) == ToOrdinal(d) + n
    ensures r.Err? ==> r.error == OverflowError
    decreases if n < 0 then -n else n
  {
    var dim := DaysInMonth(d.year, d.month);
    RangeEnds(d);
    if 1 <= d.day + n <= dim then
      OrdinalRange(Date(d.year, d.month, d.day + n));
      Ok(Date(d.year, d.month, d.day + n))
    else if n > 0 then
      if d.year == MaxYear && d.month == 12 then
        Err(OverflowError)
      else
        NextMonthOrdinal(d);
        AddDays(NextMonthStart(d), n - (dim - d.day + 1))
    else
      if d.year == MinYear && d.month == 1 then
        Err(OverflowError)
      else
        PrevMonthOrdinal(d);
        AddDays(PrevMonthEnd(d), n + d.day)
  }

  /** Adding a positive number of days always moves strictly later. */
  lemma AddDaysLater(d: Date, n: int)
    requires Valid(d) && n > 0 && AddDays(d, n).Ok?
    ensures !LessEq(AddDays(d, n).value, d)
  {
    OrdinalOrder(AddDays(d, n).value, d);
  }

  /** Adding zero or a negative number of days never moves later. */
  lemma AddDaysNotLater(d: Date, n: int)
    requires Valid(d) && n <= 0 && AddDays(d, n).Ok?
    ensures LessEq(AddDays(d, n).value, d)
  {
    OrdinalOrder(AddDays(d, n).value, d);
  }
}
