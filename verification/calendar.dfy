/**
 * The proleptic Gregorian calendar on day numbers (days since 1970-01-01),
 * as pandas reads the month, the quarter and the day of the year of a date.
 */
module Calendar {

  const Epoch: int := 1970

  predicate IsLeap(y: int) {
    y % 4 == 0 && (y % 100 != 0 || y % 400 == 0)
  }

  function DaysInYear(y: int): (n: int)
    ensures 365 <= n <= 366
  {
    if IsLeap(y) then 366 else 365
  }

  function DaysInMonth(y: int, m: int): (n: int)
    requires 1 <= m <= 12
    ensures 28 <= n <= 31
  {
    if m == 2 then (if IsLeap(y) then 29 else 28)
    else if m == 4 || m == 6 || m == 9 || m == 11 then 30
    else 31
  }

  /** Days in the months of year `y` before month `m`. */
  function DaysBeforeMonth(y: int, m: int): (n: int)
    requires 1 <= m <= 13
    ensures n >= 0
  {
    if m == 1 then 0 else DaysBeforeMonth(y, m - 1) + DaysInMonth(y, m - 1)
  }

  lemma MonthsFillYear(y: int)
    ensures DaysBeforeMonth(y, 13) == DaysInYear(y)
  {
    var leap := if IsLeap(y) then 1 else 0;
    assert DaysBeforeMonth(y, 2) == 31;
    assert DaysBeforeMonth(y, 3) == 59 + leap;
    assert DaysBeforeMonth(y, 4) == 90 + leap;
    assert DaysBeforeMonth(y, 5) == 120 + leap;
    assert DaysBeforeMonth(y, 6) == 151 + leap;
    assert DaysBeforeMonth(y, 7) == 181 + leap;
    assert DaysBeforeMonth(y, 8) == 212 + leap;
    assert DaysBeforeMonth(y, 9) == 243 + leap;
    assert DaysBeforeMonth(y, 10) == 273 + leap;
    assert DaysBeforeMonth(y, 11) == 304 + leap;
    assert DaysBeforeMonth(y, 12) == 334 + leap;
  }

  /** Each month starts strictly after the ones before it. */
  lemma {:induction false} DaysBeforeMonthIncreasing(y: int, m1: int, m2: int)
    requires 1 <= m1 < m2 <= 13
    ensures DaysBeforeMonth(y, m1) + DaysInMonth(y, m1) <= DaysBeforeMonth(y, m2)
    decreases m2 - m1
  {
    if m1 + 1 < m2 {
      DaysBeforeMonthIncreasing(y, m1 + 1, m2);
    }
  }

  /** Day number of the first day of year `y`. */
  function YearStart(y: int): int
    decreases if y < Epoch then Epoch - y else y - Epoch
  {
    if y == Epoch then 0
    else if y > Epoch then YearStart(y - 1) + DaysInYear(y - 1)
    else YearStart(y + 1) - DaysInYear(y)
  }

  lemma YearStartStep(y: int)
    ensures YearStart(y + 1) == YearStart(y) + DaysInYear(y)
  {
  }

  /** A later year starts at least a whole year after an earlier one. */
  lemma {:induction false} YearStartIncreasing(y1: int, y2: int)
    requires y1 < y2
    ensures YearStart(y1) + DaysInYear(y1) <= YearStart(y2)
    decreases y2 - y1
  {
    YearStartStep(y1);
    if y1 + 1 < y2 {
      YearStartIncreasing(y1 + 1, y2);
    }
  }

  /** A calendar date. */
  datatype Date = Date(year: int, month: int, day: int) {
    predicate Valid() {
      1 <= month <= 12 && 1 <= day <= DaysInMonth(year, month)
    }
  }

  /** The day number of a valid date. */
  function ToDays(d: Date): int
    requires d.Valid()
  {
    YearStart(d.year) + DaysBeforeMonth(d.year, d.month) + d.day - 1
  }

  /**
   * The year containing the day `n` days after the start of year `y`, and
   * the index of that day within it.
   */
  function Locate(y: int, n: int): (r: (int, int))
    ensures 0 <= r.1 < DaysInYear(r.0)
    ensures YearStart(r.0) + r.1 == YearStart(y) + n
    decreases if n < 0 then 366 - n else n
  {
    YearStartStep(y);
    YearStartStep(y - 1);
    if n < 0 then Locate(y - 1, n + DaysInYear(y - 1))
    else if n >= DaysInYear(y) then Locate(y + 1, n - DaysInYear(y))
    else (y, n)
  }

  /** The month of year `y` holding its day with index `k`, searching from month `m`. */
  function MonthFrom(y: int, k: int, m: int): (r: int)
    requires 1 <= m <= 12
    requires DaysBeforeMonth(y, m) <= k < DaysInYear(y)
    ensures m <= r <= 12
    ensures DaysBeforeMonth(y, r) <= k < DaysBeforeMonth(y, r) + DaysInMonth(y, r)
    decreases 12 - m
  {
    MonthsFillYear(y);
    if k < DaysBeforeMonth(y, m) + DaysInMonth(y, m) then m
    else MonthFrom(y, k, m + 1)
  }

  /** The date of a day number: a valid date whose day number is `n`. */
  function FromDays(n: int): (d: Date)
    ensures d.Valid()
    ensures ToDays(d) == n
  {
    var (y, k) := Locate(Epoch, n);
    var m := MonthFrom(y, k, 1);
    Date(y, m, k - DaysBeforeMonth(y, m) + 1)
  }

  /** A year and a day index within it are determined by their day number. */
  lemma LocateUnique(y1: int, k1: int, y2: int, k2: int)
    requires 0 <= k1 < DaysInYear(y1) && 0 <= k2 < DaysInYear(y2)
    requires YearStart(y1) + k1 == YearStart(y2) + k2
    ensures y1 == y2 && k1 == k2
  {
    if y1 < y2 {
      YearStartIncreasing(y1, y2);
    } else if y2 < y1 {
      YearStartIncreasing(y2, y1);
    }
  }

  /** A valid date falls inside its year. */
  lemma DayIndexInYear(d: Date)
    requires d.Valid()
    ensures DaysBeforeMonth(d.year, d.month) + d.day <= DaysInYear(d.year)
  {
    MonthsFillYear(d.year);
    if d.month < 12 {
      DaysBeforeMonthIncreasing(d.year, d.month + 1, 13);
    }
  }

  /** Every valid date is the date of its own day number. */
  lemma FromDaysToDays(d: Date)
    requires d.Valid()
    ensures FromDays(ToDays(d)) == d
  {
    var n := ToDays(d);
    var k := DaysBeforeMonth(d.year, d.month) + d.day - 1;
    DayIndexInYear(d);
    var (y, k') := Locate(Epoch, n);
    LocateUnique(y, k', d.year, k);
    var m := MonthFrom(y, k, 1);
    if m < d.month {
      DaysBeforeMonthIncreasing(y, m, d.month);
    } else if d.month < m {
      DaysBeforeMonthIncreasing(y, d.month, m);
    }
  }

  // ---------------------------------------------------------------------
  // The fields the feature engine reads

  /** The month of a day number, 1 to 12. */
  function Month(n: int): (m: int)
    ensures 1 <= m <= 12
  {
    FromDays(n).month
  }

  /** The quarter of a day number: months 1-3 are quarter 1, and so on. */
  function Quarter(n: int): (q: int)
    ensures 1 <= q <= 4
    ensures 3 * (q - 1) < Month(n) <= 3 * q
  {
    (Month(n) - 1) / 3 + 1
  }

  /** The day of the year of a day number: 1 on the first of January. */
  function DayOfYear(n: int): (k: int)
    ensures 1 <= k <= DaysInYear(FromDays(n).year)
    ensures n == YearStart(FromDays(n).year) + k - 1
  {
    var d := FromDays(n);
    DayIndexInYear(d);
    DaysBeforeMonth(d.year, d.month) + d.day
  }

  lemma EpochIsFirstOfJanuary1970()
    ensures FromDays(0) == Date(1970, 1, 1)
  {
    FromDaysToDays(Date(1970, 1, 1));
  }
}
