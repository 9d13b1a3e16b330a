/** The proleptic Gregorian calendar as Python's `datetime` implements it:
    which (year, month, day) triples `datetime(year, month, day)` accepts, and
    `weekday()`, counted from day 1 = 0001-01-01 with Monday = 0. */
module Calendar {

  const MinYear := 1
  const MaxYear := 9999

  const Monday := 0
  const Friday := 4
  const Saturday := 5
  const Sunday := 6

  predicate IsLeapYear(y: int) {
    y % 4 == 0 && (y % 100 != 0 || y % 400 == 0)
  }

  function DaysInYear(y: int): int {
    if IsLeapYear(y) then 366 else 365
  }

  function DaysInMonth(y: int, m: int): (n: int)
    requires 1 <= m <= 12
    ensures 28 <= n <= 31
  {
    if m == 2 then (if IsLeapYear(y) then 29 else 28)
    else if m == 4 || m == 6 || m == 9 || m == 11 then 30
    else 31
  }

  /** What `datetime(y, m, d)` accepts; every other triple raises `ValueError`. */
  predicate IsValidDate(y: int, m: int, d: int) {
    MinYear <= y <= MaxYear && 1 <= m <= 12 && 1 <= d <= DaysInMonth(y, m)
  }

  /** Days in the years before `y` (year 1 starts the count). */
  function DaysBeforeYear(y: int): nat
    requires y >= 1
  {
    var p := y - 1;
    p * 365 + p / 4 - p / 100 + p / 400
  }

  /** Days in the months of year `y` before month `m`. */
  function DaysBeforeMonth(y: int, m: int): nat
    requires 1 <= m <= 12
  {
    var before :=
      if m == 1 then 0 else if m == 2 then 31 else if m == 3 then 59
      else if m == 4 then 90 else if m == 5 then 120 else if m == 6 then 151
      else if m == 7 then 181 else if m == 8 then 212 else if m == 9 then 243
      else if m == 10 then 273 else if m == 11 then 304 else 334;
    before + (if m > 2 && IsLeapYear(y) then 1 else 0)
  }

  /** `date(y, m, d).toordinal()`: 0001-01-01 is day 1. */
  function Ordinal(y: int, m: int, d: int): (n: int)
    requires IsValidDate(y, m, d)
    ensures n >= 1
  {
    DaysBeforeYear(y) + DaysBeforeMonth(y, m) + d
  }

  /** `date(y, m, d).weekday()`: Monday is 0 and Sunday is 6. */
  function Weekday(y: int, m: int, d: int): (w: int)
    requires IsValidDate(y, m, d)
    ensures 0 <= w < 7
  {
    (Ordinal(y, m, d) + 6) % 7
  }

  /** The calendar day after (y, m, d). */
  function NextDate(y: int, m: int, d: int): (int, int, int)
    requires IsValidDate(y, m, d)
  {
    if d < DaysInMonth(y, m) then (y, m, d + 1)
    else if m < 12 then (y, m + 1, 1)
    else (y + 1, 1, 1)
  }

  lemma DaysBeforeMonthStep(y: int, m: int)
    requires 1 <= m < 12
    ensures DaysBeforeMonth(y, m + 1) == DaysBeforeMonth(y, m) + DaysInMonth(y, m)
  {
  }

  lemma LastMonthTotal(y: int)
    ensures DaysBeforeMonth(y, 12) + DaysInMonth(y, 12) == DaysInYear(y)
  {
  }

  /** Counting one more year adds the length of that year. */
  lemma DaysBeforeYearStep(y: int)
    requires y >= 1
    ensures DaysBeforeYear(y + 1) == DaysBeforeYear(y) + DaysInYear(y)
  {
    var p := y - 1;
    QuotientSteps(p);
    CenturyIsQuadrennial(y);
    QuadCenturyIsCentury(y);
    var step := (if y % 4 == 0 then 1 else 0) - (if y % 100 == 0 then 1 else 0) + (if y % 400 == 0 then 1 else 0);
    assert DaysBeforeYear(y + 1) == DaysBeforeYear(y) + 365 + step;
    assert step == (if IsLeapYear(y) then 1 else 0);
  }

  /** How the leap-day corrections grow from one year count to the next. */
  lemma QuotientSteps(p: nat)
    ensures (p + 1) / 4 == p / 4 + (if (p + 1) % 4 == 0 then 1 else 0)
    ensures (p + 1) / 100 == p / 100 + (if (p + 1) % 100 == 0 then 1 else 0)
    ensures (p + 1) / 400 == p / 400 + (if (p + 1) % 400 == 0 then 1 else 0)
  {
  }

  lemma CenturyIsQuadrennial(y: int)
    ensures y % 100 == 0 ==> y % 4 == 0
  {
    if y % 100 == 0 {
      var k := y / 100;
      assert y == 4 * (25 * k);
    }
  }

  lemma QuadCenturyIsCentury(y: int)
    ensures y % 400 == 0 ==> y % 100 == 0
  {
    if y % 400 == 0 {
      var k := y / 400;
      assert y == 100 * (4 * k);
    }
  }

  /** Consecutive calendar days have consecutive ordinals. */
  lemma NextDateOrdinal(y: int, m: int, d: int)
    requires IsValidDate(y, m, d)
    requires (y, m, d) != (MaxYear, 12, 31)
    ensures var (y', m', d') := NextDate(y, m, d);
      IsValidDate(y', m', d') && Ordinal(y', m', d') == Ordinal(y, m, d) + 1
  {
    if d < DaysInMonth(y, m) {
    } else if m < 12 {
      DaysBeforeMonthStep(y, m);
    } else {
      LastMonthTotal(y);
      DaysBeforeYearStep(y);
    }
  }

  /** ... and so consecutive weekdays, Sunday (6) wrapping round to Monday (0). */
  lemma NextDateWeekday(y: int, m: int, d: int)
    requires IsValidDate(y, m, d)
    requires (y, m, d) != (MaxYear, 12, 31)
    ensures var (y', m', d') := NextDate(y, m, d);
      IsValidDate(y', m', d') && Weekday(y', m', d') == (Weekday(y, m, d) + 1) % 7
  {
    NextDateOrdinal(y, m, d);
    var (y', m', d') := NextDate(y, m, d);
    WeekdayStep(Ordinal(y, m, d));
  }

  lemma WeekdayStep(n: int)
    ensures (n + 1 + 6) % 7 == ((n + 6) % 7 + 1) % 7
  {
  }

  /** Day 1 of the count, 0001-01-01, is a Monday. */
  lemma FirstDayIsMonday()
    ensures Weekday(MinYear, 1, 1) == Monday
  {
  }

  /** Friday 5 and Saturday 6 September 2025 open the first weekend of the monitored months. */
  lemma FirstMonitoredWeekend()
    ensures Weekday(2025, 9, 5) == Friday
    ensures Weekday(2025, 9, 6) == Saturday
    ensures Weekday(2025, 9, 7) == Sunday
  {
  }
}
