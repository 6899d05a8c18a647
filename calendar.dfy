/** The proleptic Gregorian calendar as day numbers (0 is 1 January of year 1).
    It stands in for JavaScript's `Date` constructed from a year, month and
    day, and for Python's `date` arithmetic. Clock time zones are not
    modelled: a local midnight is a whole number of days. */
module Calendar {

  const MsPerDay: int := 86400000

  datatype Date = Date(year: int, month: int, day: int)

  predicate IsLeap(y: int) {
    y % 4 == 0 && (y % 100 != 0 || y % 400 == 0)
  }

  function DaysInYear(y: int): int {
    if IsLeap(y) then 366 else 365
  }

  function DaysInMonth(y: int, m: int): int
    requires 1 <= m <= 12
  {
    if m == 2 then (if IsLeap(y) then 29 else 28)
    else if m == 4 || m == 6 || m == 9 || m == 11 then 30
    else 31
  }

  predicate ValidDate(d: Date) {
    1 <= d.month <= 12 && 1 <= d.day <= DaysInMonth(d.year, d.month)
  }

  /** Days in the years before `y`. */
  function DaysBeforeYear(y: int): int {
    var p := y - 1;
    365 * p + p / 4 - p / 100 + p / 400
  }

  /** Days in the months of year `y` before month `m` (1 = January, 13 = the next year). */
  function DaysBeforeMonth(y: int, m: int): (r: int)
    requires 1 <= m <= 13
    ensures 0 <= r
  {
    [0, 31, 59, 90, 120, 151, 181, 212, 243, 273, 304, 334, 365][m - 1]
      + (if m > 2 && IsLeap(y) then 1 else 0)
  }

  /** Day number of year `y`, month `m`, day `d`. A day past the end of the
      month runs on into the next month, as JavaScript's `new Date(y, m - 1, d)` does. */
  function DayNumber(y: int, m: int, d: int): int
    requires 1 <= m <= 12
  {
    DaysBeforeYear(y) + DaysBeforeMonth(y, m) + d - 1
  }

  function Ordinal(d: Date): int
    requires 1 <= d.month <= 12
  {
    DayNumber(d.year, d.month, d.day)
  }

  lemma FloorStep(p: int, c: int)
    requires c == 4 || c == 100 || c == 400
    ensures (p + 1) / c - p / c == if (p + 1) % c == 0 then 1 else 0
  {
    var q, r := p / c, p % c;
    assert p == c * q + r && 0 <= r < c;
    if r == c - 1 {
      assert p + 1 == c * (q + 1) + 0;
    } else {
      assert p + 1 == c * q + (r + 1);
    }
  }

  /** Consecutive years start `DaysInYear` days apart. */
  lemma YearLength(y: int)
    ensures DaysBeforeYear(y + 1) == DaysBeforeYear(y) + DaysInYear(y)
  {
    FloorStep(y - 1, 4);
    FloorStep(y - 1, 100);
    FloorStep(y - 1, 400);
    assert y % 100 == 0 ==> y % 4 == 0 by {
      if y % 100 == 0 {
        var q := y / 100;
        assert y == 100 * q;
        assert y == 4 * (25 * q);
      }
    }
    assert y % 400 == 0 ==> y % 100 == 0 by {
      if y % 400 == 0 {
        var q := y / 400;
        assert y == 400 * q;
        assert y == 100 * (4 * q);
      }
    }
  }

  lemma MonthLength(y: int, m: int)
    requires 1 <= m <= 12
    ensures DaysBeforeMonth(y, m + 1) == DaysBeforeMonth(y, m) + DaysInMonth(y, m)
  {
  }

  /** A valid date falls inside its own year. */
  lemma DateWithinYear(d: Date)
    requires ValidDate(d)
    ensures DaysBeforeYear(d.year) <= Ordinal(d) < DaysBeforeYear(d.year + 1)
  {
    YearLength(d.year);
    MonthLength(d.year, d.month);
    assert DaysBeforeMonth(d.year, 13) == DaysInYear(d.year);
    assert DaysBeforeMonth(d.year, d.month + 1) <= DaysBeforeMonth(d.year, 13);
  }

  /** 29 February of a common year is 1 March, as JavaScript's `Date` rolls it over. */
  lemma LeapDayRollsOver(y: int)
    requires !IsLeap(y)
    ensures DayNumber(y, 2, 29) == DayNumber(y, 3, 1)
  {
  }
}
