/** Proleptic Gregorian calendar days, as Python's `datetime` represents them
    when the time of day is midnight: construction rules, the day ordinal
    behind `toordinal()` and `(b - a).days`, and the field-by-field ordering
    behind `<=` (app.py, lines 19, 47 and 55). */
module Calendar {

  /** A year-month-day triple; it need not name a real day. */
  datatype Date = Date(year: int, month: int, day: int)

  /** `datetime.MINYEAR` and `datetime.MAXYEAR`. */
  const MinYear: int := 1
  const MaxYear: int := 9999

  predicate IsLeapYear(y: int) {
    y % 4 == 0 && (y % 100 != 0 || y % 400 == 0)
  }

  function DaysInMonth(y: int, m: int): (n: int)
    requires 1 <= m <= 12
    ensures 28 <= n <= 31
  {
    if m == 2 then (if IsLeapYear(y) then 29 else 28)
    else if m == 4 || m == 6 || m == 9 || m == 11 then 30
    else 31
  }

  function DaysInYear(y: int): int {
    if IsLeapYear(y) then 366 else 365
  }

  /** The triples `date(year, month, day)` accepts. */
  predicate IsValidDate(d: Date) {
    MinYear <= d.year <= MaxYear && 1 <= d.month <= 12 && 1 <= d.day <= DaysInMonth(d.year, d.month)
  }

  /** A value of type `datetime.date`: always a real day. */
  type Day = d: Date | IsValidDate(d) witness Date(1, 1, 1)

  /** Days in the years before year `y`, counted from year 1. */
  function DaysBeforeYear(y: int): int
    requires y >= 1
  {
    var x := y - 1;
    x * 365 + x / 4 - x / 100 + x / 400
  }

  /** Days in the months of year `y` before month `m`; `m == 13` gives the whole year. */
  function DaysBeforeMonth(y: int, m: int): int
    requires 1 <= m <= 13
  {
    [0, 31, 59, 90, 120, 151, 181, 212, 243, 273, 304, 334, 365][m - 1]
      + (if m > 2 && IsLeapYear(y) then 1 else 0)
  }

  /** `toordinal()`: 1 January of year 1 is day 1. */
  function Ordinal(d: Day): int {
    DaysBeforeYear(d.year) + DaysBeforeMonth(d.year, d.month) + d.day
  }

  /** `(b - a).days` for two dates at midnight. */
  function DaysBetween(a: Day, b: Day): int {
    Ordinal(b) - Ordinal(a)
  }

  /** `a <= b` on dates: year, then month, then day. */
  predicate Le(a: Date, b: Date) {
    a.year < b.year || (a.year == b.year && (a.month < b.month || (a.month == b.month && a.day <= b.day)))
  }

  predicate Lt(a: Date, b: Date) {
    Le(a, b) && a != b
  }

  /** `<=` on dates is a total order. */
  lemma LeTotalOrder()
    ensures forall a: Date :: Le(a, a)
    ensures forall a: Date, b: Date :: Le(a, b) && Le(b, a) ==> a == b
    ensures forall a: Date, b: Date, c: Date :: Le(a, b) && Le(b, c) ==> Le(a, c)
    ensures forall a: Date, b: Date :: Le(a, b) || Le(b, a)
  {
  }

  lemma DaysBeforeMonthStep(y: int, m: int)
    requires 1 <= m <= 12
    ensures DaysBeforeMonth(y, m + 1) == DaysBeforeMonth(y, m) + DaysInMonth(y, m)
  {
  }

  lemma DaysBeforeMonthMonotone(y: int, m: int, n: int)
    requires 1 <= m <= n <= 13
    ensures DaysBeforeMonth(y, m) <= DaysBeforeMonth(y, n)
  {
  }

  lemma DaysBeforeYearStep(y: int)
    requires y >= 1
    ensures DaysBeforeYear(y + 1) == DaysBeforeYear(y) + DaysInYear(y)
  {
    var x := y - 1;
    DivStep4(x);
    DivStep100(x);
    DivStep400(x);
    var a := if y % 4 == 0 then 1 else 0;
    var b := if y % 100 == 0 then 1 else 0;
    var c := if y % 400 == 0 then 1 else 0;
    assert DaysBeforeYear(y + 1) == DaysBeforeYear(y) + 365 + a - b + c;
    DivisibleBy400(y);
    DivisibleBy100(y);
  }

  lemma DivisibleBy400(y: int)
    ensures y % 400 == 0 ==> y % 100 == 0
  {
    if y % 400 == 0 {
      var q := y / 400;
      assert y == 100 * (4 * q);
    }
  }

  lemma DivisibleBy100(y: int)
    ensures y % 100 == 0 ==> y % 4 == 0
  {
    if y % 100 == 0 {
      var q := y / 100;
      assert y == 4 * (25 * q);
    }
  }

  lemma DivStep4(x: int)
    requires x >= 0
    ensures (x + 1) / 4 == x / 4 + (if (x + 1) % 4 == 0 then 1 else 0)
  {
    var q, r := x / 4, x % 4;
    assert x == 4 * q + r && 0 <= r < 4;
    if r == 3 {
      assert x + 1 == 4 * (q + 1);
    } else {
      assert x + 1 == 4 * q + (r + 1);
    }
  }

  lemma DivStep100(x: int)
    requires x >= 0
    ensures (x + 1) / 100 == x / 100 + (if (x + 1) % 100 == 0 then 1 else 0)
  {
    var q, r := x / 100, x % 100;
    assert x == 100 * q + r && 0 <= r < 100;
    if r == 99 {
      assert x + 1 == 100 * (q + 1);
    } else {
      assert x + 1 == 100 * q + (r + 1);
    }
  }

  lemma DivStep400(x: int)
    requires x >= 0
    ensures (x + 1) / 400 == x / 400 + (if (x + 1) % 400 == 0 then 1 else 0)
  {
    var q, r := x / 400, x % 400;
    assert x == 400 * q + r && 0 <= r < 400;
    if r == 399 {
      assert x + 1 == 400 * (q + 1);
    } else {
      assert x + 1 == 400 * q + (r + 1);
    }
  }

  lemma {:induction false} DaysBeforeYearGrows(y: int, z: int)
    requires 1 <= y < z
    ensures DaysBeforeYear(y) + DaysInYear(y) <= DaysBeforeYear(z)
    decreases z - y
  {
    DaysBeforeYearStep(y);
    if y + 1 < z {
      DaysBeforeYearGrows(y + 1, z);
    }
  }

  /** Every day of year `y` has an ordinal in that year's range of ordinals. */
  lemma OrdinalWithinYear(d: Day)
    ensures DaysBeforeYear(d.year) < Ordinal(d) <= DaysBeforeYear(d.year) + DaysInYear(d.year)
  {
    DaysBeforeMonthStep(d.year, d.month);
    DaysBeforeMonthMonotone(d.year, d.month + 1, 13);
  }

  lemma OrdinalStrictlyMonotone(a: Day, b: Day)
    requires Lt(a, b)
    ensures Ordinal(a) < Ordinal(b)
  {
    if a.year < b.year {
      OrdinalWithinYear(a);
      OrdinalWithinYear(b);
      DaysBeforeYearGrows(a.year, b.year);
    } else if a.month < b.month {
      DaysBeforeMonthStep(a.year, a.month);
      DaysBeforeMonthMonotone(a.year, a.month + 1, b.month);
    }
  }

  /** Comparing two real days with `<=` is comparing their ordinals, so
      `start <= d <= end` and `(b - a).days` agree about which day comes first. */
  lemma LeIffOrdinalLe(a: Day, b: Day)
    ensures Le(a, b) <==> Ordinal(a) <= Ordinal(b)
  {
    if Lt(a, b) {
      OrdinalStrictlyMonotone(a, b);
    } else if Lt(b, a) {
      OrdinalStrictlyMonotone(b, a);
    }
  }

  /** Two real days with the same ordinal are the same day. */
  lemma OrdinalInjective(a: Day, b: Day)
    requires Ordinal(a) == Ordinal(b)
    ensures a == b
  {
    LeIffOrdinalLe(a, b);
    LeIffOrdinalLe(b, a);
  }

  /** The day after `d` is one ordinal later: the calendar has no gaps. */
  lemma {:induction false} DaysBetweenNextDay(d: Day)
    requires d.year < MaxYear || d.month < 12 || d.day < 31
    ensures var next: Day :=
        if d.day < DaysInMonth(d.year, d.month) then Date(d.year, d.month, d.day + 1)
        else if d.month < 12 then Date(d.year, d.month + 1, 1)
        else Date(d.year + 1, 1, 1);
      DaysBetween(d, next) == 1
  {
    if d.day == DaysInMonth(d.year, d.month) {
      DaysBeforeMonthStep(d.year, d.month);
      if d.month == 12 {
        DaysBeforeYearStep(d.year);
      }
    }
  }
}
