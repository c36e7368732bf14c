/** Proleptic Gregorian calendar arithmetic on day numbers.

    A day is a `nat` counting from 0001-01-01, which is a Monday: day `n` is
    the date whose Python `toordinal()` is `n + 1`, and its Python
    `weekday()` (Monday = 0) is `n % 7`. Subtracting or adding `timedelta`
    days is subtraction or addition on the day number.
 */
module Calendar {

  /** A year-month-day triple; only `ValidCivil` triples name dates. */
  datatype Civil = Civil(year: int, month: int, day: int)

  predicate IsLeap(y: int)
  {
    y % 4 == 0 && (y % 100 != 0 || y % 400 == 0)
  }

  function DaysInYear(y: int): int
  {
    if IsLeap(y) then 366 else 365
  }

  function DaysInMonth(y: int, m: int): int
    requires 1 <= m <= 12
  {
    if m == 2 then (if IsLeap(y) then 29 else 28)
    else if m == 4 || m == 6 || m == 9 || m == 11 then 30
    else 31
  }

  /** Days in the months of year `y` before month `m`. */
  function DaysBeforeMonth(y: int, m: int): int
    requires 1 <= m <= 12
  {
    [0, 31, 59, 90, 120, 151, 181, 212, 243, 273, 304, 334][m - 1]
      + (if m > 2 && IsLeap(y) then 1 else 0)
  }

  /** Days from 0001-01-01 to January 1st of year `y`. */
  function DaysBeforeYear(y: int): int
    requires y >= 1
  {
    var p := y - 1;
    365 * p + p / 4 - p / 100 + p / 400
  }

  predicate ValidCivil(c: Civil)
  {
    1 <= c.year && 1 <= c.month <= 12 && 1 <= c.day <= DaysInMonth(c.year, c.month)
  }

  /** The day number of a valid date. */
  function ToDay(c: Civil): nat
    requires ValidCivil(c)
  {
    DaysBeforeYear(c.year) + DaysBeforeMonth(c.year, c.month) + c.day - 1
  }

  /** The first day that Python's `date` type cannot hold (10000-01-01). */
  const DayCount: nat := 3652059

  lemma DayCountIsYear10000()
    ensures DaysBeforeYear(10000) == DayCount
  {
  }

  /** How the leap-year counts of `DaysBeforeYear` grow from `p` to `p + 1`. */
  lemma LeapCountStep(p: nat)
    ensures (p + 1) / 4 == p / 4 + (if (p + 1) % 4 == 0 then 1 else 0)
    ensures (p + 1) / 100 == p / 100 + (if (p + 1) % 100 == 0 then 1 else 0)
    ensures (p + 1) / 400 == p / 400 + (if (p + 1) % 400 == 0 then 1 else 0)
  {
  }

  /** A multiple of 400 is a multiple of 100, which is a multiple of 4. */
  lemma DivisorChain(y: nat)
    ensures y % 400 == 0 ==> y % 100 == 0
    ensures y % 100 == 0 ==> y % 4 == 0
  {
    if y % 400 == 0 {
      var q := y / 400;
      assert y == 100 * (4 * q);
    }
    if y % 100 == 0 {
      var q := y / 100;
      assert y == 4 * (25 * q);
    }
  }

  lemma DaysBeforeYearStep(y: int)
    requires y >= 1
    ensures DaysBeforeYear(y + 1) == DaysBeforeYear(y) + DaysInYear(y)
  {
    LeapCountStep(y - 1);
    DivisorChain(y);
  }

  lemma DaysBeforeMonthStep(y: int, m: int)
    requires 1 <= m <= 12
    ensures m < 12 ==> DaysBeforeMonth(y, m + 1) == DaysBeforeMonth(y, m) + DaysInMonth(y, m)
    ensures m == 12 ==> DaysBeforeMonth(y, m) + DaysInMonth(y, m) == DaysInYear(y)
  {
  }

  lemma {:induction false} DaysBeforeYearMonotone(y1: int, y2: int)
    requires 1 <= y1 <= y2
    ensures DaysBeforeYear(y1) + 365 * (y2 - y1) <= DaysBeforeYear(y2)
    decreases y2 - y1
  {
    if y1 < y2 {
      DaysBeforeYearStep(y1);
      DaysBeforeYearMonotone(y1 + 1, y2);
    }
  }

  lemma {:induction false} DaysBeforeMonthMonotone(y: int, m1: int, m2: int)
    requires 1 <= m1 <= m2 <= 12
    ensures DaysBeforeMonth(y, m1) + 28 * (m2 - m1) <= DaysBeforeMonth(y, m2)
    decreases m2 - m1
  {
    if m1 < m2 {
      DaysBeforeMonthStep(y, m1);
      DaysBeforeMonthMonotone(y, m1 + 1, m2);
    }
  }

  /** A valid date's day number lies within its own year. */
  lemma ToDayWithinYear(c: Civil)
    requires ValidCivil(c)
    ensures DaysBeforeYear(c.year) <= ToDay(c) < DaysBeforeYear(c.year + 1)
  {
    DaysBeforeYearStep(c.year);
    DaysBeforeMonthMonotone(c.year, c.month, 12);
    DaysBeforeMonthStep(c.year, 12);
  }

  /** The date `rest` days after the first day of month `m` of year `y`,
      counting forward through the months of that year. */
  function InYear(y: int, m: int, rest: nat): Civil
    requires 1 <= m <= 12
    decreases 12 - m
  {
    if m == 12 || rest < DaysInMonth(y, m) then Civil(y, m, rest + 1)
    else InYear(y, m + 1, rest - DaysInMonth(y, m))
  }

  /** The date `rest` days after January 1st of year `y`, counting forward
      year by year. */
  function CivilFrom(rest: nat, y: int): Civil
    requires y >= 1
    decreases rest
  {
    if rest < DaysInYear(y) then InYear(y, 1, rest)
    else CivilFrom(rest - DaysInYear(y), y + 1)
  }

  lemma {:induction false} InYearCorrect(y: int, m: int, rest: nat)
    requires 1 <= y && 1 <= m <= 12 && DaysBeforeMonth(y, m) + rest < DaysInYear(y)
    ensures var c := InYear(y, m, rest);
            ValidCivil(c) && c.year == y && DaysBeforeMonth(y, c.month) + c.day - 1 == DaysBeforeMonth(y, m) + rest
    decreases 12 - m
  {
    DaysBeforeMonthStep(y, m);
    if m < 12 && rest >= DaysInMonth(y, m) {
      InYearCorrect(y, m + 1, rest - DaysInMonth(y, m));
    }
  }

  lemma {:induction false} CivilFromCorrect(rest: nat, y: int)
    requires y >= 1
    ensures ValidCivil(CivilFrom(rest, y)) && ToDay(CivilFrom(rest, y)) == DaysBeforeYear(y) + rest
    decreases rest
  {
    if rest < DaysInYear(y) {
      InYearCorrect(y, 1, rest);
    } else {
      DaysBeforeYearStep(y);
      CivilFromCorrect(rest - DaysInYear(y), y + 1);
    }
  }

  /** The date of day number `n`: the valid date whose day number is `n`
      (`CivilFrom` shows there is one, `ToDayOrdered` that there is only
      one). */
  ghost function FromDay(n: nat): (c: Civil)
    ensures ValidCivil(c) && ToDay(c) == n
  {
    CivilFromCorrect(n, 1);
    assert ValidCivil(CivilFrom(n, 1)) && ToDay(CivilFrom(n, 1)) == n;
    var c :| ValidCivil(c) && ToDay(c) == n;
    c
  }

  /** `date.fromordinal(n + 1)`: computes the date of day number `n`. */
  method DateOf(n: nat) returns (c: Civil)
    ensures c == FromDay(n)
  {
    c := CivilFrom(n, 1);
    CivilFromCorrect(n, 1);
    FromDayToDay(c);
  }

  /** Lexicographic order on (year, month, day). */
  predicate CivilLt(a: Civil, b: Civil)
  {
    a.year < b.year
    || (a.year == b.year && a.month < b.month)
    || (a.year == b.year && a.month == b.month && a.day < b.day)
  }

  /** Day numbers follow calendar order. */
  lemma ToDayOrdered(a: Civil, b: Civil)
    requires ValidCivil(a) && ValidCivil(b) && CivilLt(a, b)
    ensures ToDay(a) < ToDay(b)
  {
    if a.year < b.year {
      ToDayWithinYear(a);
      ToDayWithinYear(b);
      DaysBeforeYearMonotone(a.year + 1, b.year);
    } else if a.month < b.month {
      DaysBeforeMonthStep(a.year, a.month);
      DaysBeforeMonthMonotone(a.year, a.month + 1, b.month);
    }
  }

  /** Every valid date comes back from its day number: `ToDay` and
      `FromDay` are mutually inverse. */
  lemma FromDayToDay(c: Civil)
    requires ValidCivil(c)
    ensures FromDay(ToDay(c)) == c
  {
    var d := FromDay(ToDay(c));
    if CivilLt(c, d) {
      ToDayOrdered(c, d);
    } else if CivilLt(d, c) {
      ToDayOrdered(d, c);
    }
  }

  /** Calendar order and day order agree in both directions. */
  lemma CivilOrderIsDayOrder(a: nat, b: nat)
    ensures CivilLt(FromDay(a), FromDay(b)) <==> a < b
  {
    var ca, cb := FromDay(a), FromDay(b);
    if CivilLt(ca, cb) {
      ToDayOrdered(ca, cb);
    } else if a < b {
      if CivilLt(cb, ca) {
        ToDayOrdered(cb, ca);
      }
    }
  }

  /** Python's `weekday()`: Monday is 0, Sunday is 6. */
  function Weekday(n: nat): (w: nat)
    ensures w < 7
  {
    n % 7
  }

  /** The days from 0001-01-01 up to 9999-12-31 are exactly those whose
      year has four digits. */
  lemma InRangeIffFourDigitYear(n: nat)
    ensures n < DayCount <==> FromDay(n).year <= 9999
  {
    var y := FromDay(n).year;
    ToDayWithinYear(FromDay(n));
    DayCountIsYear10000();
    if y <= 9999 {
      DaysBeforeYearMonotone(y + 1, 10000);
    } else {
      DaysBeforeYearMonotone(10000, y);
    }
  }
}
