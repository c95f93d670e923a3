/** Timezone-naive calendar dates in the proleptic Gregorian calendar.

    A calendar day is identified by an integer day number: day 0 is
    0001-01-01 (a Monday), day 1 is 0001-01-02, and negative numbers count
    backwards into year 0 and earlier.  Both schedulers work on day numbers;
    conversion to and from (year, month, day) is proved to be a bijection
    between day numbers and valid dates.
 */
module Dates {

  /** A day number: days since 0001-01-01. */
  type Day = int

  /** A calendar date with a 1-based month, as in the ISO `YYYY-MM-DD` form. */
  datatype Date = Date(year: int, month: int, day: int)

  predicate IsLeapYear(y: int) {
    y % 4 == 0 && (y % 100 != 0 || y % 400 == 0)
  }

  function DaysInYear(y: int): (n: int)
    ensures n == 365 || n == 366
    ensures n == 366 <==> IsLeapYear(y)
    ensures n == DaysBeforeMonth(y, 13)
  {
    if IsLeapYear(y) then 366 else 365
  }

  function DaysInMonth(y: int, m: int): (n: int)
    requires 1 <= m <= 12
    ensures 28 <= n <= 31
    ensures m == 2 ==> (n == 29 <==> IsLeapYear(y))
  {
    if m == 2 then (if IsLeapYear(y) then 29 else 28)
    else if m == 4 || m == 6 || m == 9 || m == 11 then 30
    else 31
  }

  predicate ValidDate(d: Date) {
    1 <= d.month <= 12 && 1 <= d.day <= DaysInMonth(d.year, d.month)
  }

  /** Number of days from 0001-01-01 to January 1st of year `y`
      (negative for years before 1). */
  function DaysBeforeYear(y: int): int {
    var p := y - 1;
    365 * p + p / 4 - p / 100 + p / 400
  }

  /** Number of days from January 1st of year `y` to the 1st of month `m`;
      `m == 13` stands for the 1st of the following January. */
  function DaysBeforeMonth(y: int, m: int): int
    requires 1 <= m <= 13
  {
    [0, 31, 59, 90, 120, 151, 181, 212, 243, 273, 304, 334, 365][m - 1]
      + (if m > 2 && IsLeapYear(y) then 1 else 0)
  }

  /** The day number of a valid date. */
  function ToDay(d: Date): Day
    requires ValidDate(d)
  {
    DaysBeforeYear(d.year) + DaysBeforeMonth(d.year, d.month) + d.day - 1
  }

  /** Day of the week, 0 = Sunday .. 6 = Saturday, as JavaScript's `getDay`. */
  function Weekday(n: Day): (w: int)
    ensures 0 <= w <= 6
  {
    (n + 1) % 7
  }

  /** Weekdays advance by one per day and repeat every seven days. */
  lemma WeekdayStep(n: Day)
    ensures Weekday(n + 1) == (Weekday(n) + 1) % 7
    ensures Weekday(n + 7) == Weekday(n)
  {
  }

  // ---------------------------------------------------------------------
  // Facts about year and month lengths

  /** Consecutive years are `DaysInYear` apart. */
  lemma YearStep(y: int)
    ensures DaysBeforeYear(y + 1) == DaysBeforeYear(y) + DaysInYear(y)
  {
    var p := y - 1;
    DivStep(p);
    Divisors(y);
    assert DaysBeforeYear(y + 1) - DaysBeforeYear(y)
        == 365 + (y / 4 - p / 4) - (y / 100 - p / 100) + (y / 400 - p / 400);
  }

  /** Multiples of 400 are multiples of 100, which are multiples of 4. */
  lemma Divisors(y: int)
    ensures y % 400 == 0 ==> y % 100 == 0
    ensures y % 100 == 0 ==> y % 4 == 0
  {
    if y % 400 == 0 {
      var k := y / 400;
      assert y == 100 * (4 * k);
      MultipleMod(4 * k);
    }
    if y % 100 == 0 {
      var k := y / 100;
      assert y == 4 * (25 * k);
      MultipleMod(25 * k);
    }
  }

  /** Multiples have no remainder. */
  lemma MultipleMod(k: int)
    ensures (100 * k) % 100 == 0
    ensures (4 * k) % 4 == 0
  {
  }

  /** Floor division by 4, 100 and 400 steps up by one exactly at multiples. */
  lemma DivStep(p: int)
    ensures (p + 1) / 4 == p / 4 + (if (p + 1) % 4 == 0 then 1 else 0)
    ensures (p + 1) / 100 == p / 100 + (if (p + 1) % 100 == 0 then 1 else 0)
    ensures (p + 1) / 400 == p / 400 + (if (p + 1) % 400 == 0 then 1 else 0)
  {
  }

  /** Year starts are strictly increasing, by at least 365 days per year. */
  lemma {:induction false} YearsAscending(a: int, b: int)
    requires a <= b
    ensures DaysBeforeYear(a) + 365 * (b - a) <= DaysBeforeYear(b)
    decreases b - a
  {
    if a < b {
      YearStep(a);
      YearsAscending(a + 1, b);
    }
  }

  /** Consecutive months are `DaysInMonth` apart. */
  lemma MonthStep(y: int, m: int)
    requires 1 <= m <= 12
    ensures DaysBeforeMonth(y, m + 1) == DaysBeforeMonth(y, m) + DaysInMonth(y, m)
  {
  }

  /** Month starts are ascending within a year. */
  lemma {:induction false} MonthsAscending(y: int, a: int, b: int)
    requires 1 <= a <= b <= 13
    ensures DaysBeforeMonth(y, a) + 28 * (b - a) <= DaysBeforeMonth(y, b)
    decreases b - a
  {
    if a < b {
      MonthStep(y, b - 1);
      MonthsAscending(y, a, b - 1);
    }
  }

  /** A valid date's day number lies inside its year. */
  lemma DayInsideYear(d: Date)
    requires ValidDate(d)
    ensures DaysBeforeYear(d.year) <= ToDay(d) < DaysBeforeYear(d.year + 1)
  {
    YearStep(d.year);
    assert DaysInYear(d.year) == DaysBeforeMonth(d.year, 13);
    MonthsAscending(d.year, d.month + 1, 13);
  }

  // ---------------------------------------------------------------------
  // From day numbers back to dates

  /** The year containing day `n`, found by walking year by year from the
      guess `y`. */
  function YearOf(n: Day, y: int): (r: int)
    ensures DaysBeforeYear(r) <= n < DaysBeforeYear(r + 1)
    decreases (if n >= DaysBeforeYear(y) then 0 else 1),
              (if n >= DaysBeforeYear(y) then n - DaysBeforeYear(y) else DaysBeforeYear(y) - n)
  {
    YearStep(y);
    YearStep(y - 1);
    if n < DaysBeforeYear(y) then YearOf(n, y - 1)
    else if n >= DaysBeforeYear(y + 1) then YearOf(n, y + 1)
    else y
  }

  /** The month of year `y` containing day offset `o`, walking up from `m`. */
  function MonthOf(y: int, o: int, m: int): (r: int)
    requires 1 <= m <= 12
    requires DaysBeforeMonth(y, m) <= o < DaysBeforeMonth(y, 13)
    ensures m <= r <= 12
    ensures DaysBeforeMonth(y, r) <= o < DaysBeforeMonth(y, r + 1)
    decreases 12 - m
  {
    if o < DaysBeforeMonth(y, m + 1) then m else MonthOf(y, o, m + 1)
  }

  /** The date of day number `n`: the inverse of `ToDay`.  The year search
      starts from the average-year estimate (400 years have 146097 days),
      which is off by at most one. */
  function FromDay(n: Day): (d: Date)
    ensures ValidDate(d)
    ensures ToDay(d) == n
  {
    var y := YearOf(n, 400 * n / 146097 + 1);
    var o := n - DaysBeforeYear(y);
    assert 0 <= o < DaysBeforeMonth(y, 13) by {
      YearStep(y);
      assert DaysInYear(y) == DaysBeforeMonth(y, 13);
    }
    var m := MonthOf(y, o, 1);
    MonthStep(y, m);
    Date(y, m, o - DaysBeforeMonth(y, m) + 1)
  }

  /** Only one year contains a given day. */
  lemma YearUnique(n: Day, y: int, z: int)
    requires DaysBeforeYear(y) <= n < DaysBeforeYear(y + 1)
    requires DaysBeforeYear(z) <= n < DaysBeforeYear(z + 1)
    ensures y == z
  {
    if y < z {
      YearsAscending(y + 1, z);
    } else if z < y {
      YearsAscending(z + 1, y);
    }
  }

  /** Only one month of a year contains a given offset. */
  lemma MonthUnique(y: int, o: int, a: int, b: int)
    requires 1 <= a <= 12 && 1 <= b <= 12
    requires DaysBeforeMonth(y, a) <= o < DaysBeforeMonth(y, a + 1)
    requires DaysBeforeMonth(y, b) <= o < DaysBeforeMonth(y, b + 1)
    ensures a == b
  {
    if a < b {
      MonthsAscending(y, a + 1, b);
    } else if b < a {
      MonthsAscending(y, b + 1, a);
    }
  }

  /** `ToDay` is injective on valid dates. */
  lemma ToDayInjective(a: Date, b: Date)
    requires ValidDate(a) && ValidDate(b)
    requires ToDay(a) == ToDay(b)
    ensures a == b
  {
    var n := ToDay(a);
    assert a.year == b.year by {
      DayInsideYear(a);
      DayInsideYear(b);
      YearUnique(n, a.year, b.year);
    }
    MonthUnique(a.year, n - DaysBeforeYear(a.year), a.month, b.month);
  }

  /** Day numbers and valid dates are in one-to-one correspondence. */
  lemma FromToDay(d: Date)
    requires ValidDate(d)
    ensures FromDay(ToDay(d)) == d
  {
    ToDayInjective(d, FromDay(ToDay(d)));
  }

  /** Whether `a` comes before `b` in (year, month, day) order. */
  predicate Before(a: Date, b: Date) {
    || a.year < b.year
    || (a.year == b.year && a.month < b.month)
    || (a.year == b.year && a.month == b.month && a.day < b.day)
  }

  /** Day numbers grow with the calendar order. */
  lemma ToDayMonotone(a: Date, b: Date)
    requires ValidDate(a) && ValidDate(b)
    requires Before(a, b)
    ensures ToDay(a) < ToDay(b)
  {
    if a.year < b.year {
      DayInsideYear(a);
      DayInsideYear(b);
      YearsAscending(a.year + 1, b.year);
    } else if a.month < b.month {
      MonthStep(a.year, a.month);
      MonthsAscending(a.year, a.month + 1, b.month);
    }
  }

  /** Comparing two valid dates compares their day numbers: one date is
      earlier than another exactly when its day number is smaller. */
  lemma {:induction false} ToDayOrder(a: Date, b: Date)
    requires ValidDate(a) && ValidDate(b)
    ensures Before(a, b) <==> ToDay(a) < ToDay(b)
    ensures a == b <==> ToDay(a) == ToDay(b)
  {
    if Before(a, b) {
      ToDayMonotone(a, b);
    } else if a != b {
      assert Before(b, a);
      ToDayMonotone(b, a);
    }
  }

  /** The year of a day number is the one whose span contains it. */
  lemma YearOfDay(n: Day, y: int)
    ensures FromDay(n).year == y <==> DaysBeforeYear(y) <= n < DaysBeforeYear(y + 1)
  {
    var r := FromDay(n);
    DayInsideYear(r);
    if DaysBeforeYear(y) <= n < DaysBeforeYear(y + 1) {
      YearUnique(n, y, r.year);
    }
  }

  /** December 31st of year `y` is the last day before the next year. */
  lemma LastDayOfYear(y: int)
    ensures ValidDate(Date(y, 12, 31))
    ensures ToDay(Date(y, 12, 31)) == DaysBeforeYear(y + 1) - 1
  {
    YearStep(y);
    assert DaysInYear(y) == DaysBeforeMonth(y, 13);
  }

  // ---------------------------------------------------------------------
  // JavaScript's `new Date(year, monthIndex, day)`

  /** The year the JavaScript `Date` constructor actually uses: a year
      argument in 0..99 is read as 1900 + year. */
  function ConstructorYear(y: int): (r: int)
    ensures 0 <= y <= 99 ==> r == 1900 + y
    ensures !(0 <= y <= 99) ==> r == y
  {
    if 0 <= y <= 99 then 1900 + y else y
  }

  /** Days since 0001-01-01 of `new Date(y, monthIndex, day)` with the year
      read as given: the 0-based month index and the day may lie outside
      their ranges and roll over into neighbouring months, as in JavaScript. */
  function MakeDay(y: int, monthIndex: int, day: int): (n: Day)
    ensures 1 <= day <= DaysInMonth(y + monthIndex / 12, monthIndex % 12 + 1) ==>
              n == ToDay(Date(y + monthIndex / 12, monthIndex % 12 + 1, day))
  {
    var ym := y + monthIndex / 12;
    var mn := monthIndex % 12 + 1;
    ToDay(Date(ym, mn, 1)) + day - 1
  }
}
