/** The month calendar of the calendar component: month lengths, the weekday
    of the 1st, the previous/next month navigation and the grid of cells
    (leading blanks, then the days of the month) laid out under the week
    header Dom, Seg, Ter, Qua, Qui, Sex, Sáb.

    Months are 0-based here, as in JavaScript (`0` is January).  The
    component derives month lengths and first weekdays from the `Date`
    constructor `new Date(year, monthIndex, day)`, which rolls an
    out-of-range month or day over into neighbouring months and reads a year
    in 0..99 as 1900 + year; `MakeDay` models the former, and the members
    named `...AsWritten` include the latter.
 */
module MonthView {
  import opened Dates
  import opened Wrappers

  // ---------------------------------------------------------------------
  // Month lengths and first weekdays

  /** The previous month's last day is the day before a month's 1st. */
  lemma DayBeforeFirst(y: int, monthIndex: int)
    ensures var py, pm := y + monthIndex / 12, monthIndex % 12 + 1;
      MakeDay(y, monthIndex + 1, 0) == ToDay(Date(py, pm, DaysInMonth(py, pm)))
  {
    var py, pm := y + monthIndex / 12, monthIndex % 12 + 1;
    var ny, nm := y + (monthIndex + 1) / 12, (monthIndex + 1) % 12 + 1;
    if pm == 12 {
      assert ny == py + 1 && nm == 1;
      LastDayOfYear(py);
    } else {
      assert ny == py && nm == pm + 1;
      MonthStep(py, pm);
    }
  }

  /** Length of month `monthIndex` of year `y`: the day of the month of
      `new Date(y, monthIndex + 1, 0)`, the last day of that month, counted
      from the 1st of the month. */
  function MonthLength(y: int, monthIndex: int): (n: int)
    ensures n == DaysInMonth(y + monthIndex / 12, monthIndex % 12 + 1)
    ensures 28 <= n <= 31
    ensures monthIndex == 1 ==> (n == 29 <==> IsLeapYear(y))
  {
    MonthSpan(y, monthIndex);
    MakeDay(y, monthIndex + 1, 0) - MakeDay(y, monthIndex, 1) + 1
  }

  /** From the 1st of a month to the day before the next month's 1st is the
      month's calendar length. */
  lemma MonthSpan(y: int, monthIndex: int)
    ensures MakeDay(y, monthIndex + 1, 0) - MakeDay(y, monthIndex, 1) + 1
         == DaysInMonth(y + monthIndex / 12, monthIndex % 12 + 1)
  {
    var py, pm := y + monthIndex / 12, monthIndex % 12 + 1;
    var first := ToDay(Date(py, pm, 1));
    var n := DaysInMonth(py, pm);
    DayBeforeFirst(y, monthIndex);
    assert MakeDay(y, monthIndex + 1, 0) == ToDay(Date(py, pm, n));
    assert ToDay(Date(py, pm, n)) == first + n - 1;
    assert MakeDay(y, monthIndex, 1) == first;
  }

  /** Weekday (0 = Sunday) of the 1st of month `monthIndex` of year `y`:
      `new Date(y, monthIndex, 1).getDay()`. */
  function FirstWeekday(y: int, monthIndex: int): (w: int)
    ensures 0 <= w <= 6
    ensures w == Weekday(ToDay(Date(y + monthIndex / 12, monthIndex % 12 + 1, 1)))
  {
    Weekday(MakeDay(y, monthIndex, 1))
  }

  /** `getDaysInMonth` as written, with the constructor's reading of years
      0..99 as 1900..1999. */
  function MonthLengthAsWritten(year: int, monthIndex: int): (n: int)
    ensures !(0 <= year <= 99) ==> n == MonthLength(year, monthIndex)
    ensures 0 <= year <= 99 ==> n == MonthLength(1900 + year, monthIndex)
  {
    MonthLength(ConstructorYear(year), monthIndex)
  }

  /** Each month starts on the weekday after its predecessor's last day:
      the first weekday moves on by the previous month's length, modulo 7. */
  lemma FirstWeekdayAdvances(y: int, monthIndex: int)
    ensures FirstWeekday(y, monthIndex + 1)
         == (FirstWeekday(y, monthIndex) + MonthLength(y, monthIndex)) % 7
  {
    var first := MakeDay(y, monthIndex, 1);
    assert MakeDay(y, monthIndex + 1, 1) == first + MonthLength(y, monthIndex) by {
      assert MakeDay(y, monthIndex + 1, 1) == MakeDay(y, monthIndex + 1, 0) + 1;
      assert MonthLength(y, monthIndex) == MakeDay(y, monthIndex + 1, 0) - first + 1;
    }
    ShiftMod7(first + 1, MonthLength(y, monthIndex));
  }

  /** `getFirstDayOfMonth` as written, with the same reading of years. */
  function FirstWeekdayAsWritten(year: int, monthIndex: int): (w: int)
    ensures !(0 <= year <= 99) ==> w == FirstWeekday(year, monthIndex)
    ensures 0 <= year <= 99 ==> w == FirstWeekday(1900 + year, monthIndex)
  {
    FirstWeekday(ConstructorYear(year), monthIndex)
  }

  /** February of year 0 has 29 days (0 is a leap year), but the component
      reports 28, those of February 1900; and it places January 1st of year
      0, a Saturday, on a Monday, the weekday of 1900-01-01. */
  lemma TwoDigitYearMonths()
    ensures MonthLength(0, 1) == 29 && MonthLengthAsWritten(0, 1) == 28
    ensures FirstWeekday(0, 0) == 6 && FirstWeekdayAsWritten(0, 0) == 1
  {
    assert ToDay(Date(0, 1, 1)) == -366;
    assert ToDay(Date(1900, 1, 1)) == 693595;
  }

  // ---------------------------------------------------------------------
  // Navigation

  /** The month on display: a year and a 0-based month. */
  datatype View = View(year: int, month: int)

  predicate ValidView(v: View) {
    0 <= v.month <= 11
  }

  /** Months counted from January of year 0, so that consecutive months are
      consecutive numbers. */
  function MonthNumber(v: View): int {
    12 * v.year + v.month
  }

  /** The "<" button (`prevMonth`). */
  function PrevMonth(v: View): (r: View)
    requires ValidView(v)
    ensures ValidView(r)
    ensures MonthNumber(r) == MonthNumber(v) - 1
    ensures r.year == v.year <==> v.month != 0
  {
    if v.month == 0 then View(v.year - 1, 11) else View(v.year, v.month - 1)
  }

  /** The ">" button (`nextMonth`). */
  function NextMonth(v: View): (r: View)
    requires ValidView(v)
    ensures ValidView(r)
    ensures MonthNumber(r) == MonthNumber(v) + 1
    ensures r.year == v.year <==> v.month != 11
  {
    if v.month == 11 then View(v.year + 1, 0) else View(v.year, v.month + 1)
  }

  /** After ">", the grid starts in the column following the last day of the
      month that was on display. */
  lemma NextMonthFirstWeekday(v: View)
    requires ValidView(v)
    ensures var n := NextMonth(v);
      FirstWeekday(n.year, n.month) == (FirstWeekday(v.year, v.month) + MonthLength(v.year, v.month)) % 7
  {
    var n := NextMonth(v);
    assert MakeDay(n.year, n.month, 1) == MakeDay(v.year, v.month + 1, 1) by {
      assert n.year + n.month / 12 == v.year + (v.month + 1) / 12;
      assert n.month % 12 == (v.month + 1) % 12;
    }
    FirstWeekdayAdvances(v.year, v.month);
  }

  /** A valid view is determined by its month number. */
  lemma MonthNumberInjective(v: View, w: View)
    requires ValidView(v) && ValidView(w)
    requires MonthNumber(v) == MonthNumber(w)
    ensures v == w
  {
  }

  /** The two buttons undo each other. */
  lemma PrevNextInverse(v: View)
    requires ValidView(v)
    ensures PrevMonth(NextMonth(v)) == v
    ensures NextMonth(PrevMonth(v)) == v
  {
    MonthNumberInjective(PrevMonth(NextMonth(v)), v);
    MonthNumberInjective(NextMonth(PrevMonth(v)), v);
  }

  // ---------------------------------------------------------------------
  // The grid

  /** `calendarDays`: `leading` blank cells, then the days 1..`days`. */
  method BuildGrid(leading: nat, days: nat) returns (cells: seq<Option<nat>>)
    ensures |cells| == leading + days
    ensures forall i :: 0 <= i < leading ==> cells[i] == None
    ensures forall i :: leading <= i < |cells| ==> cells[i] == Some(i - leading + 1)
  {
    cells := [];
    var i := 0;
    while i < leading
      invariant i <= leading && |cells| == i
      invariant forall k :: 0 <= k < i ==> cells[k] == None
    {
      cells := cells + [None];
      i := i + 1;
    }
    var d := 1;
    while d <= days
      invariant 1 <= d <= days + 1
      invariant |cells| == leading + d - 1
      invariant forall k :: 0 <= k < leading ==> cells[k] == None
      invariant forall k :: leading <= k < |cells| ==> cells[k] == Some(k - leading + 1)
    {
      cells := cells + [Some(d)];
      d := d + 1;
    }
  }

  /** The grid of the month on display: every day of the month appears once,
      in order, in the column (0 = Dom .. 6 = Sáb) of its weekday, and the
      grid needs at most six rows of seven. */
  method CalendarDays(v: View) returns (cells: seq<Option<nat>>)
    requires ValidView(v)
    ensures |cells| <= 42
    ensures |cells| == FirstWeekday(v.year, v.month) + MonthLength(v.year, v.month)
    ensures forall i :: 0 <= i < FirstWeekday(v.year, v.month) ==> cells[i] == None
    ensures forall i :: FirstWeekday(v.year, v.month) <= i < |cells| ==>
      && cells[i] == Some(i - FirstWeekday(v.year, v.month) + 1)
      && 1 <= cells[i].value <= DaysInMonth(v.year, v.month + 1)
      && i % 7 == Weekday(ToDay(Date(v.year, v.month + 1, cells[i].value)))
  {
    var m := v.month + 1;
    MonthOfIndex(v.year, m);
    var leading := FirstWeekday(v.year, v.month);
    var days := MonthLength(v.year, v.month);
    cells := BuildGrid(leading, days);
    GridColumns(v.year, m, leading, cells);
  }

  /** In a grid of the blanks and then the days of month `m`, starting in
      the column of the 1st, every day sits in its weekday's column. */
  lemma GridColumns(y: int, m: int, leading: int, cells: seq<Option<nat>>)
    requires 1 <= m <= 12
    requires leading == Weekday(ToDay(Date(y, m, 1)))
    requires |cells| == leading + DaysInMonth(y, m)
    requires forall i :: leading <= i < |cells| ==> cells[i] == Some(i - leading + 1)
    ensures forall i :: leading <= i < |cells| ==>
      i % 7 == Weekday(ToDay(Date(y, m, cells[i].value)))
  {
    forall i | leading <= i < |cells|
      ensures i % 7 == Weekday(ToDay(Date(y, m, cells[i].value)))
    {
      var d := cells[i].value;
      assert d == i - leading + 1;
      ColumnOfDay(y, m, d);
    }
  }

  /** For a 1-based month `m`, the component's 0-based helpers give the
      weekday of its 1st and its calendar length. */
  lemma MonthOfIndex(y: int, m: int)
    requires 1 <= m <= 12
    ensures FirstWeekday(y, m - 1) == Weekday(ToDay(Date(y, m, 1)))
    ensures MonthLength(y, m - 1) == DaysInMonth(y, m)
  {
    var mi := m - 1;
    assert mi / 12 == 0 && mi % 12 == mi;
    assert Date(y + mi / 12, mi % 12 + 1, 1) == Date(y, m, 1);
    assert FirstWeekday(y, mi) == Weekday(ToDay(Date(y, m, 1)));
    assert MonthLength(y, mi) == DaysInMonth(y, m);
  }

  /** Day `d` of a month sits `d - 1` cells after the 1st, which sits in the
      column of its own weekday. */
  lemma ColumnOfDay(y: int, m: int, d: int)
    requires 1 <= m <= 12 && 1 <= d <= DaysInMonth(y, m)
    ensures (Weekday(ToDay(Date(y, m, 1))) + d - 1) % 7 == Weekday(ToDay(Date(y, m, d)))
  {
    var first := ToDay(Date(y, m, 1));
    assert ToDay(Date(y, m, d)) == first + d - 1;
    ShiftMod7(first + 1, d - 1);
  }

  /** Adding to a remainder modulo 7 and reducing again is adding first. */
  lemma ShiftMod7(a: int, b: int)
    ensures (a % 7 + b) % 7 == (a + b) % 7
  {
    var q := a / 7;
    assert a == 7 * q + a % 7;
    assert a + b == (a % 7 + b) + 7 * q;
  }
}
