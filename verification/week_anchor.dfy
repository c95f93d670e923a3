/** The week-anchor classifier of the calendar component
    (`getTurnoOuFolga` and its date helpers).

    The rotation is anchored at the Monday after the first Sunday on or after
    a base date.  Every Sunday is a rest day; any other day before the anchor
    is outside the rotation ("-"); any other day from the anchor on belongs to
    the shift indexed by the number of whole weeks since the anchor, modulo
    the number of shifts.  The component hard-codes the base date 2025-01-01
    and four shifts; both are parameters here.
 */
module WeekAnchor {
  import opened Dates
  import opened Assignments

  /** The first Sunday on or after `d` (`getFirstSundayFrom`). */
  function FirstSundayFrom(d: Day): (s: Day)
    ensures Weekday(s) == 0
    ensures d <= s <= d + 6
    ensures forall k :: d <= k < s ==> Weekday(k) != 0
  {
    d + (7 - Weekday(d)) % 7
  }

  /** The first Monday strictly after `d` (`getNextMondayFrom`). */
  function NextMondayFrom(d: Day): (m: Day)
    ensures Weekday(m) == 1
    ensures d < m <= d + 7
    ensures forall k :: d < k < m ==> Weekday(k) != 1
  {
    d + 1 + (8 - Weekday(d + 1)) % 7
  }

  /** The start of the rotation (`inicioCiclo`): the Monday after the first
      Sunday on or after `base`. */
  function Anchor(base: Day): (a: Day)
    ensures Weekday(a) == 1
    ensures a == FirstSundayFrom(base) + 1
    ensures base < a <= base + 7
  {
    NextMondayFrom(FirstSundayFrom(base))
  }

  /** Whole weeks from `start` to `d`, rounded down (`weeksSince`). */
  function WeeksSince(start: Day, d: Day): (w: int)
    ensures start + 7 * w <= d < start + 7 * (w + 1)
    ensures start <= d ==> w >= 0
  {
    (d - start) / 7
  }

  /** The assignment of day `d` (`getTurnoOuFolga`). */
  function ShiftOrRest(d: Day, shifts: seq<string>, base: Day): (a: Assignment)
    requires |shifts| > 0
    ensures a == Rest <==> Weekday(d) == 0
    ensures a == Unassigned <==> Weekday(d) != 0 && d < Anchor(base)
    ensures a.Work? ==> a.shift in shifts && Anchor(base) <= d
  {
    if Weekday(d) == 0 then Rest
    else if d < Anchor(base) then Unassigned
    else Work(shifts[WeeksSince(Anchor(base), d) % |shifts|])
  }

  // ---------------------------------------------------------------------
  // The helpers as the component writes them: day-by-day scans

  /** `getFirstSundayFrom`: step forward one day at a time until a Sunday. */
  method ScanToSunday(d: Day) returns (s: Day)
    ensures s == FirstSundayFrom(d)
  {
    s := d;
    while Weekday(s) != 0
      invariant d <= s <= FirstSundayFrom(d)
      decreases FirstSundayFrom(d) - s
    {
      s := s + 1;
    }
  }

  /** `getNextMondayFrom`: step forward at least once, then on until a
      Monday. */
  method ScanToMonday(d: Day) returns (m: Day)
    ensures m == NextMondayFrom(d)
  {
    m := d + 1;
    while Weekday(m) != 1
      invariant d < m <= NextMondayFrom(d)
      decreases NextMondayFrom(d) - m
    {
      m := m + 1;
    }
  }

  /** `getTurnoOuFolga` with its anchor found by the two scans. */
  method ShiftOrRestByScan(d: Day, shifts: seq<string>, base: Day) returns (a: Assignment)
    requires |shifts| > 0
    ensures a == ShiftOrRest(d, shifts, base)
  {
    if Weekday(d) == 0 {
      return Rest;
    }
    var sunday := ScanToSunday(base);
    var anchor := ScanToMonday(sunday);
    if d < anchor {
      return Unassigned;
    }
    var weeks := (d - anchor) / 7;
    a := Work(shifts[weeks % |shifts|]);
  }

  // ---------------------------------------------------------------------
  // Properties

  /** Week `w` after the anchor runs Monday to Sunday: Monday to Saturday
      belong to shift `w mod n`, and its Sunday is a rest day. */
  lemma WeekShape(shifts: seq<string>, base: Day, w: nat, j: nat)
    requires |shifts| > 0
    requires j < 7
    ensures ShiftOrRest(Anchor(base) + 7 * w + j, shifts, base)
         == if j == 6 then Rest else Work(shifts[w % |shifts|])
  {
    var a := Anchor(base);
    var d := a + 7 * w + j;
    assert WeeksSince(a, d) == w;
    assert Weekday(d) == (Weekday(a) + j) % 7 by {
      assert d + 1 == (a + 1) + 7 * w + j;
    }
    assert Weekday(d) == (j + 1) % 7 && a <= d;
  }

  /** The same weekday one week later is assigned the next shift in the
      list, cyclically. */
  lemma NextWeekNextShift(d: Day, shifts: seq<string>, base: Day)
    requires |shifts| > 0
    requires Anchor(base) <= d && Weekday(d) != 0
    ensures var w := WeeksSince(Anchor(base), d);
      && ShiftOrRest(d, shifts, base) == Work(shifts[w % |shifts|])
      && ShiftOrRest(d + 7, shifts, base) == Work(shifts[(w + 1) % |shifts|])
  {
    var a := Anchor(base);
    assert WeeksSince(a, d + 7) == WeeksSince(a, d) + 1;
    WeekdayStep(d);
  }

  // ---------------------------------------------------------------------
  // The shipped configuration

  const ShippedShifts: seq<string> := ["Noite", "Tarde", "Manhã", "Teste"]

  /** Base date 2025-01-01 (`trabalhoInicio`). */
  function ShippedBase(): Day {
    ToDay(Date(2025, 1, 1))
  }

  /** From base 2025-01-01 (a Wednesday) the first Sunday is 2025-01-05 and
      the anchor is Monday 2025-01-06. */
  lemma ShippedAnchor()
    ensures FirstSundayFrom(ShippedBase()) == ToDay(Date(2025, 1, 5))
    ensures Anchor(ShippedBase()) == ToDay(Date(2025, 1, 6))
  {
    assert ShippedBase() == 739251;
  }

  /** 2025-01-03 is outside the rotation and Sunday 2025-01-05 is a rest
      day. */
  lemma ShippedBeforeAnchor()
    ensures ShiftOrRest(ToDay(Date(2025, 1, 3)), ShippedShifts, ShippedBase()) == Unassigned
    ensures ShiftOrRest(ToDay(Date(2025, 1, 5)), ShippedShifts, ShippedBase()) == Rest
  {
    ShippedAnchor();
  }

  /** Jan 6-11 are Noite, Sunday Jan 12 is a rest day, Jan 13 starts Tarde,
      and after four weeks the rotation is back at Noite on 2025-02-03. */
  lemma ShippedFirstWeeks()
    ensures forall d :: ToDay(Date(2025, 1, 6)) <= d <= ToDay(Date(2025, 1, 11)) ==>
      ShiftOrRest(d, ShippedShifts, ShippedBase()) == Work("Noite")
    ensures ShiftOrRest(ToDay(Date(2025, 1, 12)), ShippedShifts, ShippedBase()) == Rest
    ensures ShiftOrRest(ToDay(Date(2025, 1, 13)), ShippedShifts, ShippedBase()) == Work("Tarde")
    ensures ShiftOrRest(ToDay(Date(2025, 2, 3)), ShippedShifts, ShippedBase()) == Work("Noite")
  {
    ShippedAnchor();
    var a := ToDay(Date(2025, 1, 6));
    assert a == 739256;
    forall d | a <= d <= ToDay(Date(2025, 1, 11))
      ensures ShiftOrRest(d, ShippedShifts, ShippedBase()) == Work("Noite")
    {
      WeekShape(ShippedShifts, ShippedBase(), 0, d - a);
    }
    WeekShape(ShippedShifts, ShippedBase(), 0, 6);
    WeekShape(ShippedShifts, ShippedBase(), 1, 0);
    WeekShape(ShippedShifts, ShippedBase(), 4, 0);
  }
}
