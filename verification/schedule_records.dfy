/** The records `gerarEscalaAnual` pushes, `{ data, turno }`: the date as a
    `YYYY-MM-DD` string and the assignment as its label; and the reading of
    such records back into schedule entries. */
module ScheduleRecords {
  import opened Wrappers
  import opened Dates
  import opened IsoDate
  import opened Assignments
  import opened BlockRotation

  /** One pushed record: `data` is the date, `turno` the shift or "Folga". */
  datatype Record = Record(data: string, turno: string)

  /** An entry whose date the four-digit form can hold: a day of the years
      0000 to 9999. */
  predicate Renderable(e: Entry) {
    DaysBeforeYear(0) <= e.day < DaysBeforeYear(10000)
  }

  /** The days of `Renderable` entries are exactly those of four-digit years. */
  lemma RenderableYears(e: Entry)
    ensures Renderable(e) <==> FourDigitYear(FromDay(e.day))
  {
    var r := FromDay(e.day);
    DayInsideYear(r);
    if r.year < 0 {
      YearsAscending(r.year + 1, 0);
    } else if r.year > 9999 {
      YearsAscending(10000, r.year);
    } else {
      YearsAscending(0, r.year);
      YearsAscending(r.year + 1, 10000);
    }
  }

  /** An entry whose label reads back as its assignment. */
  predicate Unambiguous(e: Entry) {
    !(e.assignment.Work? && IsMarkerLabel(e.assignment.shift))
  }

  /** The record pushed for an entry. */
  function Render(e: Entry): (r: Record)
    requires Renderable(e)
    ensures WellShaped(r.data)
    ensures r.turno == Label(e.assignment)
  {
    RenderableYears(e);
    Record(Format(FromDay(e.day)), Label(e.assignment))
  }

  /** Reads a record back; None when its date is not a `YYYY-MM-DD` day. */
  function ReadRecord(r: Record): (e: Option<Entry>)
    ensures e.Some? <==> Parse(r.data).Some?
  {
    match Parse(r.data)
    case None => None
    case Some(d) => Some(Entry(ToDay(d), FromLabel(r.turno)))
  }

  /** The records of a whole schedule, in order. */
  function RenderAll(s: seq<Entry>): (rs: seq<Record>)
    requires forall i :: 0 <= i < |s| ==> Renderable(s[i])
    ensures |rs| == |s|
    ensures forall i :: 0 <= i < |s| ==> rs[i] == Render(s[i])
  {
    if s == [] then [] else [Render(s[0])] + RenderAll(s[1..])
  }

  /** Reads a sequence of records; None if any of them is unreadable. */
  function ReadAll(rs: seq<Record>): (r: Option<seq<Entry>>)
    ensures r.Some? ==> |r.value| == |rs|
  {
    if rs == [] then Some([])
    else
      match ReadRecord(rs[0])
      case None => None
      case Some(e) =>
        match ReadAll(rs[1..])
        case None => None
        case Some(tail) => Some([e] + tail)
  }

  /** A record reads back as the entry it was rendered from, unless a shift
      is named like a marker. */
  lemma RecordRoundTrip(e: Entry)
    requires Renderable(e)
    ensures ReadRecord(Render(e)) == Some(e) <==> Unambiguous(e)
  {
    var d := FromDay(e.day);
    RenderableYears(e);
    ParseFormat(d);
    LabelRoundTrip(e.assignment);
  }

  /** Rendering then reading a schedule of unambiguous entries gives the
      schedule back. */
  lemma {:induction false} RoundTripAll(s: seq<Entry>)
    requires forall i :: 0 <= i < |s| ==> Renderable(s[i]) && Unambiguous(s[i])
    ensures ReadAll(RenderAll(s)) == Some(s)
  {
    if s != [] {
      RecordRoundTrip(s[0]);
      RoundTripAll(s[1..]);
      ReadAllCons(Render(s[0]), RenderAll(s[1..]));
      assert [s[0]] + s[1..] == s;
    }
  }

  /** Reading a record in front of other records reads it, then the rest. */
  lemma ReadAllCons(r: Record, rs: seq<Record>)
    ensures ReadAll([r] + rs) ==
      match ReadRecord(r)
      case None => None
      case Some(e) => (match ReadAll(rs) case None => None case Some(tail) => Some([e] + tail))
  {
    assert ([r] + rs)[1..] == rs;
  }

  /** Every record of an annual schedule whose year has four digits and
      whose shifts are not named "Folga" or "-" reads back into the same
      entry, so the stored form loses nothing. */
  lemma AnnualRoundTrip(shifts: seq<string>, workDays: nat, restDays: nat, start: Date)
    requires ValidCadence(shifts, workDays, restDays)
    requires ValidDate(start) && FourDigitYear(start)
    requires forall k :: 0 <= k < |shifts| ==> !IsMarkerLabel(shifts[k])
    ensures var s := Schedule(shifts, workDays, restDays, ToDay(start), YearEnd(start));
      && (forall i :: 0 <= i < |s| ==> Renderable(s[i]))
      && ReadAll(RenderAll(s)) == Some(s)
  {
    var s := Schedule(shifts, workDays, restDays, ToDay(start), YearEnd(start));
    assert forall i :: 0 <= i < |s| ==> Renderable(s[i]) && Unambiguous(s[i]) by {
      ScheduleCoversYear(shifts, workDays, restDays, start);
      AssignmentsFromShifts(shifts, workDays, restDays, ToDay(start), YearEnd(start));
      forall i | 0 <= i < |s|
        ensures Renderable(s[i]) && Unambiguous(s[i])
      {
        assert s[i] in s;
        EntryRoundTrips(shifts, start.year, s[i]);
      }
    }
    RoundTripAll(s);
  }

  /** An entry of a four-digit year whose assignment is a rest day or one of
      shifts not named like a marker reads back as itself. */
  lemma EntryRoundTrips(shifts: seq<string>, year: int, e: Entry)
    requires 0 <= year <= 9999 && FromDay(e.day).year == year
    requires forall k :: 0 <= k < |shifts| ==> !IsMarkerLabel(shifts[k])
    requires e.assignment == Rest || (e.assignment.Work? && e.assignment.shift in shifts)
    ensures Renderable(e) && Unambiguous(e)
  {
    RenderableYears(e);
  }

  /** The record of the entry for a date carries that date's rendering. */
  lemma RenderDate(d: Date, a: Assignment)
    requires ValidDate(d) && FourDigitYear(d)
    ensures Renderable(Entry(ToDay(d), a))
    ensures Render(Entry(ToDay(d), a)) == Record(Format(d), Label(a))
  {
    FromToDay(d);
    RenderableYears(Entry(ToDay(d), a));
  }
}
