/** The block-rotation generator of `teste.js` (`gerarEscalaAnual`).

    Starting at a start date, the generator gives `workDays` consecutive days
    to the current shift, then `restDays` days to rest ("Folga"), then moves
    round-robin to the next shift, and stops after December 31st of the start
    date's year.  The constants the script hard-codes (three shifts, 6 work
    days, 1 rest day, start 2025-01-06) are parameters here.

    `Schedule` is the closed form of the output: entry `i` is day
    `start + i`, and it is a work day of shift number `(i / p) % n` when
    `i % p < workDays` (with `p = workDays + restDays` and `n` shifts), a rest
    day otherwise.  `Rotate` is the loop of the script, proved to produce
    exactly that closed form.
 */
module BlockRotation {
  import opened Wrappers
  import opened Dates
  import opened IsoDate
  import opened Assignments

  /** One line of the schedule: a day and what it is assigned. */
  datatype Entry = Entry(day: Day, assignment: Assignment)

  /** The cadence the generator needs: at least one shift, and a block of
      at least one day (with an empty block the script never advances). */
  predicate ValidCadence(shifts: seq<string>, workDays: nat, restDays: nat) {
    |shifts| > 0 && workDays + restDays >= 1
  }

  /** The assignment of the `i`-th generated day. */
  function TagAt(shifts: seq<string>, workDays: nat, restDays: nat, i: nat): Assignment
    requires ValidCadence(shifts, workDays, restDays)
  {
    var p := workDays + restDays;
    if i % p < workDays then Work(shifts[(i / p) % |shifts|]) else Rest
  }

  /** Number of days from `first` to `last` inclusive (none if `first` is later). */
  function SpanLength(first: Day, last: Day): nat {
    if first <= last then last - first + 1 else 0
  }

  /** The closed form of the generator's output between `first` and `last`. */
  function Schedule(shifts: seq<string>, workDays: nat, restDays: nat, first: Day, last: Day): seq<Entry>
    requires ValidCadence(shifts, workDays, restDays)
  {
    seq(SpanLength(first, last), i requires 0 <= i => Entry(first + i, TagAt(shifts, workDays, restDays, i)))
  }

  /** December 31st of the start date's year: the last day generated. */
  function YearEnd(start: Date): (e: Day)
    requires ValidDate(start)
    ensures ToDay(start) <= e
    ensures e + 1 == DaysBeforeYear(start.year + 1)
  {
    LastDayOfYear(start.year);
    DayInsideYear(start);
    ToDay(Date(start.year, 12, 31))
  }

  // ---------------------------------------------------------------------
  // Block arithmetic

  /** Position `j` of block `k` is index `k * p + j`, and back. */
  lemma BlockPosition(k: nat, p: nat, j: nat)
    requires 0 <= j < p
    ensures (k * p + j) / p == k
    ensures (k * p + j) % p == j
  {
    var i := k * p + j;
    var q, r := i / p, i % p;
    assert i == q * p + r && 0 <= r < p;
    if k > q {
      assert (k - q) * p == k * p - q * p;
      MulAtLeast(k - q, p);
    } else if k < q {
      assert (q - k) * p == q * p - k * p;
      MulAtLeast(q - k, p);
    }
  }

  /** A positive multiple of `p` is at least `p`. */
  lemma {:induction false} MulAtLeast(a: nat, p: nat)
    requires a >= 1
    ensures a * p >= p
  {
    if a > 1 {
      MulAtLeast(a - 1, p);
      assert a * p == (a - 1) * p + p;
    }
  }

  /** Advancing the rotation index by one modulo `n` follows the block count. */
  lemma RotationStep(b: nat, n: nat)
    requires n > 0
    ensures (b % n + 1) % n == (b + 1) % n
  {
    var q, r := b / n, b % n;
    assert b == q * n + r;
    if r + 1 < n {
      BlockPosition(q, n, r + 1);
      assert b + 1 == q * n + (r + 1);
    } else {
      BlockPosition(q + 1, n, 0);
      assert b + 1 == (q + 1) * n + 0;
    }
  }

  /** The closed-form tag at position `j` of block `k`. */
  lemma TagInBlock(shifts: seq<string>, workDays: nat, restDays: nat, k: nat, j: nat)
    requires ValidCadence(shifts, workDays, restDays)
    requires j < workDays + restDays
    ensures TagAt(shifts, workDays, restDays, k * (workDays + restDays) + j)
         == if j < workDays then Work(shifts[k % |shifts|]) else Rest
  {
    BlockPosition(k, workDays + restDays, j);
  }

  // ---------------------------------------------------------------------
  // The generator loop

  /** The loop of `gerarEscalaAnual`, generating the days `first..last`:
      each outer round emits up to `workDays` entries of the current shift
      and up to `restDays` rest entries, cut short at `last`, then moves the
      shift index on by one modulo the number of shifts. */
  method Rotate(shifts: seq<string>, workDays: nat, restDays: nat, first: Day, last: Day)
    returns (schedule: seq<Entry>)
    requires ValidCadence(shifts, workDays, restDays)
    ensures schedule == Schedule(shifts, workDays, restDays, first, last)
  {
    var p := workDays + restDays;
    schedule := [];
    var cursor := first;
    var index := 0;
    ghost var blocks: nat := 0;
    ghost var done: nat := 0;
    while cursor <= last
      invariant cursor == first + |schedule|
      invariant |schedule| <= SpanLength(first, last)
      invariant 0 <= index < |shifts| && index == blocks % |shifts|
      invariant done == blocks * p
      invariant cursor <= last ==> |schedule| == done
      invariant forall i :: 0 <= i < |schedule| ==>
                  schedule[i] == Entry(first + i, TagAt(shifts, workDays, restDays, i))
      decreases last + 1 - cursor
    {
      var i := 0;
      while i < workDays
        invariant 0 <= i <= workDays
        invariant cursor == first + |schedule|
        invariant |schedule| <= SpanLength(first, last)
        invariant cursor <= last ==> |schedule| == done + i
        invariant forall t :: 0 <= t < |schedule| ==>
                    schedule[t] == Entry(first + t, TagAt(shifts, workDays, restDays, t))
      {
        if cursor > last {
          break;
        }
        TagInBlock(shifts, workDays, restDays, blocks, i);
        schedule := schedule + [Entry(cursor, Work(shifts[index]))];
        cursor := cursor + 1;
        i := i + 1;
      }
      var j := 0;
      while j < restDays
        invariant 0 <= j <= restDays
        invariant cursor == first + |schedule|
        invariant |schedule| <= SpanLength(first, last)
        invariant cursor <= last ==> |schedule| == done + workDays + j
        invariant forall t :: 0 <= t < |schedule| ==>
                    schedule[t] == Entry(first + t, TagAt(shifts, workDays, restDays, t))
      {
        if cursor > last {
          break;
        }
        TagInBlock(shifts, workDays, restDays, blocks, workDays + j);
        schedule := schedule + [Entry(cursor, Rest)];
        cursor := cursor + 1;
        j := j + 1;
      }
      RotationStep(blocks, |shifts|);
      index := (index + 1) % |shifts|;
      assert (blocks + 1) * p == blocks * p + p;
      blocks := blocks + 1;
      done := done + p;
    }
  }

  /** `gerarEscalaAnual`: the schedule from `start` to December 31st of its
      year.  `start` is `Datainicio`, or None when it is an Invalid Date: then
      the year and the year end are invalid as well, the loop condition is
      false at once and the script returns an empty list. */
  method GenerateAnnual(shifts: seq<string>, workDays: nat, restDays: nat, start: Option<Date>)
    returns (schedule: seq<Entry>)
    requires ValidCadence(shifts, workDays, restDays)
    requires start.Some? ==> ValidDate(start.value)
    ensures start.None? ==> schedule == []
    ensures start.Some? ==>
      schedule == Schedule(shifts, workDays, restDays, ToDay(start.value), YearEnd(start.value))
    ensures start.Some? ==> |schedule| == YearEnd(start.value) - ToDay(start.value) + 1
    ensures start.Some? ==>
      forall i :: 0 <= i < |schedule| ==> FromDay(schedule[i].day).year == start.value.year
  {
    if start.None? {
      return [];
    }
    schedule := Rotate(shifts, workDays, restDays, ToDay(start.value), YearEnd(start.value));
    ScheduleCoversYear(shifts, workDays, restDays, start.value);
  }

  /** The script from its start string: `new Date(text)` read as a
      `YYYY-MM-DD` date.  A string that is not a valid `YYYY-MM-DD` date
      yields no entries; one that is yields the block pattern from that date
      to December 31st of its year. */
  method GenerateAnnualFromText(shifts: seq<string>, workDays: nat, restDays: nat, text: string)
    returns (schedule: seq<Entry>)
    requires ValidCadence(shifts, workDays, restDays)
    ensures Parse(text).None? ==> schedule == []
    ensures Parse(text).Some? ==>
      && |schedule| > 0
      && FromDay(schedule[0].day) == Parse(text).value
      && FromDay(schedule[|schedule| - 1].day) == Date(Parse(text).value.year, 12, 31)
    ensures Parse(text).Some? ==>
      schedule == Schedule(shifts, workDays, restDays, ToDay(Parse(text).value), YearEnd(Parse(text).value))
  {
    var start := Parse(text);
    schedule := GenerateAnnual(shifts, workDays, restDays, start);
    if start.Some? {
      ScheduleCoversYear(shifts, workDays, restDays, start.value);
    }
  }

  // ---------------------------------------------------------------------
  // Properties of the closed form

  /** The schedule is a contiguous, strictly ascending run of days from
      `first` to `last`, one entry per day:
      entry `i` is day `first + i`. */
  lemma ScheduleContiguous(shifts: seq<string>, workDays: nat, restDays: nat, first: Day, last: Day)
    requires ValidCadence(shifts, workDays, restDays)
    ensures var s := Schedule(shifts, workDays, restDays, first, last);
      && (first <= last ==> |s| > 0 && s[0].day == first && s[|s| - 1].day == last)
      && (forall i :: 0 <= i < |s| ==> first <= s[i].day <= last)
      && (forall i, j :: 0 <= i < j < |s| ==> s[i].day < s[j].day)
      && (forall i :: 0 <= i < |s| ==> s[i].day == first + i)
  {
  }

  /** The annual schedule runs from the start date to December 31st of the
      same year, and every entry is a day of that year. */
  lemma ScheduleCoversYear(shifts: seq<string>, workDays: nat, restDays: nat, start: Date)
    requires ValidCadence(shifts, workDays, restDays)
    requires ValidDate(start)
    ensures var s := Schedule(shifts, workDays, restDays, ToDay(start), YearEnd(start));
      && |s| == YearEnd(start) - ToDay(start) + 1
      && FromDay(s[0].day) == start
      && FromDay(s[|s| - 1].day) == Date(start.year, 12, 31)
      && (forall i :: 0 <= i < |s| ==> FromDay(s[i].day).year == start.year)
  {
    var first, last := ToDay(start), YearEnd(start);
    var s := Schedule(shifts, workDays, restDays, first, last);
    assert |s| == last - first + 1;
    assert FromDay(s[0].day) == start by {
      assert s[0].day == first;
      FromToDay(start);
    }
    assert FromDay(s[|s| - 1].day) == Date(start.year, 12, 31) by {
      assert s[|s| - 1].day == last;
      LastDayOfYear(start.year);
      FromToDay(Date(start.year, 12, 31));
    }
    forall i | 0 <= i < |s|
      ensures FromDay(s[i].day).year == start.year
    {
      InStartYear(start, s[i].day);
    }
  }

  /** Every day from the start to the year end lies in the start year. */
  lemma InStartYear(start: Date, n: Day)
    requires ValidDate(start) && ToDay(start) <= n <= YearEnd(start)
    ensures FromDay(n).year == start.year
  {
    YearOfDay(n, start.year);
    DayInsideYear(start);
  }

  /** Block `k` of the schedule is `workDays` work days of shift
      `k mod n` followed by `restDays` rest days; a block that runs past
      the last day keeps its pattern up to that day. */
  lemma BlockShape(shifts: seq<string>, workDays: nat, restDays: nat, first: Day, last: Day, k: nat, j: nat)
    requires ValidCadence(shifts, workDays, restDays)
    requires j < workDays + restDays
    requires k * (workDays + restDays) + j < SpanLength(first, last)
    ensures var e := Schedule(shifts, workDays, restDays, first, last)[k * (workDays + restDays) + j];
      && e.day == first + k * (workDays + restDays) + j
      && e.assignment == if j < workDays then Work(shifts[k % |shifts|]) else Rest
  {
    var i := k * (workDays + restDays) + j;
    var s := Schedule(shifts, workDays, restDays, first, last);
    assert s[i] == Entry(first + i, TagAt(shifts, workDays, restDays, i));
    TagInBlock(shifts, workDays, restDays, k, j);
  }

  /** Every entry is either a rest day or a work day of one of the shifts;
      no day is left unassigned. */
  lemma AssignmentsFromShifts(shifts: seq<string>, workDays: nat, restDays: nat, first: Day, last: Day)
    requires ValidCadence(shifts, workDays, restDays)
    ensures forall e :: e in Schedule(shifts, workDays, restDays, first, last) ==>
              e.assignment == Rest || (e.assignment.Work? && e.assignment.shift in shifts)
  {
  }

  /** Without rest days every day is worked; without work days every day is a
      rest day. */
  lemma DegenerateCadences(shifts: seq<string>, workDays: nat, restDays: nat, first: Day, last: Day)
    requires ValidCadence(shifts, workDays, restDays)
    ensures restDays == 0 ==>
      forall e :: e in Schedule(shifts, workDays, restDays, first, last) ==> e.assignment.Work?
    ensures workDays == 0 ==>
      forall e :: e in Schedule(shifts, workDays, restDays, first, last) ==> e.assignment == Rest
  {
    var s := Schedule(shifts, workDays, restDays, first, last);
    if restDays == 0 {
      forall e | e in s
        ensures e.assignment.Work?
      {
        var i :| 0 <= i < |s| && s[i] == e;
        assert i % workDays < workDays;
      }
    }
  }

  // ---------------------------------------------------------------------
  // The shipped configuration

  const ShippedShifts: seq<string> := ["Noite", "Tarde", "Manhã"]
  const ShippedWorkDays: nat := 6
  const ShippedRestDays: nat := 1
  const ShippedStart: Date := Date(2025, 1, 6)

  /** With three shifts, six work days and one rest day from 2025-01-06:
      Jan 6-11 are Noite, Jan 12 rest, Jan 13-18 Tarde, Jan 19 rest,
      Jan 20-25 Manhã, and the 360 entries end on Dec 31, a Noite day. */
  lemma ShippedSchedule()
    ensures var s := Schedule(ShippedShifts, ShippedWorkDays, ShippedRestDays,
                              ToDay(ShippedStart), YearEnd(ShippedStart));
      && |s| == 360
      && s[0].day == ToDay(Date(2025, 1, 6))
      && (forall i :: 0 <= i < 6 ==> s[i].assignment == Work("Noite"))
      && s[6] == Entry(ToDay(Date(2025, 1, 12)), Rest)
      && (forall i :: 7 <= i < 13 ==> s[i].assignment == Work("Tarde"))
      && s[13] == Entry(ToDay(Date(2025, 1, 19)), Rest)
      && (forall i :: 14 <= i < 20 ==> s[i].assignment == Work("Manhã"))
      && s[19].day == ToDay(Date(2025, 1, 25))
      && s[359] == Entry(ToDay(Date(2025, 12, 31)), Work("Noite"))
  {
    var first, last := ToDay(ShippedStart), YearEnd(ShippedStart);
    assert first == 739256;
    assert last == 739615;
    var s := Schedule(ShippedShifts, ShippedWorkDays, ShippedRestDays, first, last);
    assert s[359].assignment == TagAt(ShippedShifts, 6, 1, 359);
    TagInBlock(ShippedShifts, 6, 1, 51, 2);
  }

  /** A start on 2025-12-28 with six work days yields just four entries, all
      work days of the first shift: the block is cut at December 31st. */
  lemma YearEndTruncatesBlock()
    ensures var start := Date(2025, 12, 28);
      var s := Schedule(ShippedShifts, 6, 2, ToDay(start), YearEnd(start));
      && |s| == 4
      && (forall i :: 0 <= i < 4 ==> s[i].assignment == Work("Noite"))
  {
    var start := Date(2025, 12, 28);
    assert ToDay(start) == 739612;
    assert YearEnd(start) == 739615;
  }

  // ---------------------------------------------------------------------
  // The year end as the script computes it

  /** `new Date(ano, 11, 31)`: the JavaScript `Date` constructor reads a year
      in 0..99 as 1900 + year. */
  function SourceYearEnd(start: Date): (e: Day)
    requires ValidDate(start)
    ensures !(0 <= start.year <= 99) ==> e == YearEnd(start)
    ensures 0 <= start.year <= 99 ==> e == ToDay(Date(1900 + start.year, 12, 31))
    ensures e == YearEnd(start) <==> !(0 <= start.year <= 99)
  {
    LastDayOfYear(start.year);
    LastDayOfYear(1900 + start.year);
    ToDayMonotone(Date(start.year, 12, 31), Date(1900 + start.year, 12, 31));
    MakeDay(ConstructorYear(start.year), 11, 31)
  }

  /** `gerarEscalaAnual` with the year end exactly as the script computes it;
      an Invalid Date start yields no entries, as in `GenerateAnnual`. */
  method GenerateAnnualAsWritten(shifts: seq<string>, workDays: nat, restDays: nat, start: Option<Date>)
    returns (schedule: seq<Entry>)
    requires ValidCadence(shifts, workDays, restDays)
    requires start.Some? ==> ValidDate(start.value)
    ensures start.None? ==> schedule == []
    ensures start.Some? ==>
      schedule == Schedule(shifts, workDays, restDays, ToDay(start.value), SourceYearEnd(start.value))
    ensures start.Some? && !(0 <= start.value.year <= 99) ==>
      schedule == Schedule(shifts, workDays, restDays, ToDay(start.value), YearEnd(start.value))
  {
    if start.None? {
      return [];
    }
    schedule := Rotate(shifts, workDays, restDays, ToDay(start.value), SourceYearEnd(start.value));
  }

  /** A start date in year 50 runs on to 1950-12-31 as written, past the end
      of year 50 where the corrected generator stops: entry 306 is already
      0051-01-01. */
  lemma TwoDigitYearOverrun()
    ensures var start := Date(50, 3, 1);
      var asWritten := Schedule(ShippedShifts, 6, 1, ToDay(start), SourceYearEnd(start));
      var corrected := Schedule(ShippedShifts, 6, 1, ToDay(start), YearEnd(start));
      && |corrected| == 306
      && |asWritten| > |corrected|
      && asWritten[306].day == ToDay(Date(51, 1, 1))
      && asWritten[|asWritten| - 1].day == ToDay(Date(1950, 12, 31))
  {
    var start := Date(50, 3, 1);
    assert ToDay(start) == 17956;
    assert YearEnd(start) == 18261;
    assert SourceYearEnd(start) == ToDay(Date(1950, 12, 31)) == 712221;
    assert ToDay(Date(51, 1, 1)) == 18262;
  }
}
