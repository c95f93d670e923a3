# Shift schedules: block rotation and week-anchored calendar

This project models the two shift schedulers of a small Portuguese-language
shift-calendar application and proves properties about them in Dafny.

- **Block rotation** (`teste.js`, `gerarEscalaAnual`). The scheduler starts
  at a start date and gives `DiasTrabalhados` consecutive days to the current
  shift. It then gives `Folgas` rest days ("Folga") and moves round-robin to
  the next shift. It stops after December 31st of the start date's year. Each
  day becomes a record `{ data: "YYYY-MM-DD", turno }`.
- **Week anchor** (`src/components/Calendarteste/index.tsx`,
  `getTurnoOuFolga`). Every Sunday is "Folga". Other days before the anchor
  are "-". The anchor is the Monday after the first Sunday on or after the
  base date 2025-01-01. From the anchor on, a day gets the shift indexed by
  the number of whole weeks since the anchor, modulo the number of shifts.
- **Month view** (same component). This covers month lengths, the weekday of
  the 1st, the "<" / ">" month navigation, and the grid of leading blanks
  followed by the day numbers under the header Dom..Sáb.

Dates are integer day numbers: day 0 is 0001-01-01 in the proleptic
Gregorian calendar. `Dates.FromDay` and `Dates.ToDay` are proved inverse.
The constants the code hard-codes are parameters of the model, and lemmas
pin down the shipped values. Those constants are:

- the shift lists `["Noite", "Tarde", "Manhã"]` and
  `["Noite", "Tarde", "Manhã", "Teste"]`;
- 6 work days and 1 rest day;
- the start 2025-01-06 and the base 2025-01-01.

Files:

- `wrappers.dfy`: `Option`.
- `dates.dfy`: the calendar, day numbers, and the JavaScript `Date`
  constructor's roll-over and two-digit-year rules.
- `iso_date.dfy`: `YYYY-MM-DD` rendering and parsing.
- `assignments.dfy`: shift / "Folga" / "-" labels.
- `block_rotation.dfy`: `gerarEscalaAnual`.
- `schedule_records.dfy`: the `{ data, turno }` records.
- `week_anchor.dfy`: `getTurnoOuFolga` and its helpers.
- `month_view.dfy`: month helpers, navigation and the grid.

Behaviour of the code that the model keeps:

- The generator loop has no iteration cap. The model needs a cadence of at
  least one day (`BlockRotation.ValidCadence`); with 0 work and 0 rest days
  the script never advances.
- Zero work days with at least one rest day yields all rest days
  (`BlockRotation.DegenerateCadences`).
- A start string that is not a date gives an Invalid Date, whose year and
  year end are invalid too, so the loop never runs and the script returns an
  empty list (`BlockRotation.GenerateAnnual` with `None`,
  `BlockRotation.GenerateAnnualFromText`).
- Under the week anchor 2025-01-12 is a Sunday, hence "Folga"; the first
  "Tarde" day is Monday 2025-01-13 (`WeekAnchor.ShippedFirstWeeks`).

`Assignments.FromLabel` and `ScheduleRecords.ReadRecord` (with
`ScheduleRecords.ReadAll`) read labels and records back. The code has no such
reader: they are the inverses the round-trip lemmas are stated with
(`Assignments.LabelRoundTrip`, `ScheduleRecords.RecordRoundTrip`,
`ScheduleRecords.AnnualRoundTrip`), and so they have no rows of their own.

## Model

| member | source | states |
|---|---|---|
| Dates.DaysInMonth | src/components/Calendarteste/index.tsx:7-9 | a month has 28 to 31 days, and February has 29 exactly in leap years |
| Dates.DaysInYear | teste.js:16-17 | a year's length is the sum of its twelve month lengths, 365 or 366, and 366 exactly in leap years |
| Dates.Weekday | src/components/Calendarteste/index.tsx:11-13 | `getDay` is in 0..6 (0 = Sunday) |
| Dates.WeekdayStep | src/components/Calendarteste/index.tsx:18-29 | stepping one day moves the weekday by one, modulo 7, and seven days return to the same weekday |
| Dates.YearStep | teste.js:16-17 | consecutive January 1sts are exactly the year's length apart |
| Dates.FromDay | teste.js:9 | every day number is a valid date whose day number is that number (the `getFullYear` and `getDate` of a date) |
| Dates.FromToDay | teste.js:8-9 | converting a valid date to its day number and back gives the same date |
| Dates.ToDayInjective | teste.js:22 | distinct valid dates have distinct day numbers |
| Dates.ToDayMonotone | teste.js:22 | a date earlier in (year, month, day) order has a smaller day number |
| Dates.ToDayOrder | teste.js:22 | comparing two valid dates (`dataAtual <= ultimoDiaAno`, `date < inicioCiclo`) is comparing their day numbers, in both directions, and equal dates are exactly equal day numbers |
| Dates.YearOfDay | teste.js:9 | a day belongs to year `y` exactly when it lies between January 1st of `y` and January 1st of `y + 1` |
| Dates.LastDayOfYear | teste.js:16-17 | December 31st is valid and is the day before the next January 1st |
| Dates.MakeDay | src/components/Calendarteste/index.tsx:8 | `new Date(y, monthIndex, day)` with an in-range day is that day of the month reached by rolling the month index over into years |
| IsoDate.Format | teste.js:12-14 | `formatarData` yields ten characters with `-` at positions 4 and 7 and decimal digits elsewhere |
| IsoDate.Parse | teste.js:4 | a string is accepted only when it spells a valid date with a four-digit year |
| IsoDate.ParseFormat | teste.js:12-14 | parsing a formatted date gives the date back |
| IsoDate.FormatParse | teste.js:12-14 | every accepted string is the rendering of the date it parses to |
| IsoDate.FormatInjective | teste.js:12-14 | different dates never share a rendering |
| IsoDate.DigitsRoundTrip | teste.js:13 | zero-padded decimal digits read back as the number written |
| IsoDate.ParseShippedStart | teste.js:4 | "2025-01-06" reads as 6 January 2025 |
| Assignments.LabelRoundTrip | teste.js:26-39 | a written label reads back as its assignment exactly when no shift is named "Folga" or "-" |
| Assignments.LabelInjective | teste.js:26-39 | when no shift is named "Folga" or "-", two assignments with the same written label are the same assignment |
| BlockRotation.YearEnd | teste.js:16-17 | the last generated day is December 31st of the start year, on or after the start |
| BlockRotation.RotationStep | teste.js:44 | advancing the shift index modulo the number of shifts after each block keeps it equal to the block count modulo that number |
| BlockRotation.BlockPosition | teste.js:24-41 | position `j` of block `k` is index `k * p + j`, whose block and offset are `k` and `j` |
| BlockRotation.TagInBlock | teste.js:24-41 | in block `k`, offsets below the work days belong to shift `k mod n` and the rest to "Folga" |
| BlockRotation.Rotate | teste.js:20-45 | the two inner loops, with their early breaks and the shift-index update, emit exactly one entry per day from the first to the last day, in the block pattern |
| BlockRotation.GenerateAnnual | teste.js:6-48 | `gerarEscalaAnual` emits nothing for an Invalid Date start, and otherwise the block pattern from the start date to December 31st, one entry per day, every entry in the start year |
| BlockRotation.GenerateAnnualFromText | teste.js:4-48 | from the start string: no entries when it is not a valid `YYYY-MM-DD` date; otherwise the block pattern from that date to December 31st of its year, beginning on that date and ending on December 31st |
| BlockRotation.ScheduleContiguous | teste.js:22-45 | entries are consecutive, strictly ascending days from the first to the last day |
| BlockRotation.ScheduleCoversYear | teste.js:16-22 | the annual schedule starts at the start date, ends on December 31st and stays inside the start year |
| BlockRotation.BlockShape | teste.js:24-41 | block `k` is `workDays` days of shift `k mod n` followed by `restDays` rest days, cut at the year end |
| BlockRotation.AssignmentsFromShifts | teste.js:26-39 | every entry is a rest day or a work day of one of the configured shifts |
| BlockRotation.DegenerateCadences | teste.js:24-41 | without rest days every entry is a work day; without work days every entry is a rest day |
| BlockRotation.ShippedSchedule | teste.js:1-4 | the shipped configuration yields 360 entries: Jan 6-11 Noite, Jan 12 rest, Jan 13-18 Tarde, Jan 19 rest, Jan 20-25 Manhã, and Dec 31 Noite |
| BlockRotation.YearEndTruncatesBlock | teste.js:25 | a block that would run past December 31st is cut there |
| BlockRotation.SourceYearEnd | teste.js:17 | the year end as written equals the corrected one exactly outside years 0..99; inside them it is December 31st of 1900 + year |
| BlockRotation.GenerateAnnualAsWritten | teste.js:6-48 | the script as written: nothing for an Invalid Date start, the corrected schedule outside years 0..99, and a run to the as-written year end inside them |
| BlockRotation.TwoDigitYearOverrun | teste.js:17 | a start on 0050-03-01 runs past the year end as written: entry 306 is 0051-01-01 and the last entry is 1950-12-31 |
| ScheduleRecords.RenderableYears | teste.js:13 | a day can be written as `YYYY-MM-DD` exactly when its year is 0..9999 |
| ScheduleRecords.Render | teste.js:26-39 | a pushed record has a well-formed date and the assignment's label as `turno` |
| ScheduleRecords.RenderAll | teste.js:26-39 | the records are one per entry, in order |
| ScheduleRecords.RecordRoundTrip | teste.js:26-39 | a record reads back as its entry exactly when no shift is named like a marker |
| ScheduleRecords.RoundTripAll | teste.js:26-39 | a whole sequence of such records reads back as the entries |
| ScheduleRecords.AnnualRoundTrip | teste.js:6-48 | every record of an annual schedule with a four-digit year and unambiguous shift names reads back into the schedule |
| ScheduleRecords.RenderDate | teste.js:27 | the record of a date carries that date's rendering |
| WeekAnchor.FirstSundayFrom | src/components/Calendarteste/index.tsx:16-22 | the result is a Sunday within six days on or after the date, and no earlier day in between is a Sunday |
| WeekAnchor.NextMondayFrom | src/components/Calendarteste/index.tsx:25-31 | the result is a Monday 1 to 7 days after the date, and no earlier day in between is a Monday |
| WeekAnchor.ScanToSunday | src/components/Calendarteste/index.tsx:16-22 | the day-by-day scan stops at the first Sunday on or after the date |
| WeekAnchor.ScanToMonday | src/components/Calendarteste/index.tsx:25-31 | the do-while scan stops at the first Monday strictly after the date |
| WeekAnchor.Anchor | src/components/Calendarteste/index.tsx:45-47 | the rotation starts on a Monday, the day after the first Sunday, within a week after the base |
| WeekAnchor.WeeksSince | src/components/Calendarteste/index.tsx:34-38 | the result is the floor of the week difference: `start + 7w <= d < start + 7(w+1)`, non-negative from the start on |
| WeekAnchor.ShiftOrRest | src/components/Calendarteste/index.tsx:40-59 | `getTurnoOuFolga` gives "Folga" exactly on Sundays, "-" exactly on other days before the anchor, and otherwise one of the configured shifts, on a day on or after the anchor |
| WeekAnchor.ShiftOrRestByScan | src/components/Calendarteste/index.tsx:40-59 | `getTurnoOuFolga`, anchored by the two scans, gives Sunday rest, "-" before the anchor, and otherwise the shift of the week count modulo the number of shifts |
| WeekAnchor.WeekShape | src/components/Calendarteste/index.tsx:54-58 | week `w` after the anchor is Monday to Saturday of shift `w mod n`, then a rest Sunday |
| WeekAnchor.NextWeekNextShift | src/components/Calendarteste/index.tsx:54-58 | the same weekday a week later gets the next shift, cyclically |
| WeekAnchor.ShippedAnchor | src/components/Calendarteste/index.tsx:45-47 | from 2025-01-01 the first Sunday is 2025-01-05 and the anchor is 2025-01-06 |
| WeekAnchor.ShippedBeforeAnchor | src/components/Calendarteste/index.tsx:40-52 | 2025-01-03 is "-" and 2025-01-05 is "Folga" |
| WeekAnchor.ShippedFirstWeeks | src/components/Calendarteste/index.tsx:40-59 | Jan 6-11 are Noite, Jan 12 is Folga, Jan 13 is Tarde, and Feb 3 is Noite again |
| MonthView.DayBeforeFirst | src/components/Calendarteste/index.tsx:8 | day 0 of the next month is the last day of the month |
| MonthView.MonthLength | src/components/Calendarteste/index.tsx:7-9 | `getDaysInMonth` is the calendar length of the month: 28 to 31, and February has 29 exactly in leap years |
| MonthView.FirstWeekday | src/components/Calendarteste/index.tsx:11-13 | `getFirstDayOfMonth` is the weekday of the 1st of the month, in 0..6 |
| MonthView.FirstWeekdayAdvances | src/components/Calendarteste/index.tsx:11-13 | the 1st of a month falls `getDaysInMonth` of the previous month weekdays after the previous 1st, modulo 7 |
| MonthView.MonthLengthAsWritten | src/components/Calendarteste/index.tsx:7-9 | as written, years 0..99 are measured as 1900..1999 |
| MonthView.FirstWeekdayAsWritten | src/components/Calendarteste/index.tsx:11-13 | as written, years 0..99 are placed as 1900..1999 |
| MonthView.TwoDigitYearMonths | src/components/Calendarteste/index.tsx:7-13 | February of year 0 has 29 days but 28 as written; 0000-01-01 is a Saturday but falls on Monday as written |
| MonthView.PrevMonth | src/components/Calendarteste/index.tsx:69-76 | "<" moves exactly one month back, keeps the month in 0..11, and changes the year only from January |
| MonthView.NextMonth | src/components/Calendarteste/index.tsx:78-85 | ">" moves exactly one month forward, keeps the month in 0..11, and changes the year only from December |
| MonthView.NextMonthFirstWeekday | src/components/Calendarteste/index.tsx:78-85 | after ">", the grid's first day sits in the column after the last day of the month that was shown |
| MonthView.MonthNumberInjective | src/components/Calendarteste/index.tsx:69-85 | a displayed month is determined by its running month count |
| MonthView.PrevNextInverse | src/components/Calendarteste/index.tsx:69-85 | "<" after ">" and ">" after "<" return to the same month |
| MonthView.BuildGrid | src/components/Calendarteste/index.tsx:87-94 | the grid is the given number of blanks followed by 1..days in order |
| MonthView.CalendarDays | src/components/Calendarteste/index.tsx:66-94 | the month's grid fits six rows of seven: blanks up to the weekday of the 1st, then cell `i` holds day `i - blanks + 1`, so every day appears once, in order, in the column of its weekday |
| MonthView.ColumnOfDay | src/components/Calendarteste/index.tsx:87-94 | day `d` sits `d - 1` cells after the 1st, in the column of its own weekday |

## Left out

- `src/components/Calendar/index.tsx`, the holiday-fetching calendar, is not part of this model: it does network I/O.
- The JSX rendering is not modelled: cell colours, titles, the month names, the today highlight and the week header. Nothing in it affects the schedule values.
- `console.log(escalaAnual)` is not modelled, because it is output only.
- The current clock (`new Date()` for the initial month and today's cell) is left out. The month on display is a parameter.
- Time zones are left out; the model uses timezone-naive calendar days. The script parses "2025-01-06" as UTC midnight, steps it with local-time `setDate`, compares it with `new Date(ano, 11, 31)` at local midnight and renders it in UTC. East of UTC the cursor sits after local midnight (01:00 at UTC+1), so December 31st is never emitted: 359 entries for the shipped start. West of UTC, without daylight saving, the rendered dates come out right for the shipped start, but a January 1st start falls in the previous local year, whose year end is already past, and nothing is emitted. Across a daylight-saving change the UTC rendering shifts by a day, so one date appears twice and another is missing.
- WeekAnchor.WeeksSince: assumes every day has 24 hours. The component divides a millisecond difference by one week, so across a daylight-saving change a day can land one week count lower at local midnight.
- IsoDate.Format: covers years 0..9999 only. `toISOString` writes other years in the six-digit `±YYYYYY` form, which the model does not render.
- The block-rotation methods take the cadence as `nat`, so negative work or rest counts are not modelled. An empty shift list is excluded as well. In the script it would push `turno: undefined` and compute an index modulo 0, and the shipped lists are never empty.
- A cadence of 0 work days and 0 rest days is excluded by `ValidCadence`. The script never advances past the start date on it and does not terminate.
- Date-string parsing leniency is not modelled, for example engine-dependent forms accepted by `new Date(string)`. Only the `YYYY-MM-DD` form the script writes and reads is modelled.
- BlockRotation.GenerateAnnualFromText: a start string outside the `YYYY-MM-DD` form, such as "2025/01/06", is taken as an Invalid Date and yields no entries, although an engine's `new Date(string)` may accept it, for the leniency reason above.

## Findings

| source | as written | input that shows it | evidently intended | confidence | as-written member | corrected member |
|---|---|---|---|---|---|---|
| teste.js:17 | `new Date(ano, 11, 31)` reads a year 0..99 as 1900 + year | a start date 0050-03-01: the loop runs on to 1950-12-31, emitting 0051-01-01 as entry 306 | stop at December 31st of the start year itself | high for the JavaScript constructor rule; not executed | BlockRotation.TwoDigitYearOverrun | BlockRotation.GenerateAnnual |
| src/components/Calendarteste/index.tsx:7-13 | `new Date(year, month + 1, 0)` and `new Date(year, month, 1)` read a year 0..99 as 1900 + year | year 0, February (month 1): reported 28 days, while 0 is a leap year with 29; 0000-01-01 is shown on Monday instead of Saturday | the length and first weekday of the displayed year | high for the JavaScript constructor rule; not executed | MonthView.TwoDigitYearMonths | MonthView.MonthLength |
