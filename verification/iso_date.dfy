/** The `YYYY-MM-DD` interchange form of a calendar date: the full-date form
    of section 5.6 of RFC 3339, as JavaScript's `toISOString().split('T')[0]`
    writes it and as `new Date("YYYY-MM-DD")` reads it. */
module IsoDate {
  import opened Wrappers
  import opened Dates

  predicate IsDigit(c: char) {
    '0' <= c <= '9'
  }

  function DigitChar(v: int): (c: char)
    requires 0 <= v <= 9
    ensures IsDigit(c)
  {
    ('0' as int + v) as char
  }

  function DigitValue(c: char): (v: int)
    requires IsDigit(c)
    ensures 0 <= v <= 9
    ensures DigitChar(v) == c
  {
    c as int - '0' as int
  }

  /** `v` written with exactly `width` decimal digits, most significant first,
      padded with leading zeros. */
  function Digits(v: nat, width: nat): (s: string)
    requires v < Pow10(width)
    ensures |s| == width
    ensures forall i :: 0 <= i < |s| ==> IsDigit(s[i])
  {
    if width == 0 then [] else Digits(v / 10, width - 1) + [DigitChar(v % 10)]
  }

  function Pow10(n: nat): (p: nat)
    ensures p >= 1
  {
    if n == 0 then 1 else 10 * Pow10(n - 1)
  }

  /** The number a string of decimal digits denotes. */
  function DigitsValue(s: string): (v: nat)
    requires forall i :: 0 <= i < |s| ==> IsDigit(s[i])
    ensures v < Pow10(|s|)
  {
    if s == [] then 0 else 10 * DigitsValue(s[..|s| - 1]) + DigitValue(s[|s| - 1])
  }

  /** Reading back a zero-padded numeral gives the number that was written. */
  lemma {:induction false} DigitsRoundTrip(v: nat, width: nat)
    requires v < Pow10(width)
    ensures DigitsValue(Digits(v, width)) == v
  {
    if width > 0 {
      var s := Digits(v, width);
      assert s[..|s| - 1] == Digits(v / 10, width - 1);
      DigitsRoundTrip(v / 10, width - 1);
    }
  }

  /** Writing the value of a digit string gives the same string back. */
  lemma {:induction false} ValueRoundTrip(s: string)
    requires forall i :: 0 <= i < |s| ==> IsDigit(s[i])
    ensures Digits(DigitsValue(s), |s|) == s
  {
    if s != [] {
      var init := s[..|s| - 1];
      ValueRoundTrip(init);
      var v := DigitsValue(s);
      assert v / 10 == DigitsValue(init);
      assert v % 10 == DigitValue(s[|s| - 1]);
      assert s == init + [s[|s| - 1]];
    }
  }

  /** Years that the four-digit form can hold. */
  predicate FourDigitYear(d: Date) {
    0 <= d.year <= 9999
  }

  /** The `YYYY-MM-DD` rendering of a date (`formatarData`). */
  function Format(d: Date): (s: string)
    requires ValidDate(d) && FourDigitYear(d)
    ensures |s| == 10
    ensures s[4] == '-' && s[7] == '-'
    ensures forall i :: 0 <= i < 10 && i != 4 && i != 7 ==> IsDigit(s[i])
  {
    Digits(d.year, 4) + "-" + Digits(d.month, 2) + "-" + Digits(d.day, 2)
  }

  /** Whether `s` has the shape `DDDD-DD-DD` with decimal digits `D`. */
  predicate WellShaped(s: string) {
    && |s| == 10
    && s[4] == '-' && s[7] == '-'
    && (forall i :: 0 <= i < 10 && i != 4 && i != 7 ==> IsDigit(s[i]))
  }

  /** Reads a `YYYY-MM-DD` string; None when it is not of that shape or does
      not name a day of the calendar. */
  function Parse(s: string): (r: Option<Date>)
    ensures r.Some? ==> ValidDate(r.value) && FourDigitYear(r.value)
  {
    if !WellShaped(s) then None
    else
      var d := Date(DigitsValue(s[0..4]), DigitsValue(s[5..7]), DigitsValue(s[8..10]));
      if ValidDate(d) then Some(d) else None
  }

  /** Parsing a formatted date recovers the date. */
  lemma ParseFormat(d: Date)
    requires ValidDate(d) && FourDigitYear(d)
    ensures Parse(Format(d)) == Some(d)
  {
    var s := Format(d);
    assert s[0..4] == Digits(d.year, 4);
    assert s[5..7] == Digits(d.month, 2);
    assert s[8..10] == Digits(d.day, 2);
    DigitsRoundTrip(d.year, 4);
    DigitsRoundTrip(d.month, 2);
    DigitsRoundTrip(d.day, 2);
  }

  /** A string is accepted exactly when it is the rendering of some date, and
      then it is the rendering of the date it parses to. */
  lemma FormatParse(s: string)
    ensures Parse(s).Some? ==> Format(Parse(s).value) == s
  {
    if Parse(s).Some? {
      ValueRoundTrip(s[0..4]);
      ValueRoundTrip(s[5..7]);
      ValueRoundTrip(s[8..10]);
      assert s == s[0..4] + "-" + s[5..7] + "-" + s[8..10];
    }
  }

  /** Formatting is injective: different dates never share a rendering. */
  lemma FormatInjective(a: Date, b: Date)
    requires ValidDate(a) && FourDigitYear(a)
    requires ValidDate(b) && FourDigitYear(b)
    requires Format(a) == Format(b)
    ensures a == b
  {
    ParseFormat(a);
    ParseFormat(b);
  }

  /** The shipped start date, 2025-01-06, reads as that day. */
  lemma ParseShippedStart()
    ensures Parse("2025-01-06") == Some(Date(2025, 1, 6))
  {
    ParseFormat(Date(2025, 1, 6));
    assert Format(Date(2025, 1, 6)) == "2025-01-06";
  }
}
