/** What a schedule says about one day, and the labels the code writes for it. */
module Assignments {

  /** A day's assignment: a named shift, the rest marker the code writes as
      "Folga", or "-" for days outside the rotation. */
  datatype Assignment = Work(shift: string) | Rest | Unassigned

  const RestLabel: string := "Folga"
  const UnassignedLabel: string := "-"

  /** A shift name that cannot be told apart from a marker once written out. */
  predicate IsMarkerLabel(name: string) {
    name == RestLabel || name == UnassignedLabel
  }

  /** The string the code stores or returns for an assignment. */
  function Label(a: Assignment): (s: string)
    ensures a.Work? ==> s == a.shift
    ensures a.Rest? ==> s == RestLabel
    ensures a.Unassigned? ==> s == UnassignedLabel
  {
    match a
    case Work(name) => name
    case Rest => RestLabel
    case Unassigned => UnassignedLabel
  }

  /** Reads a label back; marker strings read as markers. */
  function FromLabel(s: string): (a: Assignment)
    ensures Label(a) == s
  {
    if s == RestLabel then Rest
    else if s == UnassignedLabel then Unassigned
    else Work(s)
  }

  /** Labels read back as the assignment they came from, unless a shift is
      named like a marker. */
  lemma LabelRoundTrip(a: Assignment)
    ensures FromLabel(Label(a)) == a <==> !(a.Work? && IsMarkerLabel(a.shift))
  {
  }

  /** Distinct assignments get distinct labels, unless a shift is named like
      a marker: the written label determines the assignment. */
  lemma LabelInjective(a: Assignment, b: Assignment)
    requires !(a.Work? && IsMarkerLabel(a.shift))
    requires !(b.Work? && IsMarkerLabel(b.shift))
    requires Label(a) == Label(b)
    ensures a == b
  {
    LabelRoundTrip(a);
    LabelRoundTrip(b);
  }
}
