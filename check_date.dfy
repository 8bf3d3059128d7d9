/** CheckDateValidator: the class-level check that a booking's start lies
    strictly before its end. Times are instants on one clock, written as
    integers. */
module CheckDate {
  import opened Common

  /** isValid: a missing start or end is rejected, and so is a start equal to
      the end; otherwise the pair is valid when start is before end. */
  function IsValid(start: Option<int>, end: Option<int>): (r: bool)
    ensures start.None? || end.None? ==> !r
    ensures r <==> start.Some? && end.Some? && start.value < end.value
  {
    if start.None? || end.None? || start.value == end.value then false
    else start.value < end.value
  }

  /** A window and its reversal are never both valid, and exactly one is when
      the two times differ. */
  lemma ReversedWindow(s: int, e: int)
    ensures !(IsValid(Some(s), Some(e)) && IsValid(Some(e), Some(s)))
    ensures s != e ==> IsValid(Some(s), Some(e)) || IsValid(Some(e), Some(s))
  {
  }
}
