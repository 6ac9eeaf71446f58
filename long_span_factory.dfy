/** LongSpan.Factory: the two sanctioned ways to build a span from raw longs. */
module LongSpanFactory {
  import opened Int64
  import opened NumberUtils
  import opened Exceptions
  import opened LongSpanUtil
  import opened LongSpanImpl

  /** `fromEnd(start, end)`: straight to the validating constructor. */
  function FromEnd(c: OverflowChecker, start: Long, end: Long): (r: Result<Impl>)
    ensures r.Ok? ==> r.value.GetStart() == start && r.value.GetEnd() == end
    ensures r.Err? ==> r.error == IllegalArgument
    ensures end <= start - 2 ==> r.Err?
    ensures Correct(c) ==> (r.Ok? <==> start - 1 <= end && end - start <= MAX)
  {
    New(c, start, end)
  }

  /** `fromLength(start, length)`: a negative length is rejected first; then an
      end beyond the long range; then the span ends at start + (length - 1).
      For a correct checker it succeeds exactly when that end is a long, and
      the span then reads back the given start and length. */
  function FromLength(c: OverflowChecker, start: Long, length: Long): (r: Result<Impl>)
    ensures length < 0 ==> r == Err(IllegalArgument)
    ensures r.Err? ==> r.error == IllegalArgument
    ensures Correct(c) ==> (r.Ok? <==> 0 <= length && InRange(start + length - 1))
    ensures Correct(c) && r.Ok? ==>
      && r.value.GetStart() == start
      && r.value.GetEnd() == start + length - 1
      && r.value.GetLength() == length
      && r.value.Valid()
  {
    if length < 0 then Err(IllegalArgument)
    else if c.isOverflow(start, Sub(length, 1)) then Err(IllegalArgument)
    else New(c, start, Add(start, Sub(length, 1)))
  }

  /** `fromEnd` built on the corrected constructor: it rejects a span whose
      length does not fit in a long. */
  function FromEndChecked(c: OverflowChecker, start: Long, end: Long): (r: Result<Impl>)
    ensures r.Ok? ==> r.value.GetStart() == start && r.value.GetEnd() == end
    ensures r.Err? ==> r.error == IllegalArgument
    ensures Correct(c) ==> (r.Ok? <==> start - 1 <= end && end - start + 1 <= MAX)
    ensures Correct(c) && r.Ok? ==> r.value.GetLength() == end - start + 1 >= 0
  {
    NewChecked(c, start, end)
  }

  // ---------------------------------------------------------------------------
  // Round trips between the two factories

  /** Rebuilding a span from its start and length gives the same span back,
      whenever its length fits in a long. */
  lemma FromLengthOfLength(c: OverflowChecker, start: Long, end: Long)
    requires Correct(c) && FromEnd(c, start, end).Ok? && end - start < MAX
    ensures FromLength(c, start, FromEnd(c, start, end).value.GetLength()) == FromEnd(c, start, end)
  {
  }

  /** With the corrected constructor the round trip holds for every span it builds. */
  lemma FromLengthOfCheckedLength(c: OverflowChecker, start: Long, end: Long)
    requires Correct(c) && FromEndChecked(c, start, end).Ok?
    ensures FromLength(c, start, FromEndChecked(c, start, end).value.GetLength()) == FromEndChecked(c, start, end)
  {
  }

  /** Rebuilding a span from its start and end gives the same span back. */
  lemma FromEndOfEnd(c: OverflowChecker, start: Long, length: Long)
    requires Correct(c) && FromLength(c, start, length).Ok?
    ensures FromEnd(c, start, FromLength(c, start, length).value.GetEnd()) == FromLength(c, start, length)
  {
  }

  /** A span built from a length never reaches the full-width case, so the
      corrected constructor would build the same span. */
  lemma FromLengthIsChecked(c: OverflowChecker, start: Long, length: Long)
    requires Correct(c) && FromLength(c, start, length).Ok?
    ensures FromEndChecked(c, start, start + length - 1) == FromLength(c, start, length)
  {
  }

  // ---------------------------------------------------------------------------
  // Edge cases

  /** A zero-length span sits at start with end == start - 1; it exists for
      every start except Long.MIN_VALUE, whose start - 1 is not a long. */
  lemma ZeroLength(c: OverflowChecker, start: Long)
    requires Correct(c)
    ensures start > MIN ==> FromLength(c, start, 0) == Ok(Impl(start, start - 1)) == FromEnd(c, start, start - 1)
    ensures start == MIN ==> FromLength(c, start, 0) == Err(IllegalArgument)
  {
  }

  /** `fromLength(5, 0)` is the span [5, 4] of length 0, the same as `fromEnd(5, 4)`;
      `fromEnd(5, 3)` is rejected. */
  lemma ZeroLengthExamples(c: OverflowChecker)
    requires Correct(c)
    ensures FromLength(c, 5, 0) == Ok(Impl(5, 4)) == FromEnd(c, 5, 4)
    ensures FromLength(c, 5, 0).value.GetLength() == 0
    ensures FromLength(c, 5, 0).value.ToString().end == EmptyMarker
    ensures FromEnd(c, 5, 3) == Err(IllegalArgument)
  {
  }

  /** `fromLength(0, -1)` and `fromLength(Long.MAX_VALUE - 2, 10)` are rejected. */
  lemma RejectionExamples(c: OverflowChecker)
    requires Correct(c)
    ensures FromLength(c, 0, -1) == Err(IllegalArgument)
    ensures FromLength(c, MAX - 2, 10) == Err(IllegalArgument)
  {
  }

  /** The guard `checkStartAndLength` and `fromLength` disagree at both ends of
      the range: (Long.MIN_VALUE, 0) passes the guard, but its end wraps and
      `fromLength` rejects it; (Long.MAX_VALUE, 1) fails the guard, although
      `fromLength` builds the one-position span [Long.MAX_VALUE, Long.MAX_VALUE]. */
  lemma GuardAndFromLengthDisagree(c: OverflowChecker)
    requires Correct(c)
    ensures CheckStartAndLength(c, MIN, 0) == Pass && CalcEnd(MIN, 0) == MAX
    ensures FromLength(c, MIN, 0) == Err(IllegalArgument)
    ensures CheckStartAndLength(c, MAX, 1) == Fail(IllegalArgument)
    ensures FromLength(c, MAX, 1) == Ok(Impl(MAX, MAX))
  {
  }

  /** [3, 7] contains both of its ends and nothing beyond them; [0, 10] contains
      [2, 5] but not the reverse; [0, 5] does not overlap [6, 10] and [0, 6] does. */
  lemma PredicateExamples(c: OverflowChecker)
    requires Correct(c)
    ensures var s := FromEnd(c, 3, 7).value;
      s.Contains(3) && s.Contains(7) && !s.Contains(2) && !s.Contains(8)
    ensures var a, b := FromEnd(c, 0, 10).value, FromEnd(c, 2, 5).value;
      a.ContainsSpan(b.View()) && !b.ContainsSpan(a.View())
    ensures !FromEnd(c, 0, 5).value.Overlaps(FromEnd(c, 6, 10).value.View())
    ensures FromEnd(c, 0, 6).value.Overlaps(FromEnd(c, 6, 10).value.View())
  {
  }

  // ---------------------------------------------------------------------------
  // Finding: a span of 2^63 positions

  /** `fromEnd(0, Long.MAX_VALUE)` is accepted, since end - start fits in a long,
      but its length 2^63 does not: getLength() wraps to Long.MIN_VALUE and
      toString() shows the `-empty-` marker for a span that contains position 0. */
  lemma FullWidthSpanLengthWraps(c: OverflowChecker)
    requires Correct(c)
    ensures FromEnd(c, 0, MAX) == Ok(Impl(0, MAX))
    ensures FromEnd(c, 0, MAX).value.GetLength() == MIN
    ensures FromEnd(c, 0, MAX).value.ToString().end == EmptyMarker
    ensures FromEnd(c, 0, MAX).value.Contains(0)
    ensures FromLength(c, 0, FromEnd(c, 0, MAX).value.GetLength()) == Err(IllegalArgument)
    ensures FromEndChecked(c, 0, MAX) == Err(IllegalArgument)
  {
  }
}
