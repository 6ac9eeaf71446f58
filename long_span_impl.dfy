/** LongSpan.Impl: the immutable span value that stores a start and an end
    position. Its length is derived on every read; its other queries apply
    the Util helpers to what its getters report. */
module LongSpanImpl {
  import opened Int64
  import opened NumberUtils
  import opened Exceptions
  import opened LongSpanUtil

  datatype Impl = Impl(start: Long, end: Long) {

    /** What the validating constructor establishes for a correct checker: the
        end lies at most one below the start, and end - start fits in a long. */
    ghost predicate Valid() {
      start - 1 <= end && end - start <= MAX
    }

    function GetStart(): Long {
      start
    }

    function GetEnd(): Long {
      end
    }

    /** `calcLength(this)`. It is the true length whenever that fits in a long;
        for a valid span it then is never negative. When end - start is exactly
        Long.MAX_VALUE the true length does not fit and wraps to Long.MIN_VALUE. */
    function GetLength(): (r: Long)
      ensures r == Wrap(end - start + 1)
      ensures Valid() && end - start < MAX ==> r == end - start + 1 && r >= 0
      ensures end - start == MAX ==> r == MIN
    {
      CalcLength(start, end)
    }

    /** This span as another span's getters see it. */
    function View(): LongSpan {
      LongSpan(start, GetLength(), end)
    }

    function ToString(): (r: Rendering)
      ensures r.start == start
      ensures Valid() && end - start < MAX ==> (r.end == EmptyMarker <==> end < start)
      ensures r.end.EndPosition? ==> r.end.position == end
    {
      LongSpanUtil.ToString(View())
    }

    function Overlaps(other: LongSpan): (r: bool)
      ensures r <==> other.start <= end && start <= other.end
    {
      LongSpanUtil.Overlaps(View(), other)
    }

    function Contains(pos: Long): (r: bool)
      ensures r <==> start <= pos <= end
    {
      LongSpanUtil.Contains(View(), pos)
    }

    function ContainsSpan(other: LongSpan): (r: bool)
      ensures r <==> start <= other.start && other.end <= end
    {
      LongSpanUtil.ContainsSpan(View(), other)
    }
  }

  /** The constructor `Impl(start, end)`. It throws when the end lies more than
      one below the start, or when the checker reports that end - start
      overflows; otherwise it stores exactly the two given values. */
  function New(c: OverflowChecker, start: Long, end: Long): (r: Result<Impl>)
    ensures r.Ok? ==> r.value.GetStart() == start && r.value.GetEnd() == end
    ensures r.Err? ==> r.error == IllegalArgument
    ensures end <= start - 2 ==> r.Err?
    ensures Correct(c) ==> (r.Ok? <==> start - 1 <= end && end - start <= MAX)
    ensures Correct(c) && r.Ok? ==> r.value.Valid()
  {
    if end < start && Add(end, 1) != start then Err(IllegalArgument)
    else if c.isUnderflow(end, start) then Err(IllegalArgument)
    else Ok(Impl(start, end))
  }

  /** A constructed span of at least one position, for a correct checker, has
      length end - start + 1 unless it spans all of end - start == Long.MAX_VALUE. */
  lemma ConstructedLength(c: OverflowChecker, start: Long, end: Long)
    requires Correct(c) && New(c, start, end).Ok?
    ensures end - start < MAX ==> New(c, start, end).value.GetLength() == end - start + 1 >= 0
    ensures end - start < MAX ==> |Positions(New(c, start, end).value.View())| == New(c, start, end).value.GetLength()
  {
    PositionsCount(New(c, start, end).value.View());
  }

  /** The constructor as evidently intended: it also rejects a span whose
      length end - start + 1 does not fit in a long, so that the length read
      back is always the true, non-negative length. */
  function NewChecked(c: OverflowChecker, start: Long, end: Long): (r: Result<Impl>)
    ensures r.Ok? ==> r.value.GetStart() == start && r.value.GetEnd() == end
    ensures r.Err? ==> r.error == IllegalArgument
    ensures Correct(c) ==> (r.Ok? <==> start - 1 <= end && end - start + 1 <= MAX)
    ensures Correct(c) && r.Ok? ==> r.value.Valid() && r.value.GetLength() == end - start + 1 >= 0
  {
    match New(c, start, end)
    case Err(e) => Err(e)
    case Ok(span) => if c.isOverflow(Sub(end, start), 1) then Err(IllegalArgument) else Ok(span)
  }

  /** The extra check changes nothing for spans whose length fits. */
  lemma NewCheckedAgrees(c: OverflowChecker, start: Long, end: Long)
    requires Correct(c) && end - start < MAX
    ensures NewChecked(c, start, end) == New(c, start, end)
  {
  }
}
