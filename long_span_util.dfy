/** The helpers of LongSpan.Util, written against any span implementation:
    they see a span only through the values its getters report and rely on no
    relation between those values. */
module LongSpanUtil {
  import opened Int64
  import opened NumberUtils
  import opened Exceptions

  /** What an arbitrary `LongSpan` reports through getStart, getLength and getEnd. */
  datatype LongSpan = LongSpan(start: Long, length: Long, end: Long)

  /** The rendered end field of `toString`: the end position, or the marker
      `-empty-` written in place of the end of a span of length zero or less. */
  datatype EndText = EndPosition(position: Long) | EmptyMarker

  /** `toString` without the class name and the formatting: the start and the end field. */
  datatype Rendering = Rendering(start: Long, end: EndText)

  /** The positions a span covers, by the meaning of `contains(pos)`. */
  ghost function Positions(span: LongSpan): set<int> {
    set p: int | MIN <= p <= MAX && Contains(span, p)
  }

  predicate Overlaps(one: LongSpan, other: LongSpan) {
    if one.end < other.start || one.start > other.end then false else true
  }

  predicate Contains(one: LongSpan, pos: Long) {
    one.start <= pos && one.end >= pos
  }

  predicate ContainsSpan(one: LongSpan, other: LongSpan) {
    one.start <= other.start && one.end >= other.end
  }

  /** `start + length - 1` in Java arithmetic, given the start and length getters' values:
      the two wrapping steps amount to one wrap of the exact end. */
  function CalcEnd(start: Long, length: Long): (r: Long)
    ensures r == Wrap(start + length - 1)
    ensures InRange(start + length - 1) ==> r == start + length - 1
  {
    Sub(Add(start, length), 1)
  }

  /** `end - start + 1` in Java arithmetic, given the end and start getters' values. */
  function CalcLength(start: Long, end: Long): (r: Long)
    ensures r == Wrap(end - start + 1)
    ensures InRange(end - start + 1) ==> r == end - start + 1
  {
    Add(Sub(end, start), 1)
  }

  /** The guard on a (start, length) pair. A negative length is reported as an
      index error before, and in preference to, the overflow test. */
  function CheckStartAndLength(c: OverflowChecker, start: Long, length: Long): (r: Outcome)
    ensures length < 0 ==> r == Fail(IndexOutOfBounds)
    ensures 0 <= length && r.Fail? ==> r.error == IllegalArgument
    ensures Correct(c) ==> (r == Pass <==> 0 <= length && start + length <= MAX)
  {
    if length < 0 then Fail(IndexOutOfBounds)
    else if c.isOverflow(start, length) then Fail(IllegalArgument)
    else Pass
  }

  function ToString(span: LongSpan): (r: Rendering)
    ensures r.start == span.start
    ensures r.end == EmptyMarker <==> span.length <= 0
    ensures r.end.EndPosition? ==> r.end.position == span.end
  {
    Rendering(span.start, if span.length > 0 then EndPosition(span.end) else EmptyMarker)
  }

  // ---------------------------------------------------------------------------
  // Positions

  /** The integers from lo to hi, both included, built up one position at a time. */
  ghost function Interval(lo: int, hi: int): set<int>
    decreases hi - lo
  {
    if hi < lo then {} else Interval(lo, hi - 1) + {hi}
  }

  lemma {:induction false} IntervalMembers(lo: int, hi: int, p: int)
    ensures p in Interval(lo, hi) <==> lo <= p <= hi
    decreases hi - lo
  {
    if lo <= hi {
      IntervalMembers(lo, hi - 1, p);
    }
  }

  lemma {:induction false} IntervalSize(lo: int, hi: int)
    requires lo - 1 <= hi
    ensures |Interval(lo, hi)| == hi - lo + 1
    decreases hi - lo
  {
    if lo <= hi {
      IntervalSize(lo, hi - 1);
      IntervalMembers(lo, hi - 1, hi);
    }
  }

  /** A span covers exactly the positions from start to end, both included. */
  lemma PositionsAreInterval(span: LongSpan)
    ensures Positions(span) == Interval(span.start, span.end)
  {
    forall p: int ensures p in Positions(span) <==> p in Interval(span.start, span.end) {
      IntervalMembers(span.start, span.end, p);
    }
  }

  /** A span whose end is not below start - 1 covers `end - start + 1` positions;
      in particular a zero-length span (end == start - 1) covers none. */
  lemma PositionsCount(span: LongSpan)
    requires span.start - 1 <= span.end
    ensures |Positions(span)| == span.end - span.start + 1
    ensures span.end == span.start - 1 ==> Positions(span) == {}
  {
    PositionsAreInterval(span);
    IntervalSize(span.start, span.end);
  }

  /** A span whose end lies below its start contains no position. */
  lemma ContainsNothingWhenEmpty(span: LongSpan, pos: Long)
    requires span.end < span.start
    ensures !Contains(span, pos)
  {
  }

  // ---------------------------------------------------------------------------
  // Overlap

  lemma OverlapsSymmetric(one: LongSpan, other: LongSpan)
    ensures Overlaps(one, other) == Overlaps(other, one)
  {
  }

  /** For spans that cover at least one position, overlap means sharing a position. */
  lemma OverlapsIffSharedPosition(one: LongSpan, other: LongSpan)
    requires one.start <= one.end && other.start <= other.end
    ensures Overlaps(one, other) <==> Positions(one) * Positions(other) != {}
  {
    if Overlaps(one, other) {
      var p: Long := if one.start <= other.start then other.start else one.start;
      assert p in Positions(one) * Positions(other);
    }
  }

  /** Spans touching at one position overlap. */
  lemma OverlapsWhenTouching(one: LongSpan, other: LongSpan)
    requires one.start <= one.end && one.end == other.start && other.start <= other.end
    ensures Overlaps(one, other)
  {
  }

  /** The test reads only start and end, so a zero-length span anchored at `a`
      overlaps exactly the spans that cover both a - 1 and a, although it has no
      position to share with them (its position set is empty). The method's
      documentation speaks of sharing positions; the code does not check that. */
  lemma OverlapsOfEmptySpan(one: LongSpan, other: LongSpan)
    requires one.end == one.start - 1
    ensures Overlaps(one, other) <==> Contains(other, one.end) && Contains(other, one.start)
    ensures Positions(one) == {}
  {
    PositionsCount(one);
  }

  // ---------------------------------------------------------------------------
  // Containment

  lemma ContainsSpanReflexive(one: LongSpan)
    ensures ContainsSpan(one, one)
  {
  }

  lemma ContainsSpanTransitive(a: LongSpan, b: LongSpan, c: LongSpan)
    requires ContainsSpan(a, b) && ContainsSpan(b, c)
    ensures ContainsSpan(a, c)
  {
  }

  /** For a span that covers at least one position, containment means that every
      position it covers is covered by the containing span. */
  lemma ContainsSpanIffSubset(one: LongSpan, other: LongSpan)
    requires other.start <= other.end
    ensures ContainsSpan(one, other) <==> Positions(other) <= Positions(one)
  {
    if Positions(other) <= Positions(one) {
      assert other.start in Positions(other);
      assert other.end in Positions(other);
    }
  }

  /** A span contained in another overlaps it, when it covers at least one position. */
  lemma ContainedSpanOverlaps(one: LongSpan, other: LongSpan)
    requires ContainsSpan(one, other) && other.start <= other.end
    ensures Overlaps(one, other) && Overlaps(other, one)
  {
  }

  // ---------------------------------------------------------------------------
  // End and length

  /** What passing the guard guarantees about the end derived from the same pair:
      it is the exact end, except for the pair (Long.MIN_VALUE, 0), which passes
      although its end wraps to Long.MAX_VALUE. */
  lemma CheckStartAndLengthGuardsCalcEnd(c: OverflowChecker, start: Long, length: Long)
    requires Correct(c) && CheckStartAndLength(c, start, length) == Pass
    ensures !(start == MIN && length == 0) ==> CalcEnd(start, length) == start + length - 1 < MAX
    ensures start == MIN && length == 0 ==> CalcEnd(start, length) == MAX
  {
  }

  /** Deriving the end from a length and then the length from that end gives the
      length back, for every start and length: the wrap-arounds cancel. */
  lemma CalcLengthOfCalcEnd(start: Long, length: Long)
    ensures CalcLength(start, CalcEnd(start, length)) == length
  {
  }

  /** Deriving the length from an end and then the end from that length gives the end back. */
  lemma CalcEndOfCalcLength(start: Long, end: Long)
    ensures CalcEnd(start, CalcLength(start, end)) == end
  {
  }
}
