# LongSpan in Dafny

A model of `LongSpan` from commons-lang: an immutable closed interval of Java
`long` positions. A span is stored as `(start, end)`, and its length is always
derived as `end - start + 1`. A span with `end == start - 1` is the zero-length
span anchored at `start`. The source has three parts, and the model keeps them:

- `LongSpanUtil` (the `Util` class) holds helpers written against *any* span.
  They see a span only through what its three getters report, the datatype
  `LongSpan(start, length, end)`, and they rely on no relation between those
  values. The helpers are overlap, point containment, span containment, end
  and length derivation, the `(start, length)` guard, and the end field of
  `toString`.
- `LongSpanImpl` (the `Impl` class) is the value type `Impl(start, end)`. It
  has the validating constructor `New`, the accessors, and the queries, which
  delegate to `Util`.
- `LongSpanFactory` (the `Factory` class) holds `fromEnd` and `fromLength`.

Supporting modules:

- `Int64` models the Java `long` as `int` restricted to
  `[-2^63, 2^63 - 1]`. Every `+` and `-` the source performs is written out
  with two's-complement wrap-around (`Add`, `Sub`). The exact result of one
  such operation is at most one turn of 2^64 outside the long range, so `Wrap`
  adds or subtracts 2^64 once. The proofs then show where the wrap cannot
  happen, and where it does.
- `NumberUtils` stands for the collaborator predicates `isOverflow(a, b)`
  (does `a + b` overflow?) and `isUnderflow(a, b)` (does `a - b` overflow?).
  They are not shown in this code, so they are passed in as an
  `OverflowChecker` that holds two functions. `Correct(c)` is the contract the
  properties assume, in two halves:
  - Soundness: a "no" means that the exact result is at most `Long.MAX_VALUE`.
  - Completeness: an exact result inside the long range is never reported.

  The contract leaves open whether a sum *below* `Long.MIN_VALUE` is reported.
  The comment at `LongSpan.java:252` suggests it is, so the question is left
  undecided. The proofs show that `fromLength` gives the same outcome either
  way. `Exact` is a widen-and-compare checker, proved to meet the contract.
- `Exceptions` names the two exception kinds, `IllegalArgument` and
  `IndexOutOfBounds`. It also has `Result` for a returned value or a thrown
  exception, and `Outcome` for the `void` guard.

The two guards on a length disagree in the exception they throw.
`fromLength` throws `IllegalArgumentException` for a negative length
(`LongSpan.java:250`), while `checkStartAndLength` throws
`IndexOutOfBoundsException` (`:187`).

## Model

| member | source | states |
|---|---|---|
| `NumberUtils.ExactIsCorrect` | src/main/java/org/apache/commons/lang3/LongSpan.java:190 | A widen-and-compare overflow checker meets the contract assumed of `NumberUtils`, so the contract can be met. |
| `LongSpanUtil.CalcEnd` | src/main/java/org/apache/commons/lang3/LongSpan.java:153-156 | The two wrapping Java steps `start + length - 1` amount to one wrap of the exact end. The result is the exact end whenever that end is a long. |
| `LongSpanUtil.CalcLength` | src/main/java/org/apache/commons/lang3/LongSpan.java:167-170 | The two wrapping steps `end - start + 1` amount to one wrap of the exact length. The result is the exact length whenever that length is a long. |
| `LongSpanUtil.CalcLengthOfCalcEnd` | src/main/java/org/apache/commons/lang3/LongSpan.java:153-170 | Length, then end, then length gives back the original length for every start and length. The wrap-arounds cancel. |
| `LongSpanUtil.CalcEndOfCalcLength` | src/main/java/org/apache/commons/lang3/LongSpan.java:153-170 | End, then length, then end gives back the original end for every start and end. |
| `LongSpanUtil.CheckStartAndLength` | src/main/java/org/apache/commons/lang3/LongSpan.java:183-198 | A negative length gives `IndexOutOfBounds`, before and in preference to the overflow test. Any other failure is `IllegalArgument`. For a correct checker the guard passes exactly when `0 <= length` and `start + length <= Long.MAX_VALUE`. |
| `LongSpanUtil.CheckStartAndLengthGuardsCalcEnd` | src/main/java/org/apache/commons/lang3/LongSpan.java:153-198 | For a correct checker, a pair that passes the guard has the exact end `start + length - 1 < Long.MAX_VALUE`. The one exception is `(Long.MIN_VALUE, 0)`: it passes, but its end wraps to `Long.MAX_VALUE`. |
| `LongSpanUtil.ToString` | src/main/java/org/apache/commons/lang3/LongSpan.java:207-213 | The start is rendered. The end field is the `-empty-` marker exactly when the reported length is `<= 0`, and otherwise it is the end position. |
| `LongSpanUtil.PositionsAreInterval` | src/main/java/org/apache/commons/lang3/LongSpan.java:125-128 | The positions `contains(pos)` accepts are exactly the integers from start to end, both ends included. |
| `LongSpanUtil.PositionsCount` | src/main/java/org/apache/commons/lang3/LongSpan.java:125-128 | A span with `end >= start - 1` contains exactly `end - start + 1` positions. A zero-length span contains none. |
| `LongSpanUtil.ContainsNothingWhenEmpty` | src/main/java/org/apache/commons/lang3/LongSpan.java:125-128 | A span whose end is below its start contains no position. |
| `LongSpanUtil.OverlapsSymmetric` | src/main/java/org/apache/commons/lang3/LongSpan.java:106-115 | `overlaps(a, b) == overlaps(b, a)`. |
| `LongSpanUtil.OverlapsIffSharedPosition` | src/main/java/org/apache/commons/lang3/LongSpan.java:106-115 | For spans of at least one position, they overlap exactly when they share a position. |
| `LongSpanUtil.OverlapsWhenTouching` | src/main/java/org/apache/commons/lang3/LongSpan.java:106-115 | Spans that touch at one position overlap. |
| `LongSpanUtil.OverlapsOfEmptySpan` | src/main/java/org/apache/commons/lang3/LongSpan.java:99-115 | A zero-length span anchored at `a` overlaps exactly the spans that contain both `a - 1` and `a`, although its own position set is empty. This goes against the documentation at `:99` ("shares any positions"): the code compares only ends and does not check that a position is shared. |
| `LongSpanUtil.ContainsSpanReflexive` | src/main/java/org/apache/commons/lang3/LongSpan.java:138-142 | Every span contains itself. |
| `LongSpanUtil.ContainsSpanTransitive` | src/main/java/org/apache/commons/lang3/LongSpan.java:138-142 | Span containment is transitive. |
| `LongSpanUtil.ContainsSpanIffSubset` | src/main/java/org/apache/commons/lang3/LongSpan.java:138-142 | For a contained span of at least one position, `contains(a, b)` holds exactly when every position of `b` is a position of `a`. |
| `LongSpanUtil.ContainedSpanOverlaps` | src/main/java/org/apache/commons/lang3/LongSpan.java:106-142 | A non-empty span contained in another overlaps it, in both argument orders. |
| `LongSpanImpl.Impl.GetLength` | src/main/java/org/apache/commons/lang3/LongSpan.java:301-305 | The length is the wrapped `end - start + 1`. For a valid span below full width it is the true length and `>= 0`. When `end - start == Long.MAX_VALUE` it is `Long.MIN_VALUE`. |
| `LongSpanImpl.Impl.ToString` | src/main/java/org/apache/commons/lang3/LongSpan.java:313-317 | For a valid span below full width, the `-empty-` marker is shown exactly when `end < start`. Otherwise the stored end is shown. |
| `LongSpanImpl.Impl.Overlaps` | src/main/java/org/apache/commons/lang3/LongSpan.java:319-323 | True exactly when `other.start <= end` and `start <= other.end`. |
| `LongSpanImpl.Impl.Contains` | src/main/java/org/apache/commons/lang3/LongSpan.java:325-329 | True exactly when `start <= pos <= end`. |
| `LongSpanImpl.Impl.ContainsSpan` | src/main/java/org/apache/commons/lang3/LongSpan.java:331-335 | True exactly when `start <= other.start` and `other.end <= end`. |
| `LongSpanImpl.New` | src/main/java/org/apache/commons/lang3/LongSpan.java:280-293 | On success the span reads back exactly the given start and end. Every failure is `IllegalArgument`, and `end <= start - 2` always fails. For a correct checker, it succeeds exactly when `end >= start - 1` and `end - start` fits in a long, and the result is `Valid`. |
| `LongSpanImpl.ConstructedLength` | src/main/java/org/apache/commons/lang3/LongSpan.java:280-305 | A constructed span below full width has length `end - start + 1 >= 0`, and that length equals the number of positions it contains. |
| `LongSpanImpl.NewChecked` | src/main/java/org/apache/commons/lang3/LongSpan.java:280-293 | The corrected constructor. It succeeds exactly when `end >= start - 1` and `end - start + 1` fits in a long. The length it reads back is then always `end - start + 1 >= 0`. |
| `LongSpanImpl.NewCheckedAgrees` | src/main/java/org/apache/commons/lang3/LongSpan.java:280-293 | Below full width, the corrected constructor and the one as written build the same span. |
| `LongSpanFactory.FromEnd` | src/main/java/org/apache/commons/lang3/LongSpan.java:231-235 | On success the span reads back the given start and end. Every failure is `IllegalArgument`, and `end <= start - 2` always fails. For a correct checker, it succeeds exactly when `end >= start - 1` and `end - start` fits in a long. |
| `LongSpanFactory.FromLength` | src/main/java/org/apache/commons/lang3/LongSpan.java:246-259 | A negative length gives `IllegalArgument`, checked first. For a correct checker, it succeeds exactly when `length >= 0` and `start + length - 1` is a long. The span then reads back start `start`, end `start + length - 1` and length `length`. |
| `LongSpanFactory.FromEndChecked` | src/main/java/org/apache/commons/lang3/LongSpan.java:231-235 | `fromEnd` on the corrected constructor. It succeeds exactly when the span's length fits, and it then reads back a length `>= 0`. |
| `LongSpanFactory.FromLengthOfLength` | src/main/java/org/apache/commons/lang3/LongSpan.java:231-259 | `fromLength(s, fromEnd(s, e).getLength()) == fromEnd(s, e)` for every accepted span below full width. |
| `LongSpanFactory.FromLengthOfCheckedLength` | src/main/java/org/apache/commons/lang3/LongSpan.java:231-259 | With the corrected constructor, that round trip holds for every span it accepts. |
| `LongSpanFactory.FromEndOfEnd` | src/main/java/org/apache/commons/lang3/LongSpan.java:231-259 | `fromEnd(s, fromLength(s, n).getEnd()) == fromLength(s, n)` for every accepted `(s, n)`. |
| `LongSpanFactory.FromLengthIsChecked` | src/main/java/org/apache/commons/lang3/LongSpan.java:246-259 | Every span `fromLength` builds is also built by the corrected `fromEnd`, so it never reaches the full-width case. |
| `LongSpanFactory.ZeroLength` | src/main/java/org/apache/commons/lang3/LongSpan.java:246-259 | `fromLength(s, 0)` is the span `[s, s - 1]`, equal to `fromEnd(s, s - 1)`, for every `s > Long.MIN_VALUE`. At `Long.MIN_VALUE` it is rejected. |
| `LongSpanFactory.ZeroLengthExamples` | src/main/java/org/apache/commons/lang3/LongSpan.java:280-293 | `fromLength(5, 0) == fromEnd(5, 4)`, with length 0 and rendered `-empty-`. `fromEnd(5, 3)` is rejected. |
| `LongSpanFactory.RejectionExamples` | src/main/java/org/apache/commons/lang3/LongSpan.java:246-259 | `fromLength(0, -1)` and `fromLength(Long.MAX_VALUE - 2, 10)` throw `IllegalArgumentException`. |
| `LongSpanFactory.GuardAndFromLengthDisagree` | src/main/java/org/apache/commons/lang3/LongSpan.java:183-259 | The guard and `fromLength` differ at both ends of the range. `(Long.MIN_VALUE, 0)` passes the guard, but `fromLength` rejects it. `(Long.MAX_VALUE, 1)` fails the guard with `IllegalArgument`, but `fromLength` builds `[Long.MAX_VALUE, Long.MAX_VALUE]`. |
| `LongSpanFactory.PredicateExamples` | src/main/java/org/apache/commons/lang3/LongSpan.java:106-142 | `[3,7]` contains 3 and 7 but not 2 or 8. `[0,10]` contains `[2,5]`, but not the reverse. `[0,5]` does not overlap `[6,10]`, while `[0,6]` does. |
| `LongSpanFactory.FullWidthSpanLengthWraps` | src/main/java/org/apache/commons/lang3/LongSpan.java:167-170 | `fromEnd(0, Long.MAX_VALUE)` succeeds, reports length `Long.MIN_VALUE`, is rendered `-empty-` and contains position 0. Rebuilding it from that length with `fromLength` fails, so the round trip breaks. The corrected `fromEnd` rejects the span. |

## Left out

- The bodies of `NumberUtils.isOverflow` and `NumberUtils.isUnderflow` are not part of this model. They are replaced by the `OverflowChecker` parameter and the assumed contract `Correct`. No other collaborator behaviour is assumed.
- `toString` formatting: `String.format`, the class name from `getClass().getName()` and the decimal rendering of longs are library behaviour. Only the choice between the end position and the `-empty-` marker is modelled.
- The texts of exception messages: only the kind of exception is modelled.
- The unused `java.math.BigInteger` import.
- Java interface dispatch and `@Override`: an arbitrary implementation is the value of its three getters (`LongSpan`). `Impl` passes itself to `Util` as `View()`.
- `LongSpanUtil.CalcEnd` and `LongSpanUtil.CalcLength` take the getter values they read rather than the span object. This lets `Impl.GetLength` use `CalcLength` without a circular view.
- `LongSpanUtil.Overlaps`, `LongSpanUtil.Contains` and `LongSpanUtil.ContainsSpan` (`LongSpan.java:106-142`) carry no contract of their own: each body is the source's single comparison. What they mean is stated by the lemmas cited at those lines: `OverlapsIffSharedPosition`, `OverlapsOfEmptySpan`, `PositionsAreInterval`, `ContainsSpanIffSubset`, and the symmetry, reflexivity and transitivity lemmas.
- `LongSpanImpl.Impl.GetStart` and `LongSpanImpl.Impl.GetEnd` carry no contract of their own: they return the stored fields. What they return is stated in the contracts of `New`, `FromEnd` and `FromLength`.
- Concurrency and sharing: a span is an immutable Dafny value, so safe unsynchronised sharing holds by construction and is not stated separately.

## Findings

| source | as written | input that shows it | evidently intended | confidence | as-written member | corrected member |
|---|---|---|---|---|---|---|
| src/main/java/org/apache/commons/lang3/LongSpan.java:286-292 | The constructor only checks that `end - start` fits in a long. `getLength()` then computes `end - start + 1` (`:169`), which overflows when `end - start == Long.MAX_VALUE`. | `fromEnd(0, Long.MAX_VALUE)`: accepted, `getLength()` is `Long.MIN_VALUE`, and `toString()` shows `-empty-` for a span that contains position 0 | Reject a span whose length does not fit in a long, so that every span reads back a length `>= 0` | medium; not executed | `LongSpanFactory.FullWidthSpanLengthWraps` | `LongSpanImpl.NewChecked` (used by `LongSpanFactory.FromEndChecked`) |
