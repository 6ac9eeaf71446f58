/** The two overflow predicates of NumberUtils that the span code calls. Their
    bodies are not part of this model: a checker is a pair of functions passed
    in, and `Correct` is the contract the span code relies on. */
module NumberUtils {
  import opened Int64

  datatype OverflowChecker = OverflowChecker(
    isOverflow: (Long, Long) -> bool,   // isOverflow(a, b): does a + b leave the long range?
    isUnderflow: (Long, Long) -> bool   // isUnderflow(a, b): does a - b leave the long range?
  )

  /** The assumed contract. Each predicate is sound in the direction the span
      code needs (a "no" means the result is at most Long.MAX_VALUE) and
      complete (an exact result inside the long range is never reported).
      Whether a sum below Long.MIN_VALUE is reported is left open. */
  ghost predicate Correct(c: OverflowChecker) {
    && (forall a: Long, b: Long :: !c.isOverflow(a, b) ==> a + b <= MAX)
    && (forall a: Long, b: Long :: c.isOverflow(a, b) ==> !InRange(a + b))
    && (forall a: Long, b: Long :: !c.isUnderflow(a, b) ==> a - b <= MAX)
    && (forall a: Long, b: Long :: c.isUnderflow(a, b) ==> !InRange(a - b))
  }

  /** A widen-and-compare checker: one concrete implementation of the contract. */
  function Exact(): OverflowChecker {
    OverflowChecker((a: Long, b: Long) => !InRange(a + b), (a: Long, b: Long) => !InRange(a - b))
  }

  lemma ExactIsCorrect()
    ensures Correct(Exact())
  {
    var c := Exact();
    forall a: Long, b: Long ensures !c.isOverflow(a, b) ==> a + b <= MAX {
      assert c.isOverflow(a, b) == !InRange(a + b);
    }
    forall a: Long, b: Long ensures !c.isUnderflow(a, b) ==> a - b <= MAX {
      assert c.isUnderflow(a, b) == !InRange(a - b);
    }
  }
}
