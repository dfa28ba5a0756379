/** Failure-compatible wrappers shared by all modules: the Java code signals
    errors by throwing, the model returns them as values. */
module Wrappers {

  datatype Option<+T> = None | Some(value: T)

  /** The exceptions the Java code can raise on the modelled paths. */
  datatype Error =
    | AssertionFailed      // Util.myAssert(false)
    | IllegalState         // IllegalStateException / IllegalArgumentException
    | NullPointer          // dereferencing a null reference
    | IndexOutOfBounds     // ArrayIndexOutOfBoundsException
    | OutOfFuel            // recursion bound of the model reached

  datatype Result<+T> = Success(value: T) | Failure(error: Error) {
    predicate IsFailure() {
      Failure?
    }

    function PropagateFailure<U>(): Result<U>
      requires Failure?
    {
      Failure(error)
    }

    function Extract(): T
      requires Success?
    {
      value
    }
  }

  /** Util.myAssert: passes or fails with an AssertionError. */
  datatype Outcome = Pass | Fail(error: Error) {
    predicate IsFailure() {
      Fail?
    }

    function PropagateFailure<U>(): Result<U>
      requires Fail?
    {
      Failure(error)
    }
  }

  function Need(condition: bool, error: Error): (o: Outcome)
    ensures o.Pass? <==> condition
  {
    if condition then Pass else Fail(error)
  }
}
