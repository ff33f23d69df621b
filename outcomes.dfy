/** Results and error kinds shared by the whole model.

    The Java code signals failure by throwing; here every operation that can
    throw returns a `Result` (or, for a setter without a value, an `Outcome`)
    whose error names the exception class. */
module Outcomes {

  /** The exception classes thrown by the modelled code. */
  datatype Error =
    | NullArgument          // org.apache.commons.lang.NullArgumentException
    | IllegalArgument       // java.lang.IllegalArgumentException
    | UnsupportedOperation  // java.lang.UnsupportedOperationException (sealed object)
    | IncompatibleTable     // automata.IncompatibleTableException
    | NullPointer           // java.lang.NullPointerException (dereferenced null)

  /** A value or the exception that replaced it. */
  datatype Result<+T> = Ok(value: T) | Err(error: Error)

  /** A Java reference that may be `null` (a locator that found no hand). */
  datatype Option<+T> = None | Some(value: T)

  /** The outcome of a `void` method that may throw. */
  datatype Outcome = Done | Failed(error: Error)
}
