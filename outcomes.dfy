/** Java's exceptional outcomes, made explicit as values. */
module Outcomes {

  /** A Java reference that may be null: None stands for null. */
  datatype Option<T> = None | Some(value: T)

  /** The runtime exceptions the modelled code can raise. */
  datatype Exception =
    | IllegalArgumentException
    | AssertionError
    | ArrayIndexOutOfBoundsException
    | StringIndexOutOfBoundsException

  /** The value a Java method returns, or the exception it throws. */
  datatype Result<T> = Ok(value: T) | Err(error: Exception)

  /** The completion of a Java void method: normal, or by an exception. */
  datatype Outcome = Done | Thrown(error: Exception)
}
