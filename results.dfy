/** Failure-carrying results: the Java exceptions of the model become values. */
module Results {

  /** The outcome of an operation that returns nothing in Java but may throw. */
  datatype Outcome<+E> = Pass | Fail(error: E)

  /** The outcome of an operation that returns a value in Java but may throw. */
  datatype Result<+T, +E> = Ok(value: T) | Err(error: E)

  datatype Option<+T> = None | Some(value: T)

  /** The exceptions thrown by the model layer. */
  datatype ModelError =
    | DuplicatePerson            // DuplicatePersonException
    | PersonNotFound             // PersonNotFoundException
    | IllegalArgument(message: string)   // IllegalArgumentException
    | IndexOutOfBounds           // IndexOutOfBoundsException
}
