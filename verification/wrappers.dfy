/** Optional values, results, and the two Java exceptions the core raises. */
module Wrappers {

  /** A value that may be absent; stands for a Java reference that may be null. */
  datatype Option<+T> = None | Some(value: T)

  /** The outcome of an operation that either returns a value or throws. */
  datatype Result<+T, +E> = Success(value: T) | Failure(error: E)

  /** The exceptions thrown by the modelled operations. */
  datatype Exception =
    | IllegalArgument(message: string)
    | IllegalState(message: string)
}
