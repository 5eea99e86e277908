/** Failure-carrying results, and the Java exceptions the modelled code throws. */
module Wrappers {

  /** A Java reference that may be null: `None` is null. */
  datatype Option<+T> = None | Some(value: T)

  /** The exceptions thrown by the modelled code, with their fixed messages. */
  datatype Error =
    | NullPointer(argument: string)        // Utils.checkNotNull / Preconditions.checkNotNull
    | IllegalArgument(message: string)     // checkArgument, `throw new IllegalArgumentException`
    | IllegalState(message: string)        // Utils.checkState
    | IndexOutOfBounds(index: int)         // an array read past the end

  /** A computation that returns a value or throws. */
  datatype Result<+T> = Ok(value: T) | Err(error: Error)

  /** A `void` computation that returns normally or throws. */
  datatype Outcome = Pass | Fail(error: Error)
}
