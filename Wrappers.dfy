/** Nullable inputs and the exceptions the clocks throw for them. */
module Wrappers {

  /** A Java reference that may be null: `None` is null. */
  datatype Option<+T> = None | Some(value: T)

  /** The unchecked exceptions the fixed clocks raise on a null argument. */
  datatype ClockError =
    | IllegalArgument  // IllegalArgumentException, thrown by set
    | IllegalState     // IllegalStateException, thrown by the ZonedDateTime constructor

  /** Either the normal result or the exception the call throws. */
  datatype Result<+T> = Ok(value: T) | Err(error: ClockError)
}
