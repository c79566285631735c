/** The exceptions the fuzzing core can raise, and a result type that carries
    either a value or the exception raised instead. */
module Outcomes {

  /** The Python exceptions raised by the core. */
  datatype Error =
    | ValueError         // `random.randint` on an empty range, `chr` out of range
    | OverflowError      // `chr` of a value that does not fit a C `int`
    | KeyError           // a missing dictionary key
    | ZeroDivisionError  // a division by zero
    | AssertionError     // a failed `assert`
    | IndexError         // an index into an empty list

  /** Either the value a call returns or the exception it raises. */
  datatype Result<+T> = Ok(value: T) | Err(error: Error)
}
