/** Failure-carrying datatypes shared by the whole model.

    A Python exception becomes an `Err` carrying the class of the exception that
    the code raises; `assert` statements of the code raise `AssertionError`.
 */
module Outcomes {

  /** The conventional Some/None datatype. */
  datatype Option<+T> = None | Some(value: T)

  /** The exception classes the modelled code raises. */
  datatype Error =
    | AssertionError
    | TypeError
    | ValueError
    | UnboundLocalError
    /** a plain `raise Exception(...)` */
    | PlainException

  /** The outcome of a call that either returns a value or raises. */
  datatype Result<+T> = Ok(value: T) | Err(error: Error)
}
