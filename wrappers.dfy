/** Failure-carrying results, standing for the source's `null` returns and thrown errors. */
module Wrappers {

  /** A value or nothing: `T | null` in the source. */
  datatype Option<+T> = None | Some(value: T)

  /** A value, or the message of the error the source throws. */
  datatype Result<+T> = Success(value: T) | Failure(error: string)
}
