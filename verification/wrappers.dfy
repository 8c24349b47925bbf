/** Failure-compatible wrappers shared by the receipt, validator and session modules. */
module Wrappers {

  /** A value that may be absent: JavaScript's `null` / `undefined`. */
  datatype Option<+T> = None | Some(value: T)

  /** The outcome of a check that either hands its input back or names why it refused it. */
  datatype Result<+T, +E> = Ok(value: T) | Err(error: E)
}
