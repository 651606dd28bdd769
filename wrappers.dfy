// Option and Result, the two failure-compatible wrappers the model uses for
// JavaScript's `undefined` and for thrown errors.
module Wrappers {

  /** `None` stands for an absent (undefined) JavaScript value. */
  datatype Option<+T> = None | Some(value: T)

  /** `Err` stands for an exception thrown synchronously by the expander. */
  datatype Result<+T, +E> = Ok(value: T) | Err(error: E)
}
