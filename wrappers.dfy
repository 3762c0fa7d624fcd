/** Failure-compatible wrappers used across the model. */
module Wrappers {

  /** `None` stands for JavaScript's `null` / `undefined` where the source uses them as "absent". */
  datatype Option<+T> = None | Some(value: T)

  /** A computation that either yields a value or throws (an exception in the source). */
  datatype Result<+T, +E> = Ok(value: T) | Err(error: E)
}
