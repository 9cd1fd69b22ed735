/** Optional values and error-carrying results, used wherever the source
    produces a masked (no-data) value or raises an exception. */
module Wrappers {

  /** A value that may be absent: `None` stands for a masked pixel, a missing
      array entry or a division by zero. */
  datatype Option<+T> = None | Some(value: T)

  /** The outcome of an operation that can raise one of the source's errors. */
  datatype Result<+T, +E> = Ok(value: T) | Err(error: E)
}
