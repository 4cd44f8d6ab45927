/** Results of operations that can come back empty-handed. */
module Wrappers {

  /** A position or value that may be absent (`npos`, an empty lookup). */
  datatype Option<+T> = None | Some(value: T)

  /** A value, or the error the source throws or reports instead. */
  datatype Result<+T, +E> = Ok(value: T) | Err(error: E)
}
