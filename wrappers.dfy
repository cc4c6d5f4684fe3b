/** Option and Result, the two failure-carrying datatypes the rest of the model uses. */
module Wrappers {

  /** `nil`/`null`/`undefined` on one side, a value on the other. */
  datatype Option<+T> = None | Some(value: T)

  /** A Go `(value, error)` pair or a TypeScript throw, as one value. */
  datatype Result<+T, +E> = Ok(value: T) | Err(error: E)
}
