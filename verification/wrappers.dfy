/** Small failure-carrying datatypes shared by the other modules. */
module Wrappers {

  /** An optional value; `None` plays the role of Go's nil row. */
  datatype Option<+T> = None | Some(value: T)

  /** Either a value or the error that stopped its computation. */
  datatype Result<+T, +E> = Ok(value: T) | Err(error: E)
}
