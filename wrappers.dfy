/** Option and Result, the tagged values that stand for the source's `null`
    returns and thrown `Error(...)` messages. */
module Wrappers {

  datatype Option<+T> = None | Some(value: T)

  datatype Result<+T, +E> = Ok(value: T) | Err(error: E)
}
