/** Option and Result, the two failure-carrying shapes the model uses for Python's
    "returns a value or raises". */
module Wrappers {

  datatype Option<+T> = None | Some(value: T)

  datatype Result<+T, +E> = Success(value: T) | Failure(error: E)
}
