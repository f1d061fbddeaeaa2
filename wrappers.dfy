/** Option and Result, the tagged values that stand in for `undefined`, `null`
    and thrown errors throughout the model. */
module Wrappers {

  datatype Option<+T> = None | Some(value: T)

  datatype Result<+T, +E> = Success(value: T) | Failure(error: E)
}
