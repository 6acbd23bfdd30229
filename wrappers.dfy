/** Option and Result, the shapes of JavaScript's "value or undefined" and of a
    Node-style callback that receives either an error or a reply. */
module Wrappers {

  datatype Option<+T> = None | Some(value: T)

  datatype Result<+T, +E> = Success(value: T) | Failure(error: E)
}
