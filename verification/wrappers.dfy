/** Option and Result, used for the validators' error paths and for "key absent". */
module Wrappers {

  datatype Option<+T> = None | Some(value: T)

  /** Ok carries the value a validator hands back; Err the reason it raised. */
  datatype Result<+T, +E> = Ok(value: T) | Err(error: E)
}
