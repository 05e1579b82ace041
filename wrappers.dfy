/** Option and Result, for values the source leaves absent (`null`, `undefined`)
    and for calls that throw. */
module Wrappers {

  datatype Option<+T> = None | Some(value: T)

  datatype Result<+T, +E> = Ok(value: T) | Err(error: E)
}
