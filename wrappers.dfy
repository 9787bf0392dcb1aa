/** Failure-carrying values used across the model: an optional value stands for
    a C# reference that may be null, a result for a call that may throw. */
module Wrappers {

  datatype Option<+T> = None | Some(value: T)

  datatype Result<+T, +E> = Ok(value: T) | Err(error: E)
}
