/** Optional values and results with an error text, used for the decoder, standard input and dispatch routing. */
module Wrappers {

  datatype Option<+T> = None | Some(value: T)

  /** A Go `(value, err)` pair: `Ok` when `err == nil`, `Err` carrying `err.Error()` otherwise. */
  datatype Result<+T> = Ok(value: T) | Err(error: string)
}
