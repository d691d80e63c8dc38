/** Failure-carrying datatypes shared by every module of the model.
    Go's `(value, error)` pairs become `Result<T>`; the error is the text that
    `err.Error()` would return, since the handlers forward that text to clients. */
module Wrappers {

  datatype Option<+T> = None | Some(value: T)

  datatype Result<+T> = Ok(value: T) | Err(error: string)
}
