/** The wrappers shared by the model: an optional value (a Go
    pointer that may be nil, a JSON field that may be null) and a result that
    is either a value or an error. */
module Wrappers {

  datatype Option<+T> = None | Some(value: T)

  datatype Result<+R, +E> = Success(value: R) | Failure(error: E)
}
