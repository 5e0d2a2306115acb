/** Option and Result values used in place of Go's nil function value and of
    the paths on which the Go code ends the process (log.Fatal, os.Exit). */
module Wrappers {

  datatype Option<+T> = None | Some(value: T)

  datatype Result<+R, +E> = Success(value: R) | Failure(error: E)
}
