/** Outcomes shared by the whole model: the word search raises an exception
    in each of the situations named by `Error`; the model returns it instead. */
module Errors {

  /** The failures the word search can run into. */
  datatype Error =
    | InvalidGridSize      // the grid string does not hold axis_length² characters
    | ZeroWindowStep       // `range(0, n, 0)`: a window size of zero is not a valid step
    | InvalidChunkSize     // the worker pool refuses a chunk size below one
    | IndexOutOfRange      // a window reaches past the last row or column
    | UninitializedWorker  // a worker was called before the data was shared with it
    | EmptyWord            // the empty word cannot be unpacked into first and rest

  datatype Option<+T> = None | Some(value: T)

  datatype Result<+T> = Ok(value: T) | Err(error: Error)
}
