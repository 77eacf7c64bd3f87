/** Optional values and decode results shared by every module of the decoder. */
module Wrappers {

  datatype Option<+T> = None | Some(value: T)

  /** Why a decode step could not produce a value. */
  datatype Error =
    | Truncated      // the buffer is shorter than the fixed-size header
    | OutOfBounds    // a record or a string would start or end outside the buffer
    | Unterminated   // a string runs to the end of the buffer without a NUL

  /** The outcome of one decode step; usable with `:-`. */
  datatype Result<+T> = Success(value: T) | Failure(error: Error) {

    predicate IsFailure() {
      Failure?
    }

    function PropagateFailure<U>(): Result<U>
      requires Failure?
    {
      Failure(error)
    }

    function Extract(): T
      requires Success?
    {
      value
    }
  }
}
