/** Failure-carrying results. A Go runtime panic in the modelled code is
    returned as a `Failure` instead of aborting the program. */
module Wrappers {

  /** A value that may be absent (a Go nil pointer or a missing file). */
  datatype Option<+T> = None | Some(value: T)

  /** Either a value or the reason there is none. */
  datatype Result<+R, +E> = Success(value: R) | Failure(error: E)

  /** The two Go runtime panics `Predict` can raise on a built model. */
  datatype Panic =
    | IndexOutOfRange        // indexing a slice past its length
    | SliceBoundsOutOfRange  // slicing with a bound outside [0, len]
}
