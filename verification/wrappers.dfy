/** Option and Result, used for the nullable values and the faults of the handler. */
module Wrappers {

  /** A value that may be absent; stands in for a C# reference that may be null. */
  datatype Option<+T> = None | Some(value: T) {

    /** The wrapped value, or `default` when absent (C#'s `??`). */
    function GetOr(default: T): T
    {
      match this
      case Some(v) => v
      case None => default
    }
  }

  /** Either a value or the fault that ended the computation. */
  datatype Result<+T, +E> = Success(value: T) | Failure(error: E)
}
