/** Optional values and error-or-value results shared by both engines. */
module Results {

  /** A value that may be absent, as a dictionary key that may be missing. */
  datatype Option<+T> = None | Some(value: T) {
    /** The value, or the given default when absent (Python's `dict.get(key, default)`). */
    function GetOr(default: T): T {
      match this
      case Some(v) => v
      case None => default
    }
  }

  /** The value a call returns, or the exception it raises. */
  datatype Result<+R, +E> = Success(value: R) | Failure(error: E)
}
