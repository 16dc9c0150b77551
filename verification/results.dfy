/** Optional values and success/failure results, standing in for Java's
    nullable references and thrown exceptions. */
module Results {

  /** A value that may be absent (a Java `null`). */
  datatype Option<+T> = None | Some(value: T) {

    /** The present value, or `default` when absent. */
    function GetOr(default: T): (r: T)
      ensures Some? ==> r == value
      ensures None? ==> r == default
    {
      match this
      case Some(v) => v
      case None => default
    }
  }

  /** The outcome of a service call: a value, or the exception it raised. */
  datatype Result<+T, +E> = Ok(value: T) | Err(error: E)
}
