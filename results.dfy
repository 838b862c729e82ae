/** Failure-compatible wrappers: the optional arguments of the endpoints
    (`OptionalValue`) and the outcome of a call that may stop at a `require!`. */
module Results {

  datatype Option<+T> = None | Some(value: T) {
    /** `unwrap_or`: the carried value, or the default when absent. */
    function GetOr(default: T): T
    {
      match this
      case Some(v) => v
      case None => default
    }
  }

  /** A call either completes with a value or aborts with the error of the
      first `require!` that failed; an aborted call changes nothing. */
  datatype Result<+T, +E> = Ok(value: T) | Err(error: E)
}
