/** Optional values and error-or-value results, used wherever the Python
    code returns None or lets an exception escape to its caller. */
module Results {

  datatype Option<+T> = None | Some(value: T) {

    /** The wrapped value, or `default` when there is none. */
    function GetOr(default: T): T {
      match this
      case Some(v) => v
      case None => default
    }
  }

  /** `Err` stands for an exception that propagates out of the modelled call. */
  datatype Result<+T, +E> = Ok(value: T) | Err(error: E)
}
