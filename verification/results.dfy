/** Optional values and results with an error, the two shapes every operation of the
    plugin returns: a Java `null` becomes `None`, a thrown exception becomes `Err`. */
module Results {

  datatype Option<T> = None | Some(value: T) {

    /** The value, or `default` when there is none (Java's `x != null ? x : default`). */
    function GetOr(default: T): T {
      match this
      case Some(v) => v
      case None => default
    }
  }

  datatype Result<T, E> = Ok(value: T) | Err(error: E)
}
