/** Optional values and the JSON responses the route handlers send back. */
module Results {

  datatype Option<+T> = None | Some(value: T) {
    function GetOr(default: T): T {
      match this
      case Some(v) => v
      case None => default
    }
  }

  /** A handler's reply: a 200 with a body, or an error status with the `error` string. */
  datatype Response<+T> = Ok(body: T) | Fail(status: int, error: string)
}
