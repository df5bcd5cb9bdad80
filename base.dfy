/** Values shared by every part of the model: optional values, thrown errors and results. */
module Base {

  datatype Option<+T> = None | Some(value: T)

  /** A thrown JavaScript `Error`: its message and, for errors raised by the
      platform's HTTP client, the status of the failed response. */
  datatype Error = Error(message: string, status: Option<int>)

  /** The outcome of a step that either returns a value or throws. */
  datatype Result<+T> = Ok(value: T) | Err(error: Error)

  /** JavaScript truthiness of a value that is either absent or a string:
      `undefined`, `null` and `""` are falsy. */
  predicate Truthy(s: Option<string>)
  {
    s.Some? && s.value != ""
  }
}
