/** Optional and fallible values: Python's `None` and raised exceptions, made explicit. */
module Options {

  datatype Option<T> = None | Some(value: T)

  /** A value, or the message of the exception that replaced it. */
  datatype Result<T> = Success(value: T) | Failure(message: string)
}
