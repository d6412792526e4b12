/** Optional values, error results, and the truthiness test the discovery code
    applies to optional strings. */
module Common {

  /** A value that may be unset (Python's `None`). */
  datatype Option<+T> = None | Some(value: T)

  /** Either a value or the message of the exception that was raised instead. */
  datatype Result<+T> = Ok(value: T) | Err(message: string)

  /** An optional string is truthy when it is set and not empty: `None` and `""`
      both count as false in an `if` or a generator filter. */
  predicate Truthy(v: Option<string>)
  {
    v.Some? && v.value != ""
  }
}
