/** Values the core returns instead of raising: Python's `None`, its
    exceptions, and a result that is either a value or one of them. */
module Results {

  /** `Some(v)` for a Python value, `None` for Python's `None`. */
  datatype Option<T> = None | Some(value: T)

  /** The exceptions the core raises, each with the argument it is raised with.
      `TokenError` is the project's own exception class; its definition is not
      part of this model, so only its message is kept. */
  datatype Error =
    | TokenError(message: string)
    | TypeError(message: string)
    | KeyError(arg: string)

  /** Either the value a call returns or the exception it raises. */
  datatype Result<T> = Ok(value: T) | Err(error: Error)
}
