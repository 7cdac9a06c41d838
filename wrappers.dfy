/** Failure-compatible wrappers shared by every module of the model. */
module Wrappers {

  /** A value that may be absent, the model of Python's `None`. */
  datatype Option<T> = None | Some(value: T)

  /** The outcome of an operation that can raise: `Err` carries the exception's kind and message. */
  datatype Result<T> = Ok(value: T) | Err(error: Error)

  /** The Python exception classes the modelled code raises, and `OutOfFuel` for a run the model
      cuts short (the program would still be running, or would hit Python's recursion limit). */
  datatype ErrorKind =
    | ValueError | SyntaxError | SemanticError | RuntimeError | AttributeError | StopIteration
    | AssertionError | TypeError | KeyError | OutOfFuel

  datatype Error = Error(kind: ErrorKind, msg: string)
}
