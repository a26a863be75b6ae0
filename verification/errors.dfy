/** Go's `error` values as they travel through the audio pipeline. A Go
    `nil` error is `None`; every non-nil error is `Some(e)`. */
module Errors {

  datatype Option<+T> = None | Some(value: T)

  /** A Go `(value, error)` pair where exactly one side is meaningful. */
  datatype Result<+T> = Ok(value: T) | Err(error: Error)

  datatype Error =
    | Eof                                   // io.EOF
    | Failure(msg: string)                  // any other error from below
    | Wrapped(prefix: string, cause: Error) // fmt.Errorf("<prefix>: %w", cause)
    | UnsupportedFormat(ext: string)        // fmt.Errorf("unsupported format %q", ext)

  /** `errors.Is(e, io.EOF)`: follows the wrap chain. */
  predicate IsEof(e: Error)
  {
    match e
    case Eof => true
    case Wrapped(_, c) => IsEof(c)
    case _ => false
  }

}
