/** Failure-carrying results. The plug-in reports failures by letting a Python
    exception escape; the model returns the exception's kind instead. */
module Wrappers {

  datatype Option<+T> = None | Some(value: T)

  /** The Python exceptions (and the early return of the command) that the core can raise. */
  datatype PyError =
    | IndexError          // a list or array subscript past the end
    | ZeroDivisionError   // a float divided by zero
    | UnboundLocalError   // a local read before any branch assigned it
    | TooFewComponents    // the selection holds fewer than two components; the command returns False

  datatype Result<+T> = Ok(value: T) | Err(error: PyError)
}
