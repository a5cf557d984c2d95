/** The Python exceptions raised by the modelled code, and the Option/Result
    wrappers the model uses in place of raising them. */
module Outcomes {

  /** The exception classes the download and expiration code can raise. */
  datatype Error =
    | ValueError          // bad int()/float() literal, impossible date, strptime mismatch, missing marker
    | UnicodeDecodeError  // bytes.decode('ascii') on a byte above 0x7f
    | StopIteration       // next() on an exhausted line iterator
    | IndexError          // list index or pop() on a too-short field list
    | TypeError           // comparing a date with None
    | OverflowError       // date arithmetic leaving year 1..9999, or a `date()` argument beyond a C int

  /** Python's `None` versus a value. */
  datatype Option<+T> = None | Some(value: T)

  /** Either the value a Python call returns or the exception it raises. */
  datatype Result<+T> = Ok(value: T) | Err(error: Error) {
    predicate IsFailure() {
      Err?
    }

    function PropagateFailure<U>(): Result<U>
      requires Err?
    {
      Err(error)
    }

    function Extract(): T
      requires Ok?
    {
      value
    }
  }
}
