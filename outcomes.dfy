/** Values that stand for Python's `None`-or-value and for "returned or raised". */
module Outcomes {

  datatype Option<+T> = None | Some(value: T)

  /** A Python exception, identified by its class name and message.
      Re-raising an exception (`raise e`) hands on the same value. */
  datatype Exc = Exc(kind: string, message: string)

  /** How a Python call ended: it returned a value or it raised an exception. */
  datatype Outcome<+T> = Ok(value: T) | Raised(error: Exc)
}
