/** The optional values and handler outcomes shared by the ledger model. */
module Wrappers {

  /** A value that may be absent: a missing row, a failed lookup, an unparsable number. */
  datatype Option<+T> = None | Some(value: T)

  /** The outcome of a request handler: the new value, or the reason it was refused. */
  datatype Result<+R, +E> = Success(value: R) | Failure(error: E)
}
