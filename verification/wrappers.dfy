/** Failure-carrying wrappers shared by the ledger modules. */
module Wrappers {

  /** An optional value: a parsed amount, a selected row. */
  datatype Option<+T> = None | Some(value: T)

  /** Either a value or the reason it could not be produced. */
  datatype Result<+R, +E> = Success(value: R) | Failure(error: E)
}
