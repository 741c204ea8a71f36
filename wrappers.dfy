/** The optional value returned by the row lookups of the ledger. */
module Wrappers {

  datatype Option<+T> = None | Some(value: T)
}
