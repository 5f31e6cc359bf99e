/** The optional result of a lookup: the record found, or nothing. */
module Wrappers {

  datatype Option<+T> = None | Some(value: T)
}
