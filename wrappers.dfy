/** The optional value used for "a cursor position may be missing" and
    "a query may have no first match". */
module Wrappers {
  datatype Option<+T> = None | Some(value: T)
}
