/** An optional value, for the page's `null`-or-number fields and for searches that may
    find nothing. */
module Wrappers {

  datatype Option<+T> = None | Some(value: T)
}
