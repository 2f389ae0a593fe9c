/** Python's `None` as an optional value. */
module Wrappers {

  datatype Option<+T> = None | Some(value: T)
}
