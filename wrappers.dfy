/** The optional value used wherever the source returns "a value or null". */
module Wrappers {

  datatype Option<+T> = None | Some(value: T)
}
