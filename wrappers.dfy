/** The optional value used wherever the source returns "nothing" or a lookup can miss. */
module Wrappers {
  datatype Option<+T> = None | Some(value: T)
}
