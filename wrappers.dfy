/** An optional value: the absent result of a failed fetch or a missing key. */
module Wrappers {

  datatype Option<+T> = None | Some(value: T)
}
