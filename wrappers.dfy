/** The optional value used wherever JavaScript yields NaN, null or "absent". */
module Wrappers {

  datatype Option<+T> = None | Some(value: T)
}
