/** The optional value used wherever the application holds `null` or a call may yield nothing. */
module Wrappers {
  datatype Option<+T> = None | Some(value: T)
}
