/** The optional value used wherever the source returns `null`/`undefined` or a field may be absent. */
module Wrappers {
  datatype Option<+T> = None | Some(value: T)
}
