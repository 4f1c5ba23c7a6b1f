/** A value that may be absent, as `undefined` is in JavaScript. */
module Wrappers {
  datatype Option<+T> = None | Some(value: T)
}
