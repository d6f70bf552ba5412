/** A value that may be absent: JavaScript's `undefined` for an optional
    regular-expression group, or a pattern that did not match. */
module Wrappers {
  datatype Option<+T> = None | Some(value: T)
}
