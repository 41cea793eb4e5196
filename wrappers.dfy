/** A value that may be absent: stands for JavaScript's `null` / `undefined` references. */
module Wrappers {
  datatype Option<+T> = None | Some(value: T)
}
