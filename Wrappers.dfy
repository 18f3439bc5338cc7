/** The optional value used for results that may be absent (JavaScript's
    `undefined` and `NaN`). */
module Wrappers {
  datatype Option<+T> = None | Some(value: T)
}
