/** The optional value used for JavaScript's `null` / `undefined` / `NaN` cases. */
module Wrappers {

  datatype Option<+T> = None | Some(value: T)
}
