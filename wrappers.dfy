/** Option: JavaScript's `null` result of the solver entry points. */
module Wrappers {
  datatype Option<T> = None | Some(value: T)
}
