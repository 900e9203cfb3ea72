/** The absent-or-present value the components use for state that starts
    out as `null`. */
module Wrappers {
  datatype Option<T> = None | Some(value: T)
}
