/** An optional value: a result that may be missing because the operation raised. */
module Wrappers {
  datatype Option<T> = None | Some(value: T)
}
