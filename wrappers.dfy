/** Option, for values that may be missing (a NULL column, a row a query did not find). */
module Wrappers {
  datatype Option<+T> = None | Some(value: T)
}
