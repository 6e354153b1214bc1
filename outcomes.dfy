/** Optional values, used for Go's `(value, ok)` returns and nil-or-error results. */
module Outcomes {

  datatype Option<+T> = None | Some(value: T)
}
