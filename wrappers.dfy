/** The absent-or-present value used for the storage slot: `None` is a key that
    holds nothing, `Some(v)` a key that holds `v`. */
module Wrappers {

  datatype Option<+T> = None | Some(value: T)
}
