/** The optional value used for the browser storage slot: `None` when the
    key has never been written, `Some(v)` when it holds a snapshot. */
module Wrappers {

  datatype Option<+T> = None | Some(value: T)
}
