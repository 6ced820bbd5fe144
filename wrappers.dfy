/** A value that may be absent: JavaScript's `undefined` (or an optional
    property that is not there) is `None`. */
module Wrappers {

  datatype Option<+T> = None | Some(value: T)
}
