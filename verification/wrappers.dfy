/** Option, used for JavaScript values that may be `null`/`undefined` and for
    library calls that may throw. */
module Wrappers {

  datatype Option<+T> = None | Some(value: T)
}
