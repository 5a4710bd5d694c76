/** Option, standing in for JavaScript's `null`/`undefined` and for the `-1` of `findIndex`. */
module Wrappers {

  datatype Option<+T> = None | Some(value: T)
}
