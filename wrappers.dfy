/** The optional value used wherever the formatter returns `undefined` or an
    option key may be missing. */
module Wrappers {

  datatype Option<+T> = None | Some(value: T)
}
