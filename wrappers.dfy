/** The optional value used by the parsers (a JavaScript NaN or undefined becomes None). */
module Wrappers {

  datatype Option<+T> = None | Some(value: T)
}
