/** The usual optional value: a JavaScript `undefined`/`null` or a found element. */
module Wrappers {
  datatype Option<+T> = None | Some(value: T)
}
