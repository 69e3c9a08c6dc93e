/** The optional value used for JavaScript's `undefined` / `null` in the form editor's state. */
module Wrappers {

  datatype Option<+T> = None | Some(value: T)

}
