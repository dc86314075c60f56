/** The optional value the model uses for JavaScript's `null`, `undefined` and absent fields. */
module Wrappers {

  datatype Option<+T> = None | Some(value: T)
}
