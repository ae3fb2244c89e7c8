/** The optional value used for every key that a record may lack. */
module Wrappers {

  /** `None` models a key that is absent (or `undefined`) in a JavaScript object. */
  datatype Option<+T> = None | Some(value: T)
}
