/** An optional value: `None` stands for JavaScript's `undefined` (a missing property, an unset filter). */
module Wrappers {
  datatype Option<+T> = None | Some(value: T)
}
