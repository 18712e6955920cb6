/** An optional value: None stands for JavaScript's null and undefined. */
module Wrappers {
  datatype Option<T> = None | Some(value: T)
}
