/** An optional value: a JavaScript operation that produces nothing, or a text that does not read back. */
module Wrappers {

  datatype Option<T> = None | Some(value: T)
}
