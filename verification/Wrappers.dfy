/**
 An optional value, which every other module shares: what a lookup gives that
 may find nothing, and the value a JavaScript field may lack, an `Option` of
 Rust or a `null` of JavaScript.
 */
module Wrappers {
  datatype Option<T> = None | Some(value: T)
}
