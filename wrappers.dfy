/** Option, the value-or-nothing type used for absent JSON fields and failed lookups. */
module Wrappers {

  datatype Option<+T> = None | Some(value: T)
}
