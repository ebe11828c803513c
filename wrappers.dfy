/** The optional value used for absent fields, missing records and failed searches. */
module Wrappers {
  datatype Option<+T> = None | Some(value: T)
}
