/** The optional value used for Ruby's nil and Java's null throughout the model. */
module Wrappers {

  datatype Option<+T> = None | Some(value: T)
}
