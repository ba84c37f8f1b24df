/** The optional value the source expresses with `null` and `java.util.Optional`. */
module Wrappers {

  datatype Option<+T> = None | Some(value: T)
}
