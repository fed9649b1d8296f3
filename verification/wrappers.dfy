/** Absence of a value: a line the parsers skip, a division Python refuses. */
module Wrappers {

  datatype Option<+T> = None | Some(value: T)

}
