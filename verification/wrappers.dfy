/** The optional value used wherever the modelled code may produce "nothing":
    a regular expression that does not match, or a SQL NULL. */
module Wrappers {

  datatype Option<+T> = None | Some(value: T)
}
