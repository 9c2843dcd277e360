/** The optional value used for SQL NULL, an empty selection and a failed parse. */
module Wrappers {

  datatype Option<+T> = None | Some(value: T)
}
