/** The optional value used for nullable references and failed driver queries. */
module Wrappers {

  datatype Option<+T> = None | Some(value: T)

}
