/** The optional-value type shared by the SOAP and mail modules. */
module Wrappers {

  datatype Option<+T> = None | Some(value: T)

}
