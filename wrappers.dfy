/** The optional values of the contact records: a missing email, phone number or link. */
module Wrappers {

  datatype Option<+T> = None | Some(value: T)
}
