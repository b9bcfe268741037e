/** The optional-value datatype used for absent data: a failed fetch, an
    absent description, an absent avatar, an input that does not parse. */
module Wrappers {

  datatype Option<+T> = None | Some(value: T)

}
