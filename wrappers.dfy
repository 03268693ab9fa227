/** The optional-value datatype used where the modelled code returns
    `undefined` or skips an element. */
module Wrappers {

  datatype Option<+T> = None | Some(value: T)

}
