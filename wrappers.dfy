/** The optional value used wherever the JavaScript code returns `null`,
    reads an absent property, or finds no stored entry. */
module Wrappers {

  datatype Option<+T> = None | Some(value: T)
}
