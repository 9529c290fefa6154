/** The optional-value datatype used for the source's nullable values
    (`bool?`, `DateTime?`, `string?`, and a `TodoItem?` lookup result). */
module Wrappers {

  datatype Option<+T> = None | Some(value: T)
}
