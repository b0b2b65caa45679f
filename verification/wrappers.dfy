/** The nullable marker of the source (`null` or a dialog) as an Option. */
module Wrappers {

  datatype Option<+T> = None | Some(value: T)
}
