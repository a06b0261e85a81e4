/** The optional value used throughout the model for "found / not found" and
    for "a document could / could not be read". */
module Wrappers {
  datatype Option<+T> = None | Some(value: T)
}
