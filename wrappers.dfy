/** The optional value used for a node's parent link and its lazily filled
    untried-action cache (`None` in the source). */
module Wrappers {
  datatype Option<+T> = None | Some(value: T)
}
