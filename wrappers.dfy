/** Small shared types: the usual optional-value datatype and an 8-bit byte. */
module Wrappers {
  datatype Option<+T> = None | Some(value: T)

  /** One 8-bit byte: an uploaded file's data, or one channel of a colour. */
  newtype byte = x: int | 0 <= x < 256
}
