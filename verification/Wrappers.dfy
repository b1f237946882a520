/** Small types used throughout. */
module Wrappers {
  /** Stands for SQL NULL, a missing row and a Go nil. */
  datatype Option<+T> = None | Some(value: T)

  type Byte = b: int | 0 <= b < 256
}
