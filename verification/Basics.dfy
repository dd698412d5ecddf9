/** What several components share. */
module Basics {
  type Byte = b: nat | b < 256

  type Word = w: nat | w < 65536

  datatype Option<+T> = None | Some(value: T)
}
