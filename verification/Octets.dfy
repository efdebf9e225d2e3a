/** Bytes as numbers, for the encodings of messages. */
module Octets {
  type Byte = b: int | 0 <= b < 256 witness 0
  type Bytes = seq<Byte>

  datatype Option<+T> = None | Some(value: T)
}
