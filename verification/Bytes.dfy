/** Bytes, the unit of every stream and file. */
module Bytes {
  newtype Byte = b: int | 0 <= b < 256
}
