// Bytes and byte strings.

module Bytes {
  type byte = b: int | 0 <= b < 256

  type bytes = seq<byte>
}
