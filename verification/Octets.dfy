/** Bytes, for the modules that work on packet contents. */
module Octets {
  newtype Byte = x: int | 0 <= x < 256

  /** `lwip_tolower`. */
  function Lower(c: Byte): Byte {
    if 65 <= c <= 90 then c + 32 else c
  }
}
