/** Octets and the ASCII characters that stand for them. */
module Bytes {

  type byte = x: int | 0 <= x < 256

  /** True when `c` is a 7-bit ASCII character. */
  predicate IsAscii(c: char) {
    c as int < 128
  }

  /** The ASCII character whose code is `b`. */
  function AsciiChar(b: byte): (c: char)
    requires b < 128
    ensures IsAscii(c) && c as int == b
  {
    b as char
  }
}
