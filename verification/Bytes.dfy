/** Bytes and the ASCII characters the broker's text formats use. */
module Bytes {

  type Byte = b: int | 0 <= b < 256
  type Bytes = seq<Byte>

  const TAB: Byte := 9
  const LF: Byte := 10
  const CR: Byte := 13
  const SP: Byte := 32
  const STAR: Byte := 42
  const DOT: Byte := 46
  const ZERO: Byte := 48
  const GREATER: Byte := 62

  const CRLF: Bytes := [CR, LF]

  /** The bytes of an ASCII text. */
  function Ascii(s: string): (b: Bytes)
    ensures |b| == |s|
  {
    seq(|s|, (i: nat) requires i < |s| => if s[i] < 128 as char then s[i] as int else 63)
  }
}
