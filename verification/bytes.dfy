/**
 Byte strings. A Go `string` is an immutable sequence of bytes with no
 guaranteed encoding; every string the extractor handles (tag names,
 attribute keys and values, text payloads, output fields) is modelled as one.
 */
module Bytes {

  /** One byte, as the unsigned value Go's `byte` holds. */
  type Byte = b: int | 0 <= b < 256

  type Bytes = seq<Byte>

  /** The byte that encodes a character of the ASCII range. */
  function ByteOf(c: char): Byte
  {
    c as int % 256
  }

  /** Spells an ASCII string literal as the bytes Go stores for it. */
  function Ascii(s: string): (r: Bytes)
    ensures |r| == |s|
    ensures forall i :: 0 <= i < |s| ==> r[i] == ByteOf(s[i])
  {
    seq(|s|, i requires 0 <= i < |s| => ByteOf(s[i]))
  }

  /** A UTF-8 continuation byte has the bit pattern 0b10xxxxxx: its value
      shifted right by six bits is 2. */
  predicate IsContinuation(b: Byte)
  {
    b / 64 == 2
  }

  predicate IsPrefix(p: Bytes, s: Bytes)
  {
    |p| <= |s| && p == s[..|p|]
  }
}
