/** Well-formed UTF-8 (section 4 of RFC 3629): the byte strings `String::from_utf8` accepts. */
module Utf8 {
  import opened ByteCodec

  predicate Tail(b: byte) { 0x80 <= b <= 0xBF }

  /** Length of the well-formed character at the front of `b`, or 0 when there is none. */
  function CharLength(b: Bytes): (n: nat)
    requires b != []
    ensures n <= |b|
  {
    if b[0] <= 0x7F then 1
    else if |b| >= 2 && 0xC2 <= b[0] <= 0xDF && Tail(b[1]) then 2
    else if |b| >= 3 && 0xE0 <= b[0] <= 0xEF && Tail(b[1]) && Tail(b[2])
      && (b[0] == 0xE0 ==> b[1] >= 0xA0) && (b[0] == 0xED ==> b[1] <= 0x9F) then 3
    else if |b| >= 4 && 0xF0 <= b[0] <= 0xF4 && Tail(b[1]) && Tail(b[2]) && Tail(b[3])
      && (b[0] == 0xF0 ==> b[1] >= 0x90) && (b[0] == 0xF4 ==> b[1] <= 0x8F) then 4
    else 0
  }

  predicate ValidUtf8(b: Bytes)
    decreases |b|
  {
    b == [] || (CharLength(b) > 0 && ValidUtf8(b[CharLength(b)..]))
  }
}
