/** The UTF-8 form of a journal line, which damage records measure in bytes (RFC 3629). */
module Utf8 {
  import Store

  /** Section 3 of RFC 3629. */
  function Bytes(c: char): seq<int> {
    var n := c as int;
    if n < 0x80 then [n]
    else if n < 0x800 then [0xC0 + n / 64, 0x80 + n % 64]
    else if n < 0x1_0000 then [0xE0 + n / 4096, 0x80 + n / 64 % 64, 0x80 + n % 64]
    else [0xF0 + n / 262144, 0x80 + n / 4096 % 64, 0x80 + n / 64 % 64, 0x80 + n % 64]
  }

  /** The code point that bytes stand for: the lead byte says how many follow. */
  function CodePoint(bytes: seq<int>): int {
    if |bytes| == 1 && bytes[0] < 0x80 then bytes[0]
    else if |bytes| == 2 && 0xC0 <= bytes[0] < 0xE0 then (bytes[0] - 0xC0) * 64 + (bytes[1] - 0x80)
    else if |bytes| == 3 && 0xE0 <= bytes[0] < 0xF0 then
      (bytes[0] - 0xE0) * 4096 + (bytes[1] - 0x80) * 64 + (bytes[2] - 0x80)
    else if |bytes| == 4 && 0xF0 <= bytes[0] < 0xF8 then
      (bytes[0] - 0xF0) * 262144 + (bytes[1] - 0x80) * 4096 + (bytes[2] - 0x80) * 64 + (bytes[3] - 0x80)
    else -1
  }

  lemma Places(n: nat)
    ensures n / 64 * 64 + n % 64 == n
    ensures n / 4096 * 64 + n / 64 % 64 == n / 64
    ensures n / 262144 * 64 + n / 4096 % 64 == n / 4096
  {
    assert n / 64 / 64 == n / 4096 && n / 4096 / 64 == n / 262144;
  }

  /** Every character has its own bytes, each below 256. */
  lemma BytesBack(c: char)
    ensures CodePoint(Bytes(c)) == c as int
    ensures forall i :: 0 <= i < |Bytes(c)| ==> Bytes(c)[i] < 256
  {
    Places(c as int);
  }

  function Text(s: string): seq<int> {
    if s == "" then [] else Bytes(s[0]) + Text(s[1..])
  }

  /** A damage record's size is the number of bytes of the line in UTF-8. */
  lemma {:induction false} LengthExact(s: string)
    ensures Store.Utf8Length(s) == |Text(s)|
  {
    if s != "" {
      LengthExact(s[1..]);
    }
  }
}
