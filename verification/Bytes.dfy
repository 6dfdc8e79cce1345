/** Bytes and the big-endian integers of the wire format. */
module Bytes {
  type byte = x: int | 0 <= x < 256
  type u16 = x: int | 0 <= x < 0x1_0000
  type u32 = x: int | 0 <= x < 0x1_0000_0000

  // A byte read as a signed char or int8_t.
  function Signed(b: byte): int {
    if b < 128 then b else b - 256
  }

  function Put16(v: u16): (s: seq<byte>)
    ensures |s| == 2
  {
    [v / 256, v % 256]
  }

  function Put32(v: u32): (s: seq<byte>)
    ensures |s| == 4
  {
    Put16(v / 0x1_0000) + Put16(v % 0x1_0000)
  }

  function Get16(s: seq<byte>, at: nat): u16
    requires at + 2 <= |s|
  {
    var high: int := s[at];
    high * 256 + s[at + 1]
  }

  function Get32(s: seq<byte>, at: nat): u32
    requires at + 4 <= |s|
  {
    var high: int := Get16(s, at);
    high * 0x1_0000 + Get16(s, at + 2)
  }

  lemma Get16Put16(v: u16, a: seq<byte>, b: seq<byte>)
    ensures Get16(a + Put16(v) + b, |a|) == v
  {
  }

  lemma Get32Put32(v: u32, a: seq<byte>, b: seq<byte>)
    ensures Get32(a + Put32(v) + b, |a|) == v
  {
    assert a + Put32(v) + b == a + Put16(v / 0x1_0000) + (Put16(v % 0x1_0000) + b);
    Get16Put16(v / 0x1_0000, a, Put16(v % 0x1_0000) + b);
    assert a + Put32(v) + b == (a + Put16(v / 0x1_0000)) + Put16(v % 0x1_0000) + b;
    Get16Put16(v % 0x1_0000, a + Put16(v / 0x1_0000), b);
  }

  // What was read is what would be written.
  lemma Put16Get16(s: seq<byte>, at: nat)
    requires at + 2 <= |s|
    ensures Put16(Get16(s, at)) == s[at..at + 2]
  {
  }

  // The high byte comes first, and so does the high half.
  lemma BigEndian(a: byte, b: byte, c: byte, d: byte)
    ensures Get16([a, b], 0) == 256 * a + b && Put16(256 * a + b) == [a, b]
    ensures Get32([a, b, c, d], 0) == 0x100_0000 * a + 0x1_0000 * b + 0x100 * c + d
    ensures Put32(0x100_0000 * a + 0x1_0000 * b + 0x100 * c + d) == [a, b, c, d]
  {
    assert Put16(256 * a + b) == [a, b];
    assert Put16(256 * c + d) == [c, d];
  }

  // A signed char has the same bits: it differs by 0 or 256 and lies in -128..127.
  lemma SignedRange(b: byte)
    ensures -128 <= Signed(b) <= 127 && (b - Signed(b)) % 256 == 0
  {
  }
}
