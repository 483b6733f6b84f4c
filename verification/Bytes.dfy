/** Bytes, optional values and the 16-bit big-endian integers used by both wire formats. */
module Bytes {

  type byte = b: int | 0 <= b < 256

  datatype Option<+T> = None | Some(value: T)

  function Min(a: int, b: int): int {
    if a <= b then a else b
  }

  /** binary.BigEndian.Uint16 */
  function Uint16(s: seq<byte>): (n: nat)
    requires |s| == 2
    ensures n < 0x10000
  {
    256 * (s[0] as int) + s[1] as int
  }

  /** binary.BigEndian.PutUint16; the postcondition is the round trip. */
  function PutUint16(n: nat): (s: seq<byte>)
    requires n < 0x10000
    ensures |s| == 2 && Uint16(s) == n
  {
    [n / 256, n % 256]
  }

  lemma PutInvertsGet(s: seq<byte>)
    requires |s| == 2
    ensures PutUint16(Uint16(s)) == s
  {
    assert Uint16(s) / 256 == s[0] && Uint16(s) % 256 == s[1];
  }
}
