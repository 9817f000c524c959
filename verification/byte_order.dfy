/** Bytes and big-endian numbers, shared by the binary formats. */
module ByteOrder {

  type Byte = b: int | 0 <= b < 0x100
  type U16 = n: int | 0 <= n < 0x1_0000
  type Bytes = seq<Byte>

  function U16Bytes(n: U16): Bytes {
    [n / 0x100, n % 0x100]
  }

  function U16Of(hi: Byte, lo: Byte): U16 {
    hi * 0x100 + lo
  }

  function Pow256(n: nat): (p: nat)
    ensures p >= 1
  {
    if n == 0 then 1 else 0x100 * Pow256(n - 1)
  }

  /** The low `width` bytes of `v`, the highest first. */
  function BigEndian(v: nat, width: nat): (r: Bytes)
    ensures |r| == width
  {
    if width == 0 then [] else BigEndian(v / 0x100, width - 1) + [v % 0x100]
  }

  function ValueOf(bytes: Bytes): nat {
    if bytes == [] then 0 else ValueOf(bytes[..|bytes| - 1]) * 0x100 + bytes[|bytes| - 1]
  }

  lemma {:induction false} BigEndianRoundTrip(v: nat, width: nat)
    requires v < Pow256(width)
    ensures ValueOf(BigEndian(v, width)) == v
  {
    if width > 0 {
      BigEndianRoundTrip(v / 0x100, width - 1);
      assert BigEndian(v, width)[..width - 1] == BigEndian(v / 0x100, width - 1);
    }
  }
}
