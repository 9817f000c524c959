/** IPv4 addresses as 32-bit numbers: octets, prefixes and blocks. */
module AddressBits {
  import opened Basics
  import opened ByteOrder

  type U32 = n: int | 0 <= n < 0x1_0000_0000

  function Ip(a: Byte, b: Byte, c: Byte, d: Byte): U32 {
    a * 0x100_0000 + b * 0x1_0000 + c * 0x100 + d
  }

  function Octets(ip: U32): (r: Bytes)
    ensures |r| == 4
  {
    [ip / 0x100_0000, ip / 0x1_0000 % 0x100, ip / 0x100 % 0x100, ip % 0x100]
  }

  function Pow2(n: nat): (p: int)
    ensures p >= 1
  {
    if n == 0 then 1 else 2 * Pow2(n - 1)
  }

  /** `v & (u32::MAX << (32 - prefix))`: the low bits cleared. A prefix of zero clears everything. */
  function Masked(v: U32, prefix: nat): (r: int)
    requires prefix <= 32
  {
    if prefix == 0 then 0 else v / Pow2(32 - prefix) * Pow2(32 - prefix)
  }

  lemma DivideTwice(v: U32)
    ensures v / 0x100 / 0x100 == v / 0x1_0000 && v / 0x1_0000 / 0x100 == v / 0x100_0000
  {
  }

  lemma OctetsRoundTrip(ip: U32)
    ensures var o := Octets(ip); Ip(o[0], o[1], o[2], o[3]) == ip
  {
    DivideTwice(ip);
    var x, y := ip / 0x100, ip / 0x1_0000;
    assert ip == x * 0x100 + ip % 0x100;
    assert x == y * 0x100 + x % 0x100;
    assert y == ip / 0x100_0000 * 0x100 + y % 0x100;
  }

  lemma Pow2Values()
    ensures Pow2(8) == 0x100 && Pow2(16) == 0x1_0000 && Pow2(17) == 0x2_0000 && Pow2(20) == 0x10_0000
    ensures Pow2(22) == 0x40_0000 && Pow2(24) == 0x100_0000 && Pow2(28) == 0x1000_0000 && Pow2(32) == 0x1_0000_0000
  {
    assert Pow2(4) == 0x10;
    assert Pow2(8) == 0x100;
    assert Pow2(12) == 0x1000;
    assert Pow2(16) == 0x1_0000;
    assert Pow2(20) == 0x10_0000;
    assert Pow2(24) == 0x100_0000;
    assert Pow2(28) == 0x1000_0000;
  }

  lemma {:induction false} Pow2Sum(m: nat, n: nat)
    ensures Pow2(m + n) == Pow2(m) * Pow2(n)
    decreases n
  {
    if n > 0 {
      Pow2Sum(m, n - 1);
      assert Pow2(m + n) == 2 * Pow2(m + n - 1);
    }
  }
}
