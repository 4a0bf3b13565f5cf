/** Bytes, and the little-endian 32-bit words that the kernel writes. */
module Bytes {
  newtype Byte = x: int | 0 <= x < 256

  function LittleEndian(bytes: seq<Byte>): nat {
    if bytes == [] then 0 else bytes[0] as nat + 256 * LittleEndian(bytes[1..])
  }

  function Word32(bytes: seq<Byte>, p: nat): nat
    requires p + 4 <= |bytes|
  {
    LittleEndian(bytes[p..p + 4])
  }

  /** The four bytes as digits to the base 256, the lowest first. */
  function Spelled32(n: nat): seq<Byte>
    requires n < 0x1_0000_0000
  {
    [(n % 256) as Byte, (n / 256 % 256) as Byte, (n / 65536 % 256) as Byte, (n / 16777216) as Byte]
  }

  /** A 32-bit word that is put into a buffer, its lowest byte first, is read back, wherever it is. */
  lemma Word32Exactly(before: seq<Byte>, n: nat, rest: seq<Byte>)
    requires n < 0x1_0000_0000
    ensures Word32(before + Spelled32(n) + rest, |before|) == n
  {
    var buffer, four := before + Spelled32(n) + rest, Spelled32(n);
    assert buffer[|before|..|before| + 4] == four == [four[0], four[1], four[2], four[3]];
    FourBytes(four[0], four[1], four[2], four[3]);
    FourDigits(n);
  }

  lemma FourBytes(a: Byte, b: Byte, c: Byte, d: Byte)
    ensures LittleEndian([a, b, c, d]) == a as nat + 256 * (b as nat + 256 * (c as nat + 256 * d as nat))
  {
    assert [d][1..] == [] && LittleEndian([d]) == d as nat;
    assert [c, d][1..] == [d] && LittleEndian([c, d]) == c as nat + 256 * d as nat;
    assert [b, c, d][1..] == [c, d];
    assert LittleEndian([b, c, d]) == b as nat + 256 * (c as nat + 256 * d as nat);
    assert [a, b, c, d][1..] == [b, c, d];
  }

  lemma FourDigits(n: nat)
    requires n < 0x1_0000_0000
    ensures n % 256 + 256 * (n / 256 % 256 + 256 * (n / 65536 % 256 + 256 * (n / 16777216))) == n
  {
    var a, b := n / 256, n / 65536;
    assert a / 256 == b && b / 256 == n / 16777216;
  }
}
