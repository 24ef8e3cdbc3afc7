/** Bytes and the little-endian integers the wire formats are built from. */
module Bytes {
  newtype byte = x: int | 0 <= x < 256

  /** One past the largest `u32`; a length is cast with `as u32`, which keeps it modulo this. */
  const U32_RANGE: int := 0x1_0000_0000

  /** `n.to_le_bytes()` for a `u32`. */
  function Le32(n: nat): (r: seq<byte>)
    requires n < U32_RANGE
    ensures |r| == 4
  {
    [(n % 256) as byte, (n / 256 % 256) as byte, (n / 0x1_0000 % 256) as byte, (n / 0x100_0000) as byte]
  }

  /** `u32::from_le_bytes(b)`. */
  function FromLe32(b: seq<byte>): (n: nat)
    requires |b| == 4
    ensures n < U32_RANGE
  {
    b[0] as int + 256 * (b[1] as int) + 0x1_0000 * (b[2] as int) + 0x100_0000 * (b[3] as int)
  }

  lemma FromLe32OfLe32(n: nat)
    requires n < U32_RANGE
    ensures FromLe32(Le32(n)) == n
  {
    assert n == n % 256 + 256 * (n / 256);
    assert n / 256 == n / 256 % 256 + 256 * (n / 0x1_0000);
    assert n / 0x1_0000 == n / 0x1_0000 % 256 + 256 * (n / 0x100_0000);
  }

  lemma Le32OfFromLe32(b: seq<byte>)
    requires |b| == 4
    ensures Le32(FromLe32(b)) == b
  {
    var n := FromLe32(b);
    assert n % 256 == b[0] as int;
    assert n / 256 == b[1] as int + 256 * (b[2] as int) + 0x1_0000 * (b[3] as int);
    assert n / 0x1_0000 == b[2] as int + 256 * (b[3] as int);
    assert n / 0x100_0000 == b[3] as int;
  }

  /** `n.to_le_bytes()` for a `u64`. */
  function Le64(n: nat): (r: seq<byte>)
    requires n < U32_RANGE * U32_RANGE
    ensures |r| == 8
  {
    Le32(n % U32_RANGE) + Le32(n / U32_RANGE)
  }

  lemma Le64Injective(m: nat, n: nat)
    requires m < U32_RANGE * U32_RANGE && n < U32_RANGE * U32_RANGE
    requires Le64(m) == Le64(n)
    ensures m == n
  {
    assert Le64(m)[..4] == Le32(m % U32_RANGE) && Le64(n)[..4] == Le32(n % U32_RANGE);
    assert Le64(m)[4..] == Le32(m / U32_RANGE) && Le64(n)[4..] == Le32(n / U32_RANGE);
    FromLe32OfLe32(m % U32_RANGE);
    FromLe32OfLe32(n % U32_RANGE);
    FromLe32OfLe32(m / U32_RANGE);
    FromLe32OfLe32(n / U32_RANGE);
  }

  /** What bytes stand for, the least significant first. */
  function LittleEndian(b: seq<byte>): (n: nat)
  {
    if b == [] then 0 else b[0] as int + 256 * LittleEndian(b[1..])
  }

  lemma LittleEndianOfFour(b: seq<byte>)
    requires |b| == 4
    ensures LittleEndian(b) == FromLe32(b)
  {
    assert b[1..][1..] == b[2..] && b[2..][1..] == b[3..] && b[3..][1..] == [];
    assert LittleEndian(b[3..]) == b[3] as int;
    assert LittleEndian(b[2..]) == b[2] as int + 256 * LittleEndian(b[3..]);
    assert LittleEndian(b[1..]) == b[1] as int + 256 * LittleEndian(b[2..]);
  }

  /** The order of the bytes on the wire. */
  lemma Le32IsLittleEndian(n: nat)
    requires n < U32_RANGE
    ensures LittleEndian(Le32(n)) == n
  {
    hide LittleEndian;
    LittleEndianOfFour(Le32(n));
    FromLe32OfLe32(n);
  }
}
