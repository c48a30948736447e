/** Bytes, machine integers, and the big-endian integers that the wire formats are made of. */
module Bytes {

  type byte = b: int | 0 <= b < 256

  type i64 = i: int | -0x8000_0000_0000_0000 <= i < 0x8000_0000_0000_0000

  type u64 = i: int | 0 <= i < 0x1_0000_0000_0000_0000

  /** The bits of a double that is neither infinite nor no number: its exponent is not all ones. */
  predicate Finite(bits: u64) {
    (bits / 0x10_0000_0000_0000) % 0x800 != 0x7FF
  }

  type FiniteBits = b: u64 | Finite(b)

  /** A number that fits 64 bits only without a sign. */
  type BigNumber = n: int | 0x8000_0000_0000_0000 <= n < 0x1_0000_0000_0000_0000 witness 0x8000_0000_0000_0000

  function Pow256(n: nat): (p: nat)
    ensures p >= 1
  {
    if n == 0 then 1 else 256 * Pow256(n - 1)
  }

  /** The low `n` bytes of `x` in two's complement, most significant byte first. */
  function BigEndian(n: nat, x: int): (s: seq<byte>)
    ensures |s| == n
  {
    if n == 0 then [] else BigEndian(n - 1, x / 256) + [x % 256]
  }

  function FromBigEndian(s: seq<byte>): (x: nat)
    ensures x < Pow256(|s|)
  {
    if s == [] then 0 else 256 * FromBigEndian(s[..|s| - 1]) + s[|s| - 1]
  }

  /** Two's complement reading of the same bytes. */
  function FromBigEndianSigned(s: seq<byte>): int {
    var u := FromBigEndian(s);
    if 2 * u < Pow256(|s|) then u else u - Pow256(|s|)
  }

  lemma {:induction false} BigEndianInverse(n: nat, x: int)
    requires 0 - Pow256(n) <= x < Pow256(n)
    ensures FromBigEndian(BigEndian(n, x)) == if x < 0 then x + Pow256(n) else x
  {
    if n > 0 {
      BigEndianInverse(n - 1, x / 256);
      assert BigEndian(n, x)[..n - 1] == BigEndian(n - 1, x / 256);
    }
  }

  lemma BigEndianSignedInverse(n: nat, x: int)
    requires 0 - Pow256(n) <= 2 * x < Pow256(n)
    ensures FromBigEndianSigned(BigEndian(n, x)) == x
  {
    BigEndianInverse(n, x);
  }

  lemma PowersOf256()
    ensures Pow256(1) == 0x100 && Pow256(2) == 0x1_0000 && Pow256(4) == 0x1_0000_0000
    ensures Pow256(8) == 0x1_0000_0000_0000_0000
  {
    assert Pow256(3) == 0x100_0000;
    assert Pow256(5) == 0x100_0000_0000;
    assert Pow256(6) == 0x1_0000_0000_0000;
    assert Pow256(7) == 0x100_0000_0000_0000;
  }
}
