/** Bytes, little-endian integers and the bit tests the header code performs on Python ints. */
module Bytes {

  type byte = x: int | 0 <= x < 256

  /** 256 to the power n: the number of values an n-byte little-endian integer can hold. */
  function Pow256(n: nat): (r: nat)
    ensures r >= 1
  {
    if n == 0 then 1 else 256 * Pow256(n - 1)
  }

  /** `int.from_bytes(b, "little")`: any length, the empty sequence gives 0. */
  function FromLE(b: seq<byte>): (r: nat)
    ensures r < Pow256(|b|)
  {
    if b == [] then 0 else b[0] + 256 * FromLE(b[1..])
  }

  /** `x.to_bytes(n, "little")`, defined where Python does not raise OverflowError. */
  function ToLE(x: nat, n: nat): (r: seq<byte>)
    requires x < Pow256(n)
    ensures |r| == n
  {
    if n == 0 then [] else [x % 256] + ToLE(x / 256, n - 1)
  }

  lemma {:induction false} FromToLE(x: nat, n: nat)
    requires x < Pow256(n)
    ensures FromLE(ToLE(x, n)) == x
  {
    if n > 0 {
      FromToLE(x / 256, n - 1);
      assert ToLE(x, n)[1..] == ToLE(x / 256, n - 1);
    }
  }

  lemma {:induction false} ToFromLE(b: seq<byte>)
    ensures ToLE(FromLE(b), |b|) == b
  {
    if b != [] {
      ToFromLE(b[1..]);
      assert FromLE(b) % 256 == b[0];
      assert FromLE(b) / 256 == FromLE(b[1..]);
    }
  }

  /** Two-byte and four-byte little-endian reads, as the header code performs them. */
  lemma LE16(b0: byte, b1: byte)
    ensures FromLE([b0, b1]) == b0 as int + 256 * (b1 as int)
  {
    assert [b0, b1][1..] == [b1];
    assert [b1][1..] == [];
  }

  lemma {:induction false} ToLE2(x: nat)
    requires x < 0x1_0000
    ensures Pow256(2) == 0x1_0000
    ensures ToLE(x, 2) == [x % 256, x / 256]
  {
    Pow256Values();
  }

  lemma Pow256Values()
    ensures Pow256(1) == 0x100 && Pow256(2) == 0x1_0000 && Pow256(4) == 0x1_0000_0000
  {
    assert Pow256(3) == 0x100_0000;
  }

  /** `x & mask != 0` for a one-bit mask, on a Python int of any sign (floor shift). */
  predicate HasBit(x: int, mask: nat)
    requires mask > 0
  {
    (x / mask) % 2 == 1
  }

  /** `x | mask` for a one-bit mask. */
  function WithBit(x: int, mask: nat): (r: int)
    requires mask > 0
    ensures HasBit(x, mask) ==> r == x
    ensures !HasBit(x, mask) ==> r == x + mask
  {
    if HasBit(x, mask) then x else x + mask
  }
}
