/** Single-bit views of the bytes the panel driver packs pixels into. */
module Bits {

  /** The one-hot byte `1u << k`, for a bit position k in 0..7. */
  function Mask(k: int): (m: bv8)
    requires 0 <= k < 8
  {
    if k == 0 then 0x01
    else if k == 1 then 0x02
    else if k == 2 then 0x04
    else if k == 3 then 0x08
    else if k == 4 then 0x10
    else if k == 5 then 0x20
    else if k == 6 then 0x40
    else 0x80
  }

  /** `b & (1u << k)` is non-zero. */
  predicate Bit(b: bv8, k: int)
    requires 0 <= k < 8
  {
    b & Mask(k) != 0
  }

  /** `b | (1u << k)`: turns bit k on and leaves the other seven alone. */
  function SetBit(b: bv8, k: int): (r: bv8)
    requires 0 <= k < 8
    ensures forall j :: 0 <= j < 8 ==> Bit(r, j) == (j == k || Bit(b, j))
  {
    b | Mask(k)
  }

  /** `b & ~(1u << k)`: turns bit k off and leaves the other seven alone. */
  function ClearBit(b: bv8, k: int): (r: bv8)
    requires 0 <= k < 8
    ensures forall j :: 0 <= j < 8 ==> Bit(r, j) == (j != k && Bit(b, j))
  {
    b & !Mask(k)
  }

  /** A byte is determined by its eight bits. */
  lemma BitsDetermineByte(a: bv8, b: bv8)
    requires forall k :: 0 <= k < 8 ==> Bit(a, k) == Bit(b, k)
    ensures a == b
  {
    assert Bit(a, 0) == Bit(b, 0) && Bit(a, 1) == Bit(b, 1);
    assert Bit(a, 2) == Bit(b, 2) && Bit(a, 3) == Bit(b, 3);
    assert Bit(a, 4) == Bit(b, 4) && Bit(a, 5) == Bit(b, 5);
    assert Bit(a, 6) == Bit(b, 6) && Bit(a, 7) == Bit(b, 7);
  }

  /** The zero byte has no bit set. */
  lemma ZeroHasNoBits()
    ensures forall k :: 0 <= k < 8 ==> !Bit(0, k)
  {
  }
}
