/** `librustzcash_xor` of src/rustzcash.rs and its unit test. */
module Xor {

  import opened Limbs

  /** `a ^ b` on two `uint64_t` values: each bit of the result is set exactly
      when the two inputs differ in it. */
  function Xor(a: Limb, b: Limb): (r: Limb)
    ensures forall k: bv64 :: k < 64 ==> (Bit(r, k) <==> Bit(a, k) != Bit(b, k))
  {
    XorBits(a, b);
    a ^ b
  }

  /** Under a one-bit mask, xor is inequality. */
  lemma XorMask(a: Limb, b: Limb, m: Limb)
    requires m != 0 && m & (m - 1) == 0
    ensures ((a ^ b) & m > 0) <==> ((a & m > 0) != (b & m > 0))
  {
  }

  lemma OneBitMask(k: bv64)
    requires k < 64
    ensures (1 as Limb) << k != 0 && ((1 as Limb) << k) & (((1 as Limb) << k) - 1) == 0
  {
  }

  lemma XorBits(a: Limb, b: Limb)
    ensures forall k: bv64 :: k < 64 ==> (Bit(a ^ b, k) <==> Bit(a, k) != Bit(b, k))
  {
    forall k: bv64 | k < 64 ensures Bit(a ^ b, k) <==> Bit(a, k) != Bit(b, k) {
      OneBitMask(k);
      XorMask(a, b, (1 as Limb) << k);
      MaskBit(a ^ b, k);
      MaskBit(a, k);
      MaskBit(b, k);
    }
  }

  /** Xoring with the same value twice gives the first value back. */
  lemma XorSelfInverse(a: Limb, b: Limb)
    ensures Xor(Xor(a, b), b) == a
  {
  }

  /** The order of the operands does not matter. */
  lemma XorCommutes(a: Limb, b: Limb)
    ensures Xor(a, b) == Xor(b, a)
  {
  }

  /** The vector of `test_xor`. */
  lemma XorTestVector()
    ensures Xor(0x0f0f0f0f0f0f0f0f, 0x1111111111111111) == 0x1e1e1e1e1e1e1e1e
  {
  }
}
