/** The functions of section 4.1.2 of FIPS 180-4 on 32-bit words, and what they do to each bit. */
module WordBits {

  type bits = bv32

  function ChBits(x: bits, y: bits, z: bits): bits { (x & y) ^ (!x & z) }
  function MajBits(x: bits, y: bits, z: bits): bits { (x & y) ^ (x & z) ^ (y & z) }

  // With the circular right shift of section 3.2 written out.

  function BigSigma0Bits(x: bits): bits {
    ((x >> 2) | (x << 30)) ^ ((x >> 13) | (x << 19)) ^ ((x >> 22) | (x << 10))
  }

  function BigSigma1Bits(x: bits): bits {
    ((x >> 6) | (x << 26)) ^ ((x >> 11) | (x << 21)) ^ ((x >> 25) | (x << 7))
  }

  function SmallSigma0Bits(x: bits): bits {
    ((x >> 7) | (x << 25)) ^ ((x >> 18) | (x << 14)) ^ (x >> 3)
  }

  function SmallSigma1Bits(x: bits): bits {
    ((x >> 17) | (x << 15)) ^ ((x >> 19) | (x << 13)) ^ (x >> 10)
  }

  /** `x` chooses, bit by bit: `y` where it is set, `z` where it is not. */
  lemma ChChooses(x: bits, y: bits, z: bits, r: bits)
    requires r == ChBits(x, y, z)
    ensures r & x == y & x && r & !x == z & !x
  {
  }

  /** Where two agree they win, and elsewhere the third decides. */
  lemma MajDecides(x: bits, y: bits, z: bits, r: bits)
    requires r == MajBits(x, y, z)
    ensures (r ^ x) & !(x ^ y) == 0 && (r ^ z) & (x ^ y) == 0
  {
  }

  // Of two copies of a word side by side, a rotation shows one stretch of 32 bits.

  lemma BigSigma0Turns(x: bits, r: bits)
    requires r == BigSigma0Bits(x)
    ensures
      var xx := ((x as bv64) << 32) | (x as bv64);
      r as bv64 == ((xx >> 2) ^ (xx >> 13) ^ (xx >> 22)) & 0xFFFF_FFFF
  {
  }

  lemma BigSigma1Turns(x: bits, r: bits)
    requires r == BigSigma1Bits(x)
    ensures
      var xx := ((x as bv64) << 32) | (x as bv64);
      r as bv64 == ((xx >> 6) ^ (xx >> 11) ^ (xx >> 25)) & 0xFFFF_FFFF
  {
  }

  lemma SmallSigma0Turns(x: bits, r: bits)
    requires r == SmallSigma0Bits(x)
    ensures
      var xx := ((x as bv64) << 32) | (x as bv64);
      r as bv64 == (((xx >> 7) ^ (xx >> 18)) & 0xFFFF_FFFF) ^ ((x as bv64) >> 3)
  {
  }

  lemma SmallSigma1Turns(x: bits, r: bits)
    requires r == SmallSigma1Bits(x)
    ensures
      var xx := ((x as bv64) << 32) | (x as bv64);
      r as bv64 == (((xx >> 17) ^ (xx >> 19)) & 0xFFFF_FFFF) ^ ((x as bv64) >> 10)
  {
  }
}
