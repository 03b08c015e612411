/**
 * Machine-word helpers shared by the generator engines: the circular
 * rotations used by xoroshiro128+ and JSF, and the packing of two words
 * into a wider one that every entropy-seeded constructor performs.
 *
 * Rotation amounts are bit-vectors rather than ints: every call site in
 * the generators passes a small constant (or a JSF table entry), and a
 * bit-vector amount keeps the solver's job at word level.
 */
module Words {

  /** `rotl(x, k)` of the 64-bit xoroshiro128+ and JSF engines. */
  function Rotl64(x: bv64, k: bv64): bv64
    requires 0 < k < 64
  {
    (x << k) | (x >> (64 - k))
  }

  /** `rotl(x, k)` / `rotate(x, k)` on 32-bit state words. */
  function Rotl32(x: bv32, k: bv32): bv32
    requires 0 < k < 32
  {
    (x << k) | (x >> (32 - k))
  }

  /** High 64 bits of a 128-bit word: `(uint64_t)(v >> 64)`. */
  function Hi64(v: bv128): bv64
  {
    (v >> 64) as bv64
  }

  /** Low 64 bits of a 128-bit word: `(uint64_t)v`. */
  function Lo64(v: bv128): bv64
  {
    (v & 0xFFFF_FFFF_FFFF_FFFF) as bv64
  }

  /** Low 32 bits of a 64-bit word: `(uint32_t)v`. */
  function Lo32(v: bv64): bv32
  {
    (v & 0xFFFF_FFFF) as bv32
  }

  /** `(static_cast<__uint128_t>(hi) << 64) | lo`. */
  function Join64(hi: bv64, lo: bv64): (r: bv128)
    ensures Hi64(r) == hi && Lo64(r) == lo
  {
    ((hi as bv128) << 64) | (lo as bv128)
  }

  /** `(static_cast<uint64_t>(hi) << 32) | lo`. */
  function Join32(hi: bv32, lo: bv32): (r: bv64)
    ensures (r >> 32) == hi as bv64 && Lo32(r) == lo
  {
    ((hi as bv64) << 32) | (lo as bv64)
  }

  // Rotating left by k and then by W - k restores the word.  The
  // solver handles this per constant amount, so it is stated for the
  // amounts the engines use.

  lemma Rotl64By24Inverse(x: bv64)
    ensures Rotl64(Rotl64(x, 24), 40) == x
  {
  }

  lemma Rotl64By37Inverse(x: bv64)
    ensures Rotl64(Rotl64(x, 37), 27) == x
  {
  }

  lemma Rotl32By11Inverse(x: bv32)
    ensures Rotl32(Rotl32(x, 11), 21) == x
  {
  }

  /** A rotation is the built-in circular rotation, for the amounts used. */
  lemma Rotl64IsRotateLeft(x: bv64)
    ensures Rotl64(x, 24) == x.RotateLeft(24)
    ensures Rotl64(x, 37) == x.RotateLeft(37)
  {
  }

  lemma Rotl32IsRotateLeft(x: bv32)
    ensures Rotl32(x, 11) == x.RotateLeft(11)
  {
  }

  // Word arithmetic kept behind functions: the solver then compares two
  // sums, differences or XORs of state words by their arguments instead
  // of bit by bit.  Each cancellation law is proved first with the inner
  // operation written out, where the solver's rewriter closes it, and
  // then for the functions themselves.

  function X64(a: bv64, b: bv64): bv64
  {
    a ^ b
  }

  function X32(a: bv32, b: bv32): bv32
  {
    a ^ b
  }

  /** Wrapping addition modulo 2^64. */
  function Add64(a: bv64, b: bv64): bv64
  {
    a + b
  }

  /** Wrapping addition modulo 2^32. */
  function Add32(a: bv32, b: bv32): bv32
  {
    a + b
  }

  /** Wrapping subtraction modulo 2^64. */
  function Sub64(a: bv64, b: bv64): bv64
  {
    a - b
  }

  /** Wrapping subtraction modulo 2^32. */
  function Sub32(a: bv32, b: bv32): bv32
  {
    a - b
  }

  lemma SubAfterAddOf32(x: bv32, y: bv32)
    ensures Sub32(x + y, y) == x
  {
  }

  lemma AddAfterSubOf32(x: bv32, y: bv32)
    ensures Add32(x - y, y) == x
  {
  }

  lemma XorTwiceOf32(x: bv32, y: bv32)
    ensures X32(x ^ y, y) == x
  {
  }

  lemma SubAfterAdd32(x: bv32, y: bv32)
    ensures Sub32(Add32(x, y), y) == x
  {
    SubAfterAddOf32(x, y);
  }

  lemma AddAfterSub32(x: bv32, y: bv32)
    ensures Add32(Sub32(x, y), y) == x
  {
    AddAfterSubOf32(x, y);
  }

  lemma XorTwice32(x: bv32, y: bv32)
    ensures X32(X32(x, y), y) == x
  {
    XorTwiceOf32(x, y);
  }

  lemma SubAfterAddOf64(x: bv64, y: bv64)
    ensures Sub64(x + y, y) == x
  {
  }

  lemma AddAfterSubOf64(x: bv64, y: bv64)
    ensures Add64(x - y, y) == x
  {
  }

  lemma XorTwiceOf64(x: bv64, y: bv64)
    ensures X64(x ^ y, y) == x
  {
  }

  lemma SubAfterAdd64(x: bv64, y: bv64)
    ensures Sub64(Add64(x, y), y) == x
  {
    SubAfterAddOf64(x, y);
  }

  lemma AddAfterSub64(x: bv64, y: bv64)
    ensures Add64(Sub64(x, y), y) == x
  {
    AddAfterSubOf64(x, y);
  }

  lemma XorTwice64(x: bv64, y: bv64)
    ensures X64(X64(x, y), y) == x
  {
    XorTwiceOf64(x, y);
  }
}
