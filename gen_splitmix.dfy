/**
 * The seeding engine `splitmix64<state_type>` of include/generators.hpp.
 * It keeps a 64-bit Weyl counter `split_seed` whatever the state type, and
 * returns a `state_type` word:
 *
 *  - for `uint64_t` it is exactly the SplitMix64 draw of module SplitMix;
 *  - for `uint32_t` the counter is truncated to 32 bits before mixing, and
 *    each 64-bit multiply is truncated back to 32 bits, which amounts to
 *    multiplying by the low halves of the two mixing constants.
 *
 * The xoroshiro128 and JSF engines of the same header seed themselves
 * from draws of this engine.
 */
module GenSplitMix {
  import opened Words
  import opened Streams
  import SplitMix

  /**
   * `split_seed = uint64_t(seed_array[0]) << 32 | seed_array[1]` when the
   * entropy words are 64-bit: w0 loses its high half and all of w1 is
   * or-ed in, so the high half of the seed mixes w0's low half with w1's
   * high half.
   */
  function SeedOf64(w0: bv64, w1: bv64): (s: bv64)
    ensures Lo32(s) == Lo32(w1)
    ensures Lo32(s >> 32) == Lo32(w0) | Lo32(w1 >> 32)
  {
    (w0 << 32) | w1
  }

  /**
   * The 32-bit mix, one round per assignment to `z`.  In the code each
   * multiply is a 64-bit multiply of a 32-bit word, truncated on
   * assignment; First32AsWritten and Mid32AsWritten show the rounds below
   * compute the same words.
   */
  function Mix32(z: bv32): bv32
  {
    Last32(Mid32(First32(z)))
  }

  function First32(z: bv32): bv32
  {
    (z ^ (z >> 30)) * 0x1CE4_E5B9
  }

  function Mid32(z: bv32): bv32
  {
    (z ^ (z >> 27)) * 0x1331_11EB
  }

  function Last32(z: bv32): bv32
  {
    z ^ (z >> 31)
  }

  // A truncated product depends only on the low halves of its factors, so
  // the two multiplies amount to multiplying by the low halves 0x1CE4E5B9
  // and 0x133111EB of the constants, which is how the rounds are written
  // above.  The code's own form: a 64-bit product of the promoted word by
  // the full constant, truncated to 32 bits.

  lemma First32AsWritten(z: bv32)
    ensures First32(z) == Lo32((z ^ (z >> 30)) as bv64 * 0xBF58_476D_1CE4_E5B9)
  {
  }

  lemma Mid32AsWritten(z: bv32)
    ensures Mid32(z) == Lo32((z ^ (z >> 27)) as bv64 * 0x94D0_49BB_1331_11EB)
  {
  }

  // Both truncated constants are odd, so each round is still a bijection
  // of 32-bit words; 0x3F119089 and 0xD24D8EC3 are their inverses modulo 2^32.

  function UnFirst32(w: bv32): bv32
  {
    var z := w * 0x3F11_9089;
    z ^ (z >> 30)
  }

  function UnMid32(w: bv32): bv32
  {
    var z := w * 0xD24D_8EC3;
    z ^ (z >> 27)
  }

  function UnLast32(w: bv32): bv32
  {
    w ^ (w >> 31)
  }

  /** The inverse of the 32-bit mix. */
  function Unmix32(w: bv32): bv32
  {
    UnFirst32(UnMid32(UnLast32(w)))
  }

  lemma UnFirst32Of(y: bv32)
    ensures UnFirst32((y ^ (y >> 30)) * 0x1CE4_E5B9) == y
  {
  }

  lemma UnMid32Of(y: bv32)
    ensures UnMid32((y ^ (y >> 27)) * 0x1331_11EB) == y
  {
  }

  lemma UnLast32Of(y: bv32)
    ensures UnLast32(y ^ (y >> 31)) == y
  {
  }

  lemma First32RoundTrip(z: bv32)
    ensures UnFirst32(First32(z)) == z
  {
    UnFirst32Of(z);
  }

  lemma Mid32RoundTrip(z: bv32)
    ensures UnMid32(Mid32(z)) == z
  {
    UnMid32Of(z);
  }

  lemma Last32RoundTrip(z: bv32)
    ensures UnLast32(Last32(z)) == z
  {
    UnLast32Of(z);
  }

  /** The 32-bit mix loses nothing. */
  lemma Mix32RoundTrip(z: bv32)
    ensures Unmix32(Mix32(z)) == z
  {
    Last32RoundTrip(Mid32(First32(z)));
    Mid32RoundTrip(First32(z));
    First32RoundTrip(z);
  }

  /** The value a 32-bit draw returns from counter s: the mix of the low half of s + GAMMA. */
  function Output32(s: bv64): bv32
  {
    Mix32(Lo32(SplitMix.Advance(s)))
  }

  /** Two 32-bit draws agree exactly when the low halves of their counters do. */
  lemma Output32Determines(a: bv64, b: bv64)
    ensures Output32(a) == Output32(b) <==> Lo32(SplitMix.Advance(a)) == Lo32(SplitMix.Advance(b))
  {
    Mix32RoundTrip(Lo32(SplitMix.Advance(a)));
    Mix32RoundTrip(Lo32(SplitMix.Advance(b)));
  }

  /** `splitmix64<uint64_t>`. */
  class SplitMixU64 {
    var splitSeed: bv64

    /** The constructor packs the two 64-bit entropy words. */
    constructor (w0: bv64, w1: bv64)
      ensures splitSeed == SeedOf64(w0, w1)
    {
      splitSeed := SeedOf64(w0, w1);
    }

    /** `z = (split_seed += GAMMA)`, then the mix of z. */
    method GetRand() returns (r: bv64)
      modifies this
      ensures splitSeed == SplitMix.Advance(old(splitSeed))
      ensures r == SplitMix.Output(old(splitSeed))
    {
      splitSeed := SplitMix.Advance(splitSeed);
      var z := splitSeed;
      r := SplitMix.Mix(z);
    }

    /** `operator()`: the same draw as GetRand. */
    method Call() returns (r: bv64)
      modifies this
      ensures splitSeed == SplitMix.Advance(old(splitSeed))
      ensures r == SplitMix.Output(old(splitSeed))
    {
      r := GetRand();
    }
  }

  /** `splitmix64<uint32_t>`. */
  class SplitMixU32 {
    var splitSeed: bv64

    /** The constructor packs the two 32-bit entropy words high then low. */
    constructor (w0: bv32, w1: bv32)
      ensures splitSeed == Join32(w0, w1)
    {
      splitSeed := Join32(w0, w1);
    }

    /** The counter still advances by the full 64-bit GAMMA; only z is truncated. */
    method GetRand() returns (r: bv32)
      modifies this
      ensures splitSeed == SplitMix.Advance(old(splitSeed))
      ensures r == Output32(old(splitSeed))
    {
      splitSeed := SplitMix.Advance(splitSeed);
      var z := Lo32(splitSeed);
      r := Mix32(z);
    }

    /** `operator()`: the same draw as GetRand. */
    method Call() returns (r: bv32)
      modifies this
      ensures splitSeed == SplitMix.Advance(old(splitSeed))
      ensures r == Output32(old(splitSeed))
    {
      r := GetRand();
    }
  }
}
