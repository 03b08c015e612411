/**
 * SplitMix64 (Steele, Lea and Flood), the stand-alone engine of
 * include/generators/splitmix64.hpp.  The state is one 64-bit word that
 * advances by the odd constant GAMMA = 0x9E3779B97F4A7C15 (a Weyl sequence); each output is a
 * two-round xorshift-multiply mix of the new state.
 *
 * The mix is shared with the seeding engine of include/generators.hpp
 * (module GenSplitMix) and with the legacy `splitmix_seeder`.
 */
module SplitMix {
  import opened Words
  import opened Streams

  /** The finaliser applied to every new state. */
  function Mix(z: bv64): bv64
  {
    MixLast(MixMid(MixFirst(z)))
  }

  // The three rounds of the mix, each undone by its own inverse below.
  // Multiplying by an odd constant is a bijection of 64-bit words and an
  // xorshift by s > 0 is undone by xoring the shifts s, 2s, 3s, ...

  function MixFirst(z: bv64): bv64
  {
    (z ^ (z >> 30)) * 0xBF58_476D_1CE4_E5B9
  }

  function MixMid(z: bv64): bv64
  {
    (z ^ (z >> 27)) * 0x94D0_49BB_1331_11EB
  }

  function MixLast(z: bv64): bv64
  {
    z ^ (z >> 31)
  }

  function UnmixFirst(w: bv64): bv64
  {
    var z := w * 0x96DE_1B17_3F11_9089;
    z ^ (z >> 30) ^ (z >> 60)
  }

  function UnmixMid(w: bv64): bv64
  {
    var z := w * 0x3196_42B2_D24D_8EC3;
    z ^ (z >> 27) ^ (z >> 54)
  }

  function UnmixLast(w: bv64): bv64
  {
    w ^ (w >> 31) ^ (w >> 62)
  }

  /** The inverse of the mix. */
  function Unmix(w: bv64): bv64
  {
    UnmixFirst(UnmixMid(UnmixLast(w)))
  }

  // Each inverse is first checked on the explicit round it undoes; the
  // round trips then follow by unfolding the round once.

  lemma UnmixFirstOf(y: bv64)
    ensures UnmixFirst((y ^ (y >> 30)) * 0xBF58_476D_1CE4_E5B9) == y
  {
  }

  lemma UnmixMidOf(y: bv64)
    ensures UnmixMid((y ^ (y >> 27)) * 0x94D0_49BB_1331_11EB) == y
  {
  }

  lemma UnmixLastOf(y: bv64)
    ensures UnmixLast(y ^ (y >> 31)) == y
  {
  }

  lemma FirstRoundTrip(z: bv64)
    ensures UnmixFirst(MixFirst(z)) == z
  {
    UnmixFirstOf(z);
  }

  lemma MidRoundTrip(z: bv64)
    ensures UnmixMid(MixMid(z)) == z
  {
    UnmixMidOf(z);
  }

  lemma LastRoundTrip(z: bv64)
    ensures UnmixLast(MixLast(z)) == z
  {
    UnmixLastOf(z);
  }

  /** The mix loses nothing: every state is recovered from its output. */
  lemma MixRoundTrip(z: bv64)
    ensures Unmix(Mix(z)) == z
  {
    LastRoundTrip(MixMid(MixFirst(z)));
    MidRoundTrip(MixFirst(z));
    FirstRoundTrip(z);
  }

  /** Hence distinct states always give distinct outputs. */
  lemma MixInjective(a: bv64, b: bv64)
    ensures Mix(a) == Mix(b) <==> a == b
  {
    MixRoundTrip(a);
    MixRoundTrip(b);
  }

  /**
   * The state update of one draw: add the odd constant GAMMA =
   * 0x9E3779B97F4A7C15, wrapping modulo 2^64.  (Constants are written
   * out as literals wherever they multiply or add, which is the form the
   * solver folds.)
   */
  function Advance(s: bv64): bv64
  {
    s + 0x9E37_79B9_7F4A_7C15
  }

  /** The value a draw returns from state s: the mix of the advanced state. */
  function Output(s: bv64): bv64
  {
    Mix(Advance(s))
  }

  // The closed form of the Weyl sequence.  Draw counts are 64-bit words
  // (n modulo 2^64) built by repeated increments, so that no conversion
  // between integers and bit-vectors is needed.

  function Succ(c: bv64): bv64
  {
    c + 1
  }

  /** n modulo 2^64. */
  function Count(n: nat): bv64
  {
    if n == 0 then 0 else Succ(Count(n - 1))
  }

  /** seed + c*GAMMA, wrapping modulo 2^64. */
  function Weyl(seed: bv64, c: bv64): bv64
  {
    seed + c * 0x9E37_79B9_7F4A_7C15
  }

  lemma WeylZero(seed: bv64)
    ensures Weyl(seed, 0) == seed
  {
  }

  lemma WeylOfIncrement(seed: bv64, c: bv64)
    ensures Weyl(seed, c + 1) == seed + c * 0x9E37_79B9_7F4A_7C15 + 0x9E37_79B9_7F4A_7C15
  {
  }

  lemma AdvanceOf(seed: bv64, c: bv64)
    ensures Advance(seed + c * 0x9E37_79B9_7F4A_7C15) == seed + c * 0x9E37_79B9_7F4A_7C15 + 0x9E37_79B9_7F4A_7C15
  {
  }

  /** One draw moves the Weyl sequence on by one term. */
  lemma WeylStep(seed: bv64, c: bv64)
    ensures Advance(Weyl(seed, c)) == Weyl(seed, Succ(c))
  {
    AdvanceOf(seed, c);
    WeylOfIncrement(seed, c);
  }

  /** After n draws the state is seed + n*GAMMA, wrapping modulo 2^64. */
  lemma {:induction false} StateAfterClosedForm(seed: bv64, n: nat)
    ensures Iterate(Advance, seed, n) == Weyl(seed, Count(n))
  {
    if n == 0 {
      WeylZero(seed);
    } else {
      StateAfterClosedForm(seed, n - 1);
      WeylStep(seed, Count(n - 1));
    }
  }

  /** Entry i of a fill is the mix of seed + (i+1)*GAMMA. */
  lemma OutputAt(seed: bv64, n: nat, i: nat)
    requires i < n
    ensures Draws(Advance, Output, seed, n)[i] == Mix(Weyl(seed, Count(i + 1)))
  {
    DrawsAt(Advance, Output, seed, n, i);
    StateAfterClosedForm(seed, i + 1);
  }

  // GAMMA is odd, so multiplying by it is undone by its inverse
  // 0xF1DE83E19937733D modulo 2^64.

  /** Which term of the Weyl sequence from `seed` the word w is. */
  function WeylIndex(seed: bv64, w: bv64): bv64
  {
    (w - seed) * 0xF1DE_83E1_9937_733D
  }

  lemma WeylIndexOf(seed: bv64, c: bv64)
    ensures WeylIndex(seed, seed + c * 0x9E37_79B9_7F4A_7C15) == c
  {
  }

  lemma WeylIndexOfWeyl(seed: bv64, c: bv64)
    ensures WeylIndex(seed, Weyl(seed, c)) == c
  {
    WeylIndexOf(seed, c);
  }

  /** Two states of one stream coincide exactly when the draw counts agree modulo 2^64. */
  lemma StatesRepeatOnlyWithPeriod(seed: bv64, i: nat, j: nat)
    ensures Iterate(Advance, seed, i) == Iterate(Advance, seed, j) <==> Count(i) == Count(j)
  {
    StateAfterClosedForm(seed, i);
    StateAfterClosedForm(seed, j);
    WeylIndexOfWeyl(seed, Count(i));
    WeylIndexOfWeyl(seed, Count(j));
  }

  /** A draw's output determines the state it was drawn from. */
  lemma OutputInjective(a: bv64, b: bv64)
    ensures Output(a) == Output(b) <==> a == b
  {
    MixInjective(Advance(a), Advance(b));
  }

  /**
   * Two outputs of one stream coincide exactly when the draw counts agree
   * modulo 2^64: the period is 2^64 and no value repeats inside it.
   */
  lemma OutputsRepeatOnlyWithPeriod(seed: bv64, n: nat, i: nat, j: nat)
    requires i < n && j < n
    ensures Draws(Advance, Output, seed, n)[i] == Draws(Advance, Output, seed, n)[j] <==> Count(i) == Count(j)
  {
    forall x: bv64, y: bv64 | Output(x) == Output(y)
      ensures x == y
    {
      OutputInjective(x, y);
    }
    DrawsAgreeIffStatesAgree(Advance, Output, seed, n, i, j);
    StatesRepeatOnlyWithPeriod(seed, i, j);
  }

  /** The stand-alone `splitmix64` engine. */
  class SplitMix64 {
    var state: bv64

    /** The entropy constructor: two 32-bit words packed high then low. */
    constructor FromEntropy(w0: bv32, w1: bv32)
      ensures state == Join32(w0, w1)
    {
      state := Join32(w0, w1);
    }

    /** The seeded constructor keeps the seed as the state. */
    constructor (seed: bv64)
      ensures state == seed
    {
      state := seed;
    }

    method GetRand() returns (r: bv64)
      modifies this
      ensures state == Advance(old(state))
      ensures r == Output(old(state))
    {
      state := Advance(state);
      r := Mix(state);
    }

    /** `operator()`: the same draw as GetRand. */
    method Call() returns (r: bv64)
      modifies this
      ensures state == Advance(old(state))
      ensures r == Output(old(state))
    {
      r := GetRand();
    }

    method PopulateArray(arr: array<bv64>, n: nat)
      requires n <= arr.Length
      modifies this, arr
      ensures arr[..n] == Draws(Advance, Output, old(state), n)
      ensures arr[n..] == old(arr[n..])
      ensures state == Iterate(Advance, old(state), n)
    {
      state := Fill(Advance, Output, state, arr, n);
    }
  }
}
