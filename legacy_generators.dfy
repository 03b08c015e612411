/**
 * The older 64-bit `xoroshiro128` engine of generators.hpp.  Its draw and
 * its jump are those of `xoroshiro128<uint64_t>` in module Xoroshiro (the
 * same (24, 16, 37) constants and the same JUMP polynomial); it differs
 * in how it is seeded: the two entropy words are written into
 * `seed_array` and each word is then replaced, in place, by
 * `splitmix_seeder` of itself.
 *
 * `seed_array` is a `std::array` of two words: a fixed `array<bv64>`
 * here, which every method updates in place.
 */
module LegacyXoroshiro {
  import opened Words
  import opened Streams
  import SplitMix
  import opened Xoroshiro

  /**
   * `splitmix_seeder(x)`: x is a by-value copy, so the function is pure.
   * z = x + GAMMA, then the two xorshift-multiply rounds (the same
   * constants as SplitMix.MixFirst and SplitMix.MixMid) and the final
   * xorshift.
   */
  function SplitMixSeeder(x: bv64): bv64
  {
    var z := x + 0x9E37_79B9_7F4A_7C15;
    SplitMix.MixLast(SplitMix.MixMid(SplitMix.MixFirst(z)))
  }

  /** The seeder returns what a SplitMix64 engine in state x draws next. */
  lemma SplitMixSeederIsOutput(x: bv64)
    ensures SplitMixSeeder(x) == SplitMix.Output(x)
  {
  }

  /** Different entropy words give different seed words. */
  lemma SplitMixSeederInjective(x: bv64, y: bv64)
    ensures SplitMixSeeder(x) == SplitMixSeeder(y) <==> x == y
  {
    SplitMixSeederIsOutput(x);
    SplitMixSeederIsOutput(y);
    SplitMix.OutputInjective(x, y);
  }

  /** The state `auto_seed` leaves: each entropy word mapped through the seeder. */
  function AutoSeeded(w0: bv64, w1: bv64): Pair
  {
    Pair(SplitMixSeeder(w0), SplitMixSeeder(w1))
  }

  /** So seeding loses nothing: the seeded state determines the entropy words. */
  lemma AutoSeededInjective(w0: bv64, w1: bv64, v0: bv64, v1: bv64)
    ensures AutoSeeded(w0, w1) == AutoSeeded(v0, v1) <==> w0 == v0 && w1 == v1
  {
    SplitMixSeederInjective(w0, v0);
    SplitMixSeederInjective(w1, v1);
  }

  /** The older `xoroshiro128`. */
  class XoroshiroLegacy {
    const threadNo: nat
    const seedArray: array<bv64>

    /** `n_xoro_seeds` is 2. */
    predicate Valid()
      reads this
    {
      seedArray.Length == 2
    }

    function State(): Pair
      reads this, seedArray
      requires Valid()
    {
      Pair(seedArray[0], seedArray[1])
    }

    /**
     * `auto_seed()`, then `2*thread_id` jumps.  The thread id is an `int`,
     * so 2*thread_id must stay below 2^31.
     */
    constructor (threadId: nat, w0: bv64, w1: bv64)
      requires threadId < 0x4000_0000
      ensures Valid() && fresh(seedArray)
      ensures threadNo == threadId
      ensures State() == Iterate(Jump64, AutoSeeded(w0, w1), 2 * threadId)
    {
      threadNo := threadId;
      seedArray := new bv64[2];
      new;
      AutoSeed(w0, w1);
      var jumpFactor := 2 * threadId;
      if jumpFactor > 0 {
        JumpTimes(jumpFactor);
      }
    }

    /** The constructor's loop `for (int x = 0; x < jump_factor; x++) jump_stream();`. */
    method JumpTimes(jumpFactor: nat)
      requires Valid()
      modifies seedArray
      ensures State() == Iterate(Jump64, old(State()), jumpFactor)
    {
      ghost var start := State();
      var x := 0;
      while x < jumpFactor
        invariant 0 <= x <= jumpFactor
        invariant State() == Iterate(Jump64, start, x)
      {
        JumpStream();
        x := x + 1;
      }
    }

    /**
     * `auto_seed()`: the entropy words are written into `seed_array`, then
     * `for (auto& x : seed_array) x = splitmix_seeder(x)` maps every word
     * in place.
     */
    method AutoSeed(w0: bv64, w1: bv64)
      requires Valid()
      modifies seedArray
      ensures State() == AutoSeeded(w0, w1)
    {
      seedArray[0] := w0;
      seedArray[1] := w1;
      var i := 0;
      while i < seedArray.Length
        invariant 0 <= i <= seedArray.Length
        invariant seedArray[0] == if i > 0 then SplitMixSeeder(w0) else w0
        invariant seedArray[1] == if i > 1 then SplitMixSeeder(w1) else w1
      {
        seedArray[i] := SplitMixSeeder(seedArray[i]);
        i := i + 1;
      }
    }

    /** `get_rand()`: returns s0 + s1 and applies the (24, 16, 37) update. */
    method GetRand() returns (r: bv64)
      requires Valid()
      modifies seedArray
      ensures State() == Next64(old(State()))
      ensures r == Output64(old(State()))
    {
      var s0 := seedArray[0];
      var s1 := seedArray[1];
      NewWordsAreNext64(s0, s1);
      r := Add64(s0, s1);
      s1 := X64(s1, s0);
      seedArray[0] := NewS0(s0, s1);
      seedArray[1] := NewS1(s1);
    }

    /** `operator()`: the same draw as GetRand. */
    method Call() returns (r: bv64)
      requires Valid()
      modifies seedArray
      ensures State() == Next64(old(State()))
      ensures r == Output64(old(State()))
    {
      r := GetRand();
    }

    /**
     * `jump_stream()`: 128 draws, XOR-ing the current words into (s0, s1)
     * before draw j whenever bit j of {0xdf900294d8f554a5,
     * 0x170865df4b3201fc} is set, then storing (s0, s1).
     */
    method JumpStream()
      requires Valid()
      modifies seedArray
      ensures State() == Jump64(old(State()))
    {
      ghost var start := State();
      ghost var k: nat := 0;
      var s0: bv64 := 0;
      var s1: bv64 := 0;
      var i := 0;
      while i < 2
        invariant 0 <= i <= 2 && k == 64 * i
        invariant State() == Iterate(Next64, start, k)
        invariant Pair(s0, s1) == JumpSum64(start, k)
      {
        s0, s1 := JumpWord(i, s0, s1, start, k);
        k := k + 64;
        i := i + 1;
      }
      seedArray[0] := s0;
      seedArray[1] := s1;
    }

    /** The inner loop of `jump_stream`: the 64 bits of JUMP[i], lowest first. */
    method JumpWord(i: nat, s0: bv64, s1: bv64, ghost start: Pair, ghost k0: nat) returns (s0': bv64, s1': bv64)
      requires Valid() && i < 2 && k0 == 64 * i
      requires State() == Iterate(Next64, start, k0)
      requires Pair(s0, s1) == JumpSum64(start, k0)
      modifies seedArray
      ensures State() == Iterate(Next64, start, k0 + 64)
      ensures Pair(s0', s1') == JumpSum64(start, k0 + 64)
    {
      ghost var k := k0;
      s0', s1' := s0, s1;
      var b := 0;
      while b < 64
        invariant 0 <= b <= 64 && k == k0 + b
        invariant State() == Iterate(Next64, start, k)
        invariant Pair(s0', s1') == JumpSum64(start, k)
      {
        s0', s1' := JumpBit(i, b, s0', s1', start, k);
        b := b + 1;
        k := k + 1;
      }
    }

    /**
     * The body of the inner loop of `jump_stream`, for bit b of JUMP[i]:
     * XOR the words in when the bit is set, then draw once.
     */
    method JumpBit(i: nat, b: nat, s0: bv64, s1: bv64, ghost start: Pair, ghost k: nat) returns (s0': bv64, s1': bv64)
      requires Valid() && i < 2 && b < 64 && k == 64 * i + b
      requires State() == Iterate(Next64, start, k)
      requires Pair(s0, s1) == JumpSum64(start, k)
      modifies seedArray
      ensures State() == Iterate(Next64, start, k + 1)
      ensures Pair(s0', s1') == JumpSum64(start, k + 1)
    {
      ghost var cur := State();
      s0', s1' := s0, s1;
      if JumpWordBit64(i, b) {
        s0' := X64(s0', seedArray[0]);
        s1' := X64(s1', seedArray[1]);
      }
      var discarded := GetRand();
      JumpStep64(start, i, b, k, Pair(s0, s1), cur, Pair(s0', s1'), State());
    }
  }
}
