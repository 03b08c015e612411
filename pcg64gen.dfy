/**
 * The second copy of PCG64 (XSL-RR 128/64), include/generators/pcg64.hpp.
 * Its arithmetic is that of module Pcg64; this class adds the two-seed
 * constructor, `operator()` and `populate_array`.
 */
module Pcg64Gen {
  import opened Words
  import opened Streams
  import opened Xsl = Pcg64

  class Pcg64 {
    var state: bv128
    var inc: bv128

    function Current(): Pcg
      reads this
    {
      Pcg(state, inc)
    }

    /** The default constructor, with its four entropy words as parameters. */
    constructor FromEntropy(w0: bv64, w1: bv64, w2: bv64, w3: bv64)
      ensures Current() == Seeded(Join64(w0, w1), Join64(w2, w3))
      ensures inc & 1 == 1
    {
      var seed := Join64(w0, w1);
      var initseq := Join64(w2, w3);
      state := 0;
      inc := Increment(initseq);
      new;
      SeedingDraws(seed);
    }

    /** The two-seed constructor: seed1 high, seed2 low, the default stream. */
    constructor (seed1: bv64, seed2: bv64)
      ensures Current() == Seeded(Join64(seed1, seed2), DefaultIncrement)
      ensures inc & 1 == 1
    {
      var seed := Join64(seed1, seed2);
      var initseq := DefaultIncrement;
      state := 0;
      inc := Increment(initseq);
      new;
      SeedingDraws(seed);
    }

    /**
     * The tail of both constructors' seeding sequence: `get_rand()` with
     * its value dropped, `state += seed`, another dropped `get_rand()`.  A
     * dropped draw only performs its state update (see RandomR).
     */
    method SeedingDraws(seed: bv128)
      modifies this
      ensures Current() == Step(Pcg(Reseed(Step(old(Current())).state, seed), old(inc)))
    {
      state := StepState(state, inc);
      state := Reseed(state, seed);
      state := StepState(state, inc);
    }

    /** `pcg_setseq_128_xsl_rr_64_random_r`, written out in this copy. */
    method RandomR() returns (r: bv64)
      modifies this
      ensures Current() == Step(old(Current()))
      ensures r == Output(old(Current()))
    {
      state := StepState(state, inc);
      var value := Hi64(state) ^ Lo64(state);
      var rot := RotAmount(state);
      r := Rotr64(value, rot);
    }

    method GetRand() returns (r: bv64)
      modifies this
      ensures Current() == Step(old(Current()))
      ensures r == Output(old(Current()))
    {
      r := RandomR();
    }

    /** `operator()`: the same draw as GetRand. */
    method Call() returns (r: bv64)
      modifies this
      ensures Current() == Step(old(Current()))
      ensures r == Output(old(Current()))
    {
      r := RandomR();
    }

    /** `populate_array`: N_rands successive draws into arr[0..n). */
    method PopulateArray(arr: array<bv64>, n: nat)
      requires n <= arr.Length
      modifies this, arr
      ensures arr[..n] == Draws(Step, Output, old(Current()), n)
      ensures arr[n..] == old(arr[n..])
      ensures Current() == Iterate(Step, old(Current()), n)
    {
      var p := Fill(Step, Output, Current(), arr, n);
      IncNeverChanges(Current(), n);
      state := p.state;
    }
  }
}
