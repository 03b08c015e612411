/**
 * PCG64 (XSL-RR 128/64) of include/pcg64.hpp: a 128-bit linear
 * congruential state with an odd stream increment.  Each draw steps the
 * state FIRST and then folds the new state to 64 bits (high half xor low
 * half) and rotates right by its top six bits.
 *
 * The functions here are also the arithmetic of the second copy of the
 * engine in include/generators/pcg64.hpp (module Pcg64Gen).
 */
module Pcg64 {
  import opened Words
  import opened Streams

  /** The two 128-bit fields of an engine. */
  datatype Pcg = Pcg(state: bv128, inc: bv128)

  /** `PCG_DEFAULT_INCREMENT_128`, (6364136223846793005 << 64) + 1442695040888963407. */
  const DefaultIncrement: bv128 := 0x5851_F42D_4C95_7F2D_1405_7B7E_F767_814F

  /**
   * `pcg_setseq_128_step_r`: state * PCG_DEFAULT_MULTIPLIER_128 + inc,
   * modulo 2^128, where the multiplier is
   * (2549297995355413924 << 64) + 4865540595714422341.
   */
  function StepState(s: bv128, inc: bv128): bv128
  {
    s * 0x2360_ED05_1FC6_5DA4_4385_DF64_9FCC_F645 + inc
  }

  function Step(p: Pcg): Pcg
  {
    Pcg(StepState(p.state, p.inc), p.inc)
  }

  /** `pcg_rotr_64`: `(value >> rot) | (value << ((-rot) & 63))`. */
  function Rotr64(value: bv64, rot: bv64): (r: bv64)
    requires rot < 64
    ensures rot == 0 ==> r == value
  {
    (value >> rot) | (value << ((-rot) & 63))
  }

  /** `state >> 122`: the top six bits, always a valid rotation amount. */
  function RotAmount(s: bv128): (rot: bv64)
    ensures rot < 64
    ensures rot as bv128 == s >> 122
  {
    (s >> 122) as bv64
  }

  /** `pcg_output_xsl_rr_128_64`: the halves xored, rotated by the top bits. */
  function OutputXslRr(s: bv128): bv64
  {
    Rotr64(Hi64(s) ^ Lo64(s), RotAmount(s))
  }

  /**
   * `pcg_setseq_128_xsl_rr_64_random_r`: the value of a draw is the output
   * of the state AFTER the step.
   */
  function Output(p: Pcg): bv64
  {
    OutputXslRr(StepState(p.state, p.inc))
  }

  /** `inc = (initseq << 1u) | 1u`: always odd. */
  function Increment(initseq: bv128): (inc: bv128)
    ensures inc & 1 == 1
  {
    (initseq << 1) | 1
  }

  /** The stream selector keeps every bit of initseq but the top one. */
  lemma IncrementKeepsLowBits(initseq: bv128)
    ensures Increment(initseq) >> 1 == initseq & 0x7FFF_FFFF_FFFF_FFFF_FFFF_FFFF_FFFF_FFFF
  {
  }

  /** Two sequence words give the same increment exactly when they agree below the top bit. */
  lemma IncrementSelectsStream(a: bv128, b: bv128)
    ensures Increment(a) == Increment(b) <==> a & 0x7FFF_FFFF_FFFF_FFFF_FFFF_FFFF_FFFF_FFFF == b & 0x7FFF_FFFF_FFFF_FFFF_FFFF_FFFF_FFFF_FFFF
  {
    IncrementKeepsLowBits(a);
    IncrementKeepsLowBits(b);
    if a & 0x7FFF_FFFF_FFFF_FFFF_FFFF_FFFF_FFFF_FFFF == b & 0x7FFF_FFFF_FFFF_FFFF_FFFF_FFFF_FFFF_FFFF {
      assert a << 1 == (a & 0x7FFF_FFFF_FFFF_FFFF_FFFF_FFFF_FFFF_FFFF) << 1;
      assert b << 1 == (b & 0x7FFF_FFFF_FFFF_FFFF_FFFF_FFFF_FFFF_FFFF) << 1;
    }
  }

  /** `state += seed`, modulo 2^128. */
  function Reseed(s: bv128, seed: bv128): bv128
  {
    s + seed
  }

  /** From state 0 the first step lands exactly on the increment. */
  lemma StepFromZero(inc: bv128)
    ensures StepState(0, inc) == inc
  {
  }

  /**
   * The seeding sequence: state 0, one step, `state += seed`, one more
   * step.  The first step lands on inc, so the seeded state is one step
   * from inc + seed.
   */
  function Seeded(seed: bv128, initseq: bv128): (p: Pcg)
    ensures p.inc == Increment(initseq)
    ensures p.state == StepState(Reseed(p.inc, seed), p.inc)
  {
    var first := Step(Pcg(0, Increment(initseq)));
    StepFromZero(Increment(initseq));
    Step(Pcg(Reseed(first.state, seed), first.inc))
  }

  /** The step is undone by the multiplier's inverse modulo 2^128. */
  function UnstepState(s: bv128, inc: bv128): bv128
  {
    (s - inc) * 0x07DD_A22B_9397_9860_98AB_C8B0_716E_AC8D
  }

  function Unstep(p: Pcg): Pcg
  {
    Pcg(UnstepState(p.state, p.inc), p.inc)
  }

  lemma UnstepOf(s: bv128, inc: bv128)
    ensures UnstepState(s * 0x2360_ED05_1FC6_5DA4_4385_DF64_9FCC_F645 + inc, inc) == s
  {
  }

  lemma StateRoundTrip(s: bv128, inc: bv128)
    ensures UnstepState(StepState(s, inc), inc) == s
  {
    UnstepOf(s, inc);
  }

  /** Distinct states have distinct successors: the step is a bijection. */
  lemma StepRoundTrip(p: Pcg)
    ensures Unstep(Step(p)) == p
  {
    StateRoundTrip(p.state, p.inc);
  }

  predicate HasIncrement(inc: bv128, p: Pcg)
  {
    p.inc == inc
  }

  /** No draw touches the increment, so it stays odd for ever. */
  lemma IncNeverChanges(p: Pcg, n: nat)
    ensures Iterate(Step, p, n).inc == p.inc
  {
    IterateKeeps(Step, q => HasIncrement(p.inc, q), p, n);
  }

  /** The engine of include/pcg64.hpp. */
  class Pcg64 {
    var state: bv128
    var inc: bv128

    function Current(): Pcg
      reads this
    {
      Pcg(state, inc)
    }

    /** The default constructor, with its four entropy words as parameters. */
    constructor FromEntropy(part1: bv64, part2: bv64, part3: bv64, part4: bv64)
      ensures Current() == Seeded(Join64(part1, part2), Join64(part3, part4))
      ensures inc & 1 == 1
    {
      var seed := Join64(part1, part2);
      var initseq := Join64(part3, part4);
      state := 0;
      inc := Increment(initseq);
      new;
      SeedingDraws(seed);
    }

    /**
     * The tail of the seeding sequence: `get_rand()` with its value
     * dropped, `state += seed`, and another dropped `get_rand()`.  A
     * dropped draw changes the state exactly as `pcg_setseq_128_step_r`
     * does (see GetRand), so each is one StepR here.
     */
    method SeedingDraws(seed: bv128)
      modifies this
      ensures Current() == Step(Pcg(Reseed(Step(old(Current())).state, seed), old(inc)))
    {
      StepR();
      state := Reseed(state, seed);
      StepR();
    }

    /** `pcg_setseq_128_step_r`. */
    method StepR()
      modifies this
      ensures Current() == Step(old(Current()))
    {
      state := StepState(state, inc);
    }

    /** `pcg_setseq_128_xsl_rr_64_random_r`: step, then the output of the new state. */
    method RandomR() returns (r: bv64)
      modifies this
      ensures Current() == Step(old(Current()))
      ensures r == Output(old(Current()))
    {
      StepR();
      r := OutputXslRr(state);
    }

    method GetRand() returns (r: bv64)
      modifies this
      ensures Current() == Step(old(Current()))
      ensures r == Output(old(Current()))
    {
      r := RandomR();
    }

    /** `fill_array`: N_rands successive draws into arr[0..n). */
    method FillArray(arr: array<bv64>, n: nat)
      requires n <= arr.Length
      modifies this, arr
      ensures arr[..n] == Draws(Step, Output, old(Current()), n)
      ensures arr[n..] == old(arr[n..])
      ensures Current() == Iterate(Step, old(Current()), n)
    {
      var p := Fill(Step, Output, Current(), arr, n);
      IncNeverChanges(Current(), n);
      state := p.state;
    }
  }
}
