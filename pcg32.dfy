/**
 * PCG32 (XSH-RR) of include/pcg32.hpp: a 64-bit linear congruential state
 * with an odd per-stream increment; each draw returns a 32-bit xorshift of
 * the OLD state rotated right by its top five bits.
 */
module Pcg32 {
  import opened Words
  import opened Streams

  /** The two fields of an engine: the LCG state and the stream increment. */
  datatype Pcg = Pcg(state: bv64, inc: bv64)

  /** `PCG_DEFAULT_INCREMENT_64`, the stream selector of the two-seed constructor. */
  const DefaultIncrement: bv64 := 0x1405_7B7E_F767_814F

  /** `state = oldstate * PCG_DEFAULT_MULTIPLIER_64 + inc`, modulo 2^64. */
  function StepState(s: bv64, inc: bv64): bv64
  {
    s * 0x5851_F42D_4C95_7F2D + inc
  }

  /** One draw's update: the state steps, the increment stays. */
  function Step(p: Pcg): Pcg
  {
    Pcg(StepState(p.state, p.inc), p.inc)
  }

  /** `(xorshifted >> rot) | (xorshifted << ((~rot + 1u) & 31))`. */
  function Rotr32(x: bv32, rot: bv32): (r: bv32)
    requires rot < 32
    ensures rot == 0 ==> r == x
  {
    (x >> rot) | (x << ((!rot + 1) & 31))
  }

  /** `rot = oldstate >> 59`: the top five bits, always a valid amount. */
  function RotAmount(old_: bv64): (rot: bv32)
    ensures rot < 32
    ensures rot as bv64 == old_ >> 59
  {
    Lo32(old_ >> 59)
  }

  /** `xorshifted`: ((old >> 18) ^ old) >> 27, truncated to 32 bits. */
  function XorShifted(old_: bv64): bv32
  {
    Lo32(((old_ >> 18) ^ old_) >> 27)
  }

  /** The value of a draw, computed from the state BEFORE the step. */
  function Output(p: Pcg): bv32
  {
    Rotr32(XorShifted(p.state), RotAmount(p.state))
  }

  /** `inc = (initseq << 1u) | 1u`: always odd, as the stream selector must be. */
  function Increment(initseq: bv64): (inc: bv64)
    ensures inc & 1 == 1
  {
    (initseq << 1) | 1
  }

  /** The stream selector keeps every bit of initseq but the top one. */
  lemma IncrementKeepsLowBits(initseq: bv64)
    ensures Increment(initseq) >> 1 == initseq & 0x7FFF_FFFF_FFFF_FFFF
  {
  }

  /** Two sequence words give the same increment exactly when they agree below the top bit. */
  lemma IncrementSelectsStream(a: bv64, b: bv64)
    ensures Increment(a) == Increment(b) <==> a & 0x7FFF_FFFF_FFFF_FFFF == b & 0x7FFF_FFFF_FFFF_FFFF
  {
    IncrementKeepsLowBits(a);
    IncrementKeepsLowBits(b);
    if a & 0x7FFF_FFFF_FFFF_FFFF == b & 0x7FFF_FFFF_FFFF_FFFF {
      assert a << 1 == (a & 0x7FFF_FFFF_FFFF_FFFF) << 1;
      assert b << 1 == (b & 0x7FFF_FFFF_FFFF_FFFF) << 1;
    }
  }

  /** `state += seed`, modulo 2^64. */
  function Reseed(s: bv64, seed: bv64): bv64
  {
    s + seed
  }

  /** From state 0 the first step lands exactly on the increment. */
  lemma StepFromZero(inc: bv64)
    ensures StepState(0, inc) == inc
  {
  }

  /**
   * The seeding sequence of both constructors: state 0, one step,
   * `state += seed`, one more step.  The first step lands on inc, so the
   * seeded state is one step from inc + seed.
   */
  function Seeded(seed: bv64, initseq: bv64): (p: Pcg)
    ensures p.inc == Increment(initseq)
    ensures p.state == StepState(Reseed(p.inc, seed), p.inc)
  {
    var first := Step(Pcg(0, Increment(initseq)));
    StepFromZero(Increment(initseq));
    Step(Pcg(Reseed(first.state, seed), first.inc))
  }

  /** The step is undone by the multiplier's inverse modulo 2^64. */
  function UnstepState(s: bv64, inc: bv64): bv64
  {
    (s - inc) * 0xC097_EF87_329E_28A5
  }

  function Unstep(p: Pcg): Pcg
  {
    Pcg(UnstepState(p.state, p.inc), p.inc)
  }

  lemma UnstepOf(s: bv64, inc: bv64)
    ensures UnstepState(s * 0x5851_F42D_4C95_7F2D + inc, inc) == s
  {
  }

  lemma StateRoundTrip(s: bv64, inc: bv64)
    ensures UnstepState(StepState(s, inc), inc) == s
  {
    UnstepOf(s, inc);
  }

  /** Distinct states have distinct successors: the step is a bijection. */
  lemma StepRoundTrip(p: Pcg)
    ensures Unstep(Step(p)) == p
  {
    StateRoundTrip(p.state, p.inc);
  }

  predicate HasIncrement(inc: bv64, p: Pcg)
  {
    p.inc == inc
  }

  /** No draw touches the increment, so it stays odd for ever. */
  lemma IncNeverChanges(p: Pcg, n: nat)
    ensures Iterate(Step, p, n).inc == p.inc
  {
    IterateKeeps(Step, q => HasIncrement(p.inc, q), p, n);
  }

  /** `++i` on the uint32_t counter of `populate_array`. */
  function NextCounter(i: bv32): (j: bv32)
    ensures i != 0xFFFF_FFFF ==> j > i
  {
    i + 1
  }

  /**
   * With size >= 2^32 the guard `i < size` of `populate_array` holds for
   * every value the uint32_t counter can take, and `++i` on the largest
   * value wraps to 0, so the loop never ends.
   */
  lemma CounterNeverReachesSize(size: nat, i: bv32)
    requires size >= 0x1_0000_0000
    ensures i as nat < size && NextCounter(i) as nat < size
    ensures NextCounter(0xFFFF_FFFF) == 0
  {
  }

  class Pcg32 {
    var state: bv64
    var inc: bv64

    function Current(): Pcg
      reads this
    {
      Pcg(state, inc)
    }

    /** The default constructor, with its four entropy words as parameters. */
    constructor FromEntropy(w0: bv32, w1: bv32, w2: bv32, w3: bv32)
      ensures Current() == Seeded(Join32(w0, w1), Join32(w2, w3))
      ensures inc & 1 == 1
    {
      var seed := Join32(w0, w1);
      var initseq := Join32(w2, w3);
      state := 0;
      inc := Increment(initseq);
      new;
      SeedingDraws(seed);
    }

    /** The two-seed constructor: seed1 high, seed2 low, the default stream. */
    constructor (seed1: bv32, seed2: bv32)
      ensures Current() == Seeded(Join32(seed1, seed2), DefaultIncrement)
      ensures inc & 1 == 1
    {
      var seed := Join32(seed1, seed2);
      var initseq := DefaultIncrement;
      state := 0;
      inc := Increment(initseq);
      new;
      SeedingDraws(seed);
    }

    method GetRand() returns (r: bv32)
      modifies this
      ensures Current() == Step(old(Current()))
      ensures r == Output(old(Current()))
    {
      var oldstate := state;
      state := StepState(oldstate, inc);
      var xorshifted := XorShifted(oldstate);
      var rot := RotAmount(oldstate);
      r := Rotr32(xorshifted, rot);
    }

    /**
     * The tail of both constructors' seeding sequence: a draw whose value
     * is dropped, `state += seed`, and another dropped draw.
     */
    method SeedingDraws(seed: bv64)
      modifies this
      ensures Current() == Step(Pcg(Reseed(Step(old(Current())).state, seed), old(inc)))
    {
      var discarded := GetRand();
      state := Reseed(state, seed);
      discarded := GetRand();
    }

    /** `operator()`: the same draw as GetRand. */
    method Call() returns (r: bv32)
      modifies this
      ensures Current() == Step(old(Current()))
      ensures r == Output(old(Current()))
    {
      r := GetRand();
    }

    /**
     * `populate_array`: size successive draws into arr[0..size), with the
     * loop counter as wide as size (CounterNeverReachesSize shows why the
     * uint32_t counter of the code does not end for size >= 2^32).
     */
    method PopulateArray(arr: array<bv32>, size: nat)
      requires size <= arr.Length
      modifies this, arr
      ensures arr[..size] == Draws(Step, Output, old(Current()), size)
      ensures arr[size..] == old(arr[size..])
      ensures Current() == Iterate(Step, old(Current()), size)
    {
      var p := Fill(Step, Output, Current(), arr, size);
      IncNeverChanges(Current(), size);
      state := p.state;
    }
  }
}
