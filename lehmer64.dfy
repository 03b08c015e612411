/**
 * Lehmer64, the multiplicative congruential engine of
 * include/generators/lehmer64.hpp: a 128-bit state multiplied by the odd
 * constant 0xDA942042E4DD58B5 on every draw, whose high 64 bits are the
 * output.
 */
module Lehmer64 {
  import opened Words
  import opened Streams

  /** `lehmer64_state *= multiplier`, modulo 2^128. */
  function Step(s: bv128): bv128
  {
    s * 0xDA94_2042_E4DD_58B5
  }

  /** A draw returns the high 64 bits of the new state. */
  function Output(s: bv128): bv64
  {
    Hi64(Step(s))
  }

  predicate Odd(s: bv128)
  {
    s & 1 == 1
  }

  /** The multiplier is odd, so the step is undone by its inverse modulo 2^128. */
  function Unstep(s: bv128): bv128
  {
    s * 0x0CD3_65D2_CB1A_6A6C_8B83_8D03_54EA_D59D
  }

  lemma UnstepOf(s: bv128)
    ensures Unstep(s * 0xDA94_2042_E4DD_58B5) == s
  {
  }

  /** No two states share a successor: the step is a bijection. */
  lemma StepRoundTrip(s: bv128)
    ensures Unstep(Step(s)) == s
  {
    UnstepOf(s);
  }

  lemma StepParityOf(s: bv128)
    ensures (s * 0xDA94_2042_E4DD_58B5) & 1 == s & 1
  {
  }

  /** Multiplying by an odd constant keeps the parity of the state. */
  lemma StepKeepsParity(s: bv128)
    ensures Odd(Step(s)) <==> Odd(s)
  {
    StepParityOf(s);
  }

  /** An odd state stays odd for every later draw. */
  lemma OddForever(s: bv128, n: nat)
    requires Odd(s)
    ensures Odd(Iterate(Step, s, n))
  {
    forall x | Odd(x)
      ensures Odd(Step(x))
    {
      StepKeepsParity(x);
    }
    IterateKeeps(Step, Odd, s, n);
  }

  /**
   * The manual constructor does not force oddness, and the zero state is
   * a fixed point: every draw from it returns 0.
   */
  lemma ZeroStateIsStuck(n: nat, i: nat)
    requires i < n
    ensures Iterate(Step, 0, n) == 0
    ensures Draws(Step, Output, 0, n)[i] == 0
  {
    IterateKeeps(Step, x => x == 0, 0, n);
    IterateKeeps(Step, x => x == 0, 0, i);
    DrawsAt(Step, Output, 0, n, i);
  }

  /**
   * The state of the default constructor: the first entropy word at bits
   * 64..95, the second at bits 0..31, then the lowest bit set.
   */
  function EntropyState(w0: bv32, w1: bv32): (r: bv128)
    ensures Odd(r)
    ensures Hi64(r) == w0 as bv64
    ensures Lo64(r) == (w1 as bv64) | 1
  {
    ((w0 as bv128) << 64) | (w1 as bv128) | 1
  }

  class Lehmer64 {
    var state: bv128

    /** The default constructor, with its two entropy words as parameters. */
    constructor FromEntropy(w0: bv32, w1: bv32)
      ensures state == EntropyState(w0, w1)
    {
      var s := ((w0 as bv128) << 64) | (w1 as bv128);
      s := s | 1;
      state := s;
    }

    /** The manual constructor: seed1 high, seed2 low, parity unchanged. */
    constructor (seed1: bv64, seed2: bv64)
      ensures state == Join64(seed1, seed2)
    {
      state := ((seed1 as bv128) << 64) | (seed2 as bv128);
    }

    method GetRand() returns (r: bv64)
      modifies this
      ensures state == Step(old(state))
      ensures r == Output(old(state))
    {
      state := state * 0xDA94_2042_E4DD_58B5;
      r := Hi64(state);
    }

    /** `operator()`: the same draw as GetRand. */
    method Call() returns (r: bv64)
      modifies this
      ensures state == Step(old(state))
      ensures r == Output(old(state))
    {
      r := GetRand();
    }

    /** `populate_array`: N_rands successive draws into arr[0..n). */
    method PopulateArray(arr: array<bv64>, n: nat)
      requires n <= arr.Length
      modifies this, arr
      ensures arr[..n] == Draws(Step, Output, old(state), n)
      ensures arr[n..] == old(arr[n..])
      ensures state == Iterate(Step, old(state), n)
    {
      state := Fill(Step, Output, state, arr, n);
    }
  }
}
