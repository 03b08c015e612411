/**
 * The `xoroshiro128<state_type>` engine of include/generators.hpp
 * (Blackman and Vigna), in its two instantiations:
 *
 *  - `uint64_t`: xoroshiro128+ over two 64-bit words, with the (24, 16, 37)
 *    constants; the draw is s0 + s1 of the old state;
 *  - `uint32_t`: xoshiro128+ over four 32-bit words; the draw is s0 + s3 of
 *    the old state.
 *
 * Both state updates are linear over GF(2): they commute with word-wise
 * XOR.  `jump_stream` relies on that: it XORs together the states reached
 * at the set bits of a 128-bit JUMP polynomial while drawing 128 times,
 * and the result is a state that itself commutes with drawing.
 *
 * `seed_array` is a `std::vector` resized to the number of words; it is a
 * `seq` field here.
 */
module Xoroshiro {
  import opened Words
  import opened Streams
  import SplitMix
  import GenSplitMix


  // ---------------------------------------------------------------------
  // Two 64-bit words (state_type = uint64_t)
  // ---------------------------------------------------------------------

  datatype Pair = Pair(s0: bv64, s1: bv64)

  /** New `seed_array[0]`: rotl(s0, 24) ^ t ^ (t << 16), where t = s1 ^ s0. */
  function NextS0(s0: bv64, s1: bv64): bv64
  {
    ((s0 << 24) | (s0 >> 40)) ^ (s1 ^ s0) ^ ((s1 ^ s0) << 16)
  }

  /** New `seed_array[1]`: rotl(t, 37), where t = s1 ^ s0. */
  function NextS1(s0: bv64, s1: bv64): bv64
  {
    ((s1 ^ s0) << 37) | ((s1 ^ s0) >> 27)
  }

  /** The state update of one 64-bit draw. */
  function Next64(x: Pair): Pair
  {
    Pair(NextS0(x.s0, x.s1), NextS1(x.s0, x.s1))
  }

  /** The value of a 64-bit draw: `s0 + s1` of the old state, modulo 2^64. */
  function Output64(x: Pair): bv64
  {
    Add64(x.s0, x.s1)
  }

  function Xor64(a: Pair, b: Pair): Pair
  {
    Pair(X64(a.s0, b.s0), X64(a.s1, b.s1))
  }

  // The two assignments of the 64-bit `get_rand`, after `s1 ^= s0` has
  // turned s1 into t = s1 ^ s0.  Rotations are the built-in ones here;
  // Words.Rotl64IsRotateLeft shows they are what the engine's `rotl` computes.

  function NewS0(s0: bv64, t: bv64): bv64
  {
    s0.RotateLeft(24) ^ t ^ (t << 16)
  }

  function NewS1(t: bv64): bv64
  {
    t.RotateLeft(37)
  }

  lemma NewWordsOf(s0: bv64, s1: bv64)
    ensures NewS0(s0, s1 ^ s0) == NextS0(s0, s1)
    ensures NewS1(s1 ^ s0) == NextS1(s0, s1)
  {
  }

  /** The assignments of `get_rand` compute the update. */
  lemma NewWordsAreNext64(s0: bv64, s1: bv64)
    ensures NewS0(s0, X64(s1, s0)) == NextS0(s0, s1)
    ensures NewS1(X64(s1, s0)) == NextS1(s0, s1)
  {
    NewWordsOf(s0, s1);
  }

  // Linearity, word by word: each word of the update of a ^ b is the XOR
  // of the words of the updates of a and b.  The explicit identity comes
  // first, then the same fact about the word functions.

  lemma NextS0Xor(a0: bv64, a1: bv64, b0: bv64, b1: bv64)
    ensures X64(((a0 << 24) | (a0 >> 40)) ^ (a1 ^ a0) ^ ((a1 ^ a0) << 16),
                ((b0 << 24) | (b0 >> 40)) ^ (b1 ^ b0) ^ ((b1 ^ b0) << 16))
         == (((a0 ^ b0) << 24) | ((a0 ^ b0) >> 40)) ^ ((a1 ^ b1) ^ (a0 ^ b0)) ^ (((a1 ^ b1) ^ (a0 ^ b0)) << 16)
  {
  }

  lemma NextS1Xor(a0: bv64, a1: bv64, b0: bv64, b1: bv64)
    ensures X64(((a1 ^ a0) << 37) | ((a1 ^ a0) >> 27), ((b1 ^ b0) << 37) | ((b1 ^ b0) >> 27))
         == (((a1 ^ b1) ^ (a0 ^ b0)) << 37) | (((a1 ^ b1) ^ (a0 ^ b0)) >> 27)
  {
  }

  lemma NextS0Linear(a0: bv64, a1: bv64, b0: bv64, b1: bv64)
    ensures NextS0(a0 ^ b0, a1 ^ b1) == X64(NextS0(a0, a1), NextS0(b0, b1))
  {
    NextS0Xor(a0, a1, b0, b1);
  }

  lemma NextS1Linear(a0: bv64, a1: bv64, b0: bv64, b1: bv64)
    ensures NextS1(a0 ^ b0, a1 ^ b1) == X64(NextS1(a0, a1), NextS1(b0, b1))
  {
    NextS1Xor(a0, a1, b0, b1);
  }

  lemma NextS0LinearX(a0: bv64, a1: bv64, b0: bv64, b1: bv64)
    ensures NextS0(X64(a0, b0), X64(a1, b1)) == X64(NextS0(a0, a1), NextS0(b0, b1))
  {
    NextS0Linear(a0, a1, b0, b1);
  }

  lemma NextS1LinearX(a0: bv64, a1: bv64, b0: bv64, b1: bv64)
    ensures NextS1(X64(a0, b0), X64(a1, b1)) == X64(NextS1(a0, a1), NextS1(b0, b1))
  {
    NextS1Linear(a0, a1, b0, b1);
  }

  /** The 64-bit update is linear over GF(2). */
  lemma Next64Linear(a: Pair, b: Pair)
    ensures Next64(Xor64(a, b)) == Xor64(Next64(a), Next64(b))
  {
    NextS0LinearX(a.s0, a.s1, b.s0, b.s1);
    NextS1LinearX(a.s0, a.s1, b.s0, b.s1);
  }

  /** The all-zero state is fixed, as it is for every linear update. */
  lemma Next64Zero()
    ensures Next64(Pair(0, 0)) == Pair(0, 0)
  {
  }

  // The update is a bijection: t = s0 ^ s1 is rotated back out of the new
  // s1, then s0 out of what is left of the new s0 once t is removed.

  function PrevS0(n0: bv64, n1: bv64): bv64
  {
    var t := (n1 << 27) | (n1 >> 37);
    var u := n0 ^ t ^ (t << 16);
    (u << 40) | (u >> 24)
  }

  function PrevS1(n0: bv64, n1: bv64): bv64
  {
    var t := (n1 << 27) | (n1 >> 37);
    var u := n0 ^ t ^ (t << 16);
    t ^ ((u << 40) | (u >> 24))
  }

  /** The state a 64-bit draw was made from. */
  function Prev64(x: Pair): Pair
  {
    Pair(PrevS0(x.s0, x.s1), PrevS1(x.s0, x.s1))
  }

  lemma PrevS0Of(s0: bv64, s1: bv64)
    ensures PrevS0(((s0 << 24) | (s0 >> 40)) ^ (s1 ^ s0) ^ ((s1 ^ s0) << 16), ((s1 ^ s0) << 37) | ((s1 ^ s0) >> 27)) == s0
  {
  }

  lemma PrevS1Of(s0: bv64, s1: bv64)
    ensures PrevS1(((s0 << 24) | (s0 >> 40)) ^ (s1 ^ s0) ^ ((s1 ^ s0) << 16), ((s1 ^ s0) << 37) | ((s1 ^ s0) >> 27)) == s1
  {
  }

  lemma PrevS0Round(s0: bv64, s1: bv64)
    ensures PrevS0(NextS0(s0, s1), NextS1(s0, s1)) == s0
  {
    PrevS0Of(s0, s1);
  }

  lemma PrevS1Round(s0: bv64, s1: bv64)
    ensures PrevS1(NextS0(s0, s1), NextS1(s0, s1)) == s1
  {
    PrevS1Of(s0, s1);
  }

  /** Stepping back undoes a 64-bit draw. */
  lemma Next64RoundTrip(x: Pair)
    ensures Prev64(Next64(x)) == x
  {
    PrevS0Round(x.s0, x.s1);
    PrevS1Round(x.s0, x.s1);
  }

  /** The 64-bit JUMP polynomial, least significant word first. */
  function JumpWord64(i: nat): bv64
    requires i < 2
  {
    if i == 0 then 0xDF90_0294_D8F5_54A5 else 0x1708_65DF_4B32_01FC
  }

  /** `UINT64_C(1) << b`, by doubling. */
  function Bit64(b: nat): bv64
    requires b < 64
  {
    if b == 0 then 1 else Bit64(b - 1) << 1
  }

  /** `JUMP[i] & UINT64_C(1) << b`: bit b of word i is set. */
  predicate JumpWordBit64(i: nat, b: nat)
    requires i < 2 && b < 64
  {
    JumpWord64(i) & Bit64(b) != 0
  }

  /** Whether bit j of the 128-bit polynomial is set: bit j % 64 of word j / 64. */
  predicate JumpBit64(j: nat)
  {
    j < 128 && JumpWord64(j / 64) & Bit64(j % 64) != 0
  }

  /** The XOR of the states after j draws, over the selected j < k. */
  function JumpSum64(s: Pair, k: nat): Pair
  {
    Accumulate(Next64, Xor64, Pair(0, 0), JumpBit64, s, k)
  }

  /** The state `jump_stream` leaves behind. */
  function Jump64(s: Pair): Pair
  {
    JumpSum64(s, 128)
  }

  /** Jumping and drawing commute: the jump is a polynomial in the update. */
  lemma Jump64Commutes(s: Pair)
    ensures Jump64(Next64(s)) == Next64(Jump64(s))
  {
    forall a: Pair, b: Pair
      ensures Next64(Xor64(a, b)) == Xor64(Next64(a), Next64(b))
    {
      Next64Linear(a, b);
    }
    Next64Zero();
    AccumulateCommutes(Next64, Xor64, Pair(0, 0), JumpBit64, s, 128);
  }

  /**
   * The state `auto_seed` writes: the first two draws of a seeding
   * splitmix64<uint64_t>, written out draw by draw.
   */
  function AutoSeeded64(w0: bv64, w1: bv64): Pair
  {
    var seed := GenSplitMix.SeedOf64(w0, w1);
    Pair(SplitMix.Output(seed), SplitMix.Output(SplitMix.Advance(seed)))
  }

  /** The seeded words are the first two draws of the seeding engine's stream. */
  lemma AutoSeeded64IsDraws(w0: bv64, w1: bv64)
    ensures var d := Draws(SplitMix.Advance, SplitMix.Output, GenSplitMix.SeedOf64(w0, w1), 2);
            AutoSeeded64(w0, w1) == Pair(d[0], d[1])
  {
    var seed := GenSplitMix.SeedOf64(w0, w1);
    DrawsAt(SplitMix.Advance, SplitMix.Output, seed, 2, 0);
    DrawsAt(SplitMix.Advance, SplitMix.Output, seed, 2, 1);
  }

  /** `xoroshiro128<uint64_t>`. */
  class XoroshiroU64 {
    const threadNo: nat
    var seedArray: seq<bv64>

    /** `n_xoro_seeds` is 2 for 64-bit words. */
    predicate Valid()
      reads this
    {
      |seedArray| == 2
    }

    function State(): Pair
      reads this
      requires Valid()
    {
      Pair(seedArray[0], seedArray[1])
    }

    /**
     * Resize to two words, seed them from a splitmix64<uint64_t> built on
     * the entropy words w0 and w1, then jump 2*thread_id times.  The loop
     * counter is an `int`, so the thread id must keep 2*thread_id below 2^31.
     */
    constructor (threadId: nat, w0: bv64, w1: bv64)
      requires threadId < 0x4000_0000
      ensures Valid()
      ensures threadNo == threadId
      ensures State() == Iterate(Jump64, AutoSeeded64(w0, w1), 2 * threadId)
    {
      threadNo := threadId;
      seedArray := [0, 0];
      new;
      AutoSeed(w0, w1);
      var jumpFactor := 2 * threadId;
      if jumpFactor > 0 {
        JumpTimes(jumpFactor);
      }
    }

    /** The constructor's loop `for (int x = 0; x < jump_factor; x++) jump_stream();`. */
    method JumpTimes(jumpFactor: nat)
      requires Valid()
      modifies this
      ensures Valid()
      ensures State() == Iterate(Jump64, old(State()), jumpFactor)
    {
      ghost var start := State();
      var x := 0;
      while x < jumpFactor
        invariant 0 <= x <= jumpFactor
        invariant Valid()
        invariant State() == Iterate(Jump64, start, x)
      {
        JumpStream();
        x := x + 1;
      }
    }

    /** `auto_seed`: every word of seed_array becomes the next seeding draw. */
    method AutoSeed(w0: bv64, w1: bv64)
      requires Valid()
      modifies this
      ensures Valid()
      ensures State() == AutoSeeded64(w0, w1)
    {
      var seedGen := new GenSplitMix.SplitMixU64(w0, w1);
      ghost var t0 := GenSplitMix.SeedOf64(w0, w1);
      ghost var t1 := SplitMix.Advance(t0);
      var i := 0;
      while i < |seedArray|
        invariant 0 <= i <= |seedArray| == 2
        invariant seedGen.splitSeed == if i == 0 then t0 else if i == 1 then t1 else SplitMix.Advance(t1)
        invariant i > 0 ==> seedArray[0] == SplitMix.Output(t0)
        invariant i > 1 ==> seedArray[1] == SplitMix.Output(t1)
      {
        var v := seedGen.Call();
        seedArray := seedArray[i := v];
        i := i + 1;
      }
    }

    /** One 64-bit draw. */
    method GetRand() returns (r: bv64)
      requires Valid()
      modifies this
      ensures Valid()
      ensures State() == Next64(old(State()))
      ensures r == Output64(old(State()))
    {
      var s0 := seedArray[0];
      var s1 := seedArray[1];
      NewWordsAreNext64(s0, s1);
      r := Add64(s0, s1);
      s1 := X64(s1, s0);
      seedArray := seedArray[0 := NewS0(s0, s1)];
      seedArray := seedArray[1 := NewS1(s1)];
    }

    /**
     * `jump_stream`: 128 draws, XOR-ing the current state into (s0, s1)
     * before draw j whenever bit j of the JUMP polynomial is set.
     */
    method JumpStream()
      requires Valid()
      modifies this
      ensures Valid()
      ensures State() == Jump64(old(State()))
    {
      ghost var start := State();
      ghost var k: nat := 0;
      var s0: bv64 := 0;
      var s1: bv64 := 0;
      var i := 0;
      while i < 2
        invariant 0 <= i <= 2 && k == 64 * i
        invariant Valid()
        invariant State() == Iterate(Next64, start, k)
        invariant Pair(s0, s1) == JumpSum64(start, k)
      {
        s0, s1 := JumpWord(i, s0, s1, start, k);
        k := k + 64;
        i := i + 1;
      }
      seedArray := seedArray[0 := s0];
      seedArray := seedArray[1 := s1];
    }

    /** The inner loop of `jump_stream`: the 64 bits of JUMP[i], lowest first. */
    method JumpWord(i: nat, s0: bv64, s1: bv64, ghost start: Pair, ghost k0: nat) returns (s0': bv64, s1': bv64)
      requires Valid() && i < 2 && k0 == 64 * i
      requires State() == Iterate(Next64, start, k0)
      requires Pair(s0, s1) == JumpSum64(start, k0)
      modifies this
      ensures Valid()
      ensures State() == Iterate(Next64, start, k0 + 64)
      ensures Pair(s0', s1') == JumpSum64(start, k0 + 64)
    {
      ghost var k := k0;
      s0', s1' := s0, s1;
      var b := 0;
      while b < 64
        invariant 0 <= b <= 64 && k == k0 + b
        invariant Valid()
        invariant State() == Iterate(Next64, start, k)
        invariant Pair(s0', s1') == JumpSum64(start, k)
      {
        s0', s1' := JumpBit(i, b, s0', s1', start, k);
        b := b + 1;
        k := k + 1;
      }
    }

    /**
     * The body of the inner loop of `jump_stream`, for bit b of JUMP[i]:
     * XOR the words in when the bit is set, then draw once.
     */
    method JumpBit(i: nat, b: nat, s0: bv64, s1: bv64, ghost start: Pair, ghost k: nat) returns (s0': bv64, s1': bv64)
      requires Valid() && i < 2 && b < 64 && k == 64 * i + b
      requires State() == Iterate(Next64, start, k)
      requires Pair(s0, s1) == JumpSum64(start, k)
      modifies this
      ensures Valid()
      ensures State() == Iterate(Next64, start, k + 1)
      ensures Pair(s0', s1') == JumpSum64(start, k + 1)
    {
      ghost var cur := State();
      s0', s1' := s0, s1;
      if JumpWordBit64(i, b) {
        s0' := X64(s0', seedArray[0]);
        s1' := X64(s1', seedArray[1]);
      }
      var discarded := GetRand();
      JumpStep64(start, i, b, k, Pair(s0, s1), cur, Pair(s0', s1'), State());
    }
  }

  /** Draw b of word i is draw 64*i + b of the whole polynomial. */
  lemma JumpIndex64(i: nat, b: nat)
    requires b < 64
    ensures (64 * i + b) / 64 == i && (64 * i + b) % 64 == b
  {
  }

  /** One more draw adds the current state to the sum when its bit is set. */
  lemma JumpSum64Step(s: Pair, k: nat)
    ensures JumpSum64(s, k + 1)
         == if JumpBit64(k) then Xor64(JumpSum64(s, k), Iterate(Next64, s, k)) else JumpSum64(s, k)
  {
  }

  /** One pass of the inner loop of `jump_stream` keeps the sum and the state in step with draw k. */
  lemma JumpStep64(start: Pair, i: nat, b: nat, k: nat, acc: Pair, cur: Pair, acc': Pair, cur': Pair)
    requires i < 2 && b < 64 && k == 64 * i + b
    requires acc == JumpSum64(start, k) && cur == Iterate(Next64, start, k)
    requires acc' == if JumpWordBit64(i, b) then Xor64(acc, cur) else acc
    requires cur' == Next64(cur)
    ensures acc' == JumpSum64(start, k + 1) && cur' == Iterate(Next64, start, k + 1)
  {
    JumpSum64Step(start, k);
    JumpBit64At(i, b);
  }

  /** Bit 64*i + b of the polynomial is bit b of word i. */
  lemma JumpBit64At(i: nat, b: nat)
    requires i < 2 && b < 64
    ensures JumpBit64(64 * i + b) <==> JumpWordBit64(i, b)
  {
    JumpIndex64(i, b);
  }

  // ---------------------------------------------------------------------
  // Four 32-bit words (state_type = uint32_t)
  // ---------------------------------------------------------------------

  datatype Quad = Quad(s0: bv32, s1: bv32, s2: bv32, s3: bv32)

  // The in-place cascade s2 ^= s0; s3 ^= s1; s1 ^= s2; s0 ^= s3;
  // s2 ^= s1 << 9 (the old s1); s3 = rotl(s3, 11), word by word.

  function NextW0(s0: bv32, s1: bv32, s3: bv32): bv32
  {
    s0 ^ (s3 ^ s1)
  }

  function NextW1(s0: bv32, s1: bv32, s2: bv32): bv32
  {
    s1 ^ (s2 ^ s0)
  }

  function NextW2(s0: bv32, s1: bv32, s2: bv32): bv32
  {
    (s2 ^ s0) ^ (s1 << 9)
  }

  function NextW3(s1: bv32, s3: bv32): bv32
  {
    ((s3 ^ s1) << 11) | ((s3 ^ s1) >> 21)
  }

  /** The state update of one 32-bit draw. */
  function Next32(q: Quad): Quad
  {
    Quad(NextW0(q.s0, q.s1, q.s3), NextW1(q.s0, q.s1, q.s2), NextW2(q.s0, q.s1, q.s2), NextW3(q.s1, q.s3))
  }

  /** The value of a 32-bit draw: `s0 + s3` of the old state, modulo 2^32. */
  function Output32(q: Quad): bv32
  {
    Add32(q.s0, q.s3)
  }

  function Xor32(a: Quad, b: Quad): Quad
  {
    Quad(X32(a.s0, b.s0), X32(a.s1, b.s1), X32(a.s2, b.s2), X32(a.s3, b.s3))
  }

  // Each word of the update, as the cascade of assignments in the 32-bit
  // `get_rand` leaves it, on explicit arguments first.

  lemma CascadeW0(s0: bv32, s1: bv32, s3: bv32)
    ensures X32(s0, s3 ^ s1) == NextW0(s0, s1, s3)
  {
  }

  lemma CascadeW1(s0: bv32, s1: bv32, s2: bv32)
    ensures X32(s1, s2 ^ s0) == NextW1(s0, s1, s2)
  {
  }

  lemma CascadeW2(s0: bv32, s1: bv32, s2: bv32)
    ensures X32(s2 ^ s0, s1 << 9) == NextW2(s0, s1, s2)
  {
  }

  lemma CascadeW3(s1: bv32, s3: bv32)
    ensures (s3 ^ s1).RotateLeft(11) == NextW3(s1, s3)
  {
  }

  /** The in-place cascade of the 32-bit `get_rand`, with the engine's own `rotl`, computes the update. */
  lemma NewWordsAreNext32(s0: bv32, s1: bv32, s2: bv32, s3: bv32)
    ensures X32(s0, X32(s3, s1)) == NextW0(s0, s1, s3)
    ensures X32(s1, X32(s2, s0)) == NextW1(s0, s1, s2)
    ensures X32(X32(s2, s0), s1 << 9) == NextW2(s0, s1, s2)
    ensures X32(s3, s1).RotateLeft(11) == NextW3(s1, s3)
  {
    CascadeW0(s0, s1, s3);
    CascadeW1(s0, s1, s2);
    CascadeW2(s0, s1, s2);
    CascadeW3(s1, s3);
  }

  lemma NextW0Xor(a0: bv32, a1: bv32, a3: bv32, b0: bv32, b1: bv32, b3: bv32)
    ensures X32(a0 ^ (a3 ^ a1), b0 ^ (b3 ^ b1)) == (a0 ^ b0) ^ ((a3 ^ b3) ^ (a1 ^ b1))
  {
  }
  lemma NextW1Xor(a0: bv32, a1: bv32, a2: bv32, b0: bv32, b1: bv32, b2: bv32)
    ensures X32(a1 ^ (a2 ^ a0), b1 ^ (b2 ^ b0)) == (a1 ^ b1) ^ ((a2 ^ b2) ^ (a0 ^ b0))
  {
  }
  lemma NextW2Xor(a0: bv32, a1: bv32, a2: bv32, b0: bv32, b1: bv32, b2: bv32)
    ensures X32((a2 ^ a0) ^ (a1 << 9), (b2 ^ b0) ^ (b1 << 9)) == ((a2 ^ b2) ^ (a0 ^ b0)) ^ ((a1 ^ b1) << 9)
  {
  }
  lemma NextW3Xor(a1: bv32, a3: bv32, b1: bv32, b3: bv32)
    ensures X32(((a3 ^ a1) << 11) | ((a3 ^ a1) >> 21), ((b3 ^ b1) << 11) | ((b3 ^ b1) >> 21))
         == (((a3 ^ b3) ^ (a1 ^ b1)) << 11) | (((a3 ^ b3) ^ (a1 ^ b1)) >> 21)
  {
  }
  lemma NextW0Linear(a0: bv32, a1: bv32, a3: bv32, b0: bv32, b1: bv32, b3: bv32)
    ensures NextW0(a0 ^ b0, a1 ^ b1, a3 ^ b3) == X32(NextW0(a0, a1, a3), NextW0(b0, b1, b3))
  {
    NextW0Xor(a0, a1, a3, b0, b1, b3);
  }
  lemma NextW1Linear(a0: bv32, a1: bv32, a2: bv32, b0: bv32, b1: bv32, b2: bv32)
    ensures NextW1(a0 ^ b0, a1 ^ b1, a2 ^ b2) == X32(NextW1(a0, a1, a2), NextW1(b0, b1, b2))
  {
    NextW1Xor(a0, a1, a2, b0, b1, b2);
  }
  lemma NextW2Linear(a0: bv32, a1: bv32, a2: bv32, b0: bv32, b1: bv32, b2: bv32)
    ensures NextW2(a0 ^ b0, a1 ^ b1, a2 ^ b2) == X32(NextW2(a0, a1, a2), NextW2(b0, b1, b2))
  {
    NextW2Xor(a0, a1, a2, b0, b1, b2);
  }
  lemma NextW3Linear(a1: bv32, a3: bv32, b1: bv32, b3: bv32)
    ensures NextW3(a1 ^ b1, a3 ^ b3) == X32(NextW3(a1, a3), NextW3(b1, b3))
  {
    NextW3Xor(a1, a3, b1, b3);
  }
  lemma NextW0LinearX(a0: bv32, a1: bv32, a3: bv32, b0: bv32, b1: bv32, b3: bv32)
    ensures NextW0(X32(a0, b0), X32(a1, b1), X32(a3, b3)) == X32(NextW0(a0, a1, a3), NextW0(b0, b1, b3))
  {
    NextW0Linear(a0, a1, a3, b0, b1, b3);
  }
  lemma NextW1LinearX(a0: bv32, a1: bv32, a2: bv32, b0: bv32, b1: bv32, b2: bv32)
    ensures NextW1(X32(a0, b0), X32(a1, b1), X32(a2, b2)) == X32(NextW1(a0, a1, a2), NextW1(b0, b1, b2))
  {
    NextW1Linear(a0, a1, a2, b0, b1, b2);
  }
  lemma NextW2LinearX(a0: bv32, a1: bv32, a2: bv32, b0: bv32, b1: bv32, b2: bv32)
    ensures NextW2(X32(a0, b0), X32(a1, b1), X32(a2, b2)) == X32(NextW2(a0, a1, a2), NextW2(b0, b1, b2))
  {
    NextW2Linear(a0, a1, a2, b0, b1, b2);
  }
  lemma NextW3LinearX(a1: bv32, a3: bv32, b1: bv32, b3: bv32)
    ensures NextW3(X32(a1, b1), X32(a3, b3)) == X32(NextW3(a1, a3), NextW3(b1, b3))
  {
    NextW3Linear(a1, a3, b1, b3);
  }
  /** The 32-bit update is linear over GF(2). */
  lemma Next32Linear(a: Quad, b: Quad)
    ensures Next32(Xor32(a, b)) == Xor32(Next32(a), Next32(b))
  {
    NextW0LinearX(a.s0, a.s1, a.s3, b.s0, b.s1, b.s3);
    NextW1LinearX(a.s0, a.s1, a.s2, b.s0, b.s1, b.s2);
    NextW2LinearX(a.s0, a.s1, a.s2, b.s0, b.s1, b.s2);
    NextW3LinearX(a.s1, a.s3, b.s1, b.s3);
  }
  lemma Next32Zero()
    ensures Next32(Quad(0, 0, 0, 0)) == Quad(0, 0, 0, 0)
  {
  }

  // The 32-bit update is a bijection too: t3 = s3 ^ s1 is rotated back out
  // of the new s3, and s0 follows; the new s1 ^ new s2 is s1 ^ (s1 << 9),
  // an xorshift undone by the shifts 9, 18 and 27; the rest is XOR.

  function PrevW0(n0: bv32, n3: bv32): bv32
  {
    n0 ^ ((n3 << 21) | (n3 >> 11))
  }
  function PrevW1(n1: bv32, n2: bv32): bv32
  {
    var y := n1 ^ n2;
    y ^ (y << 9) ^ (y << 18) ^ (y << 27)
  }
  function PrevW2(n0: bv32, n1: bv32, n2: bv32, n3: bv32): bv32
  {
    X32(X32(n1, PrevW1(n1, n2)), PrevW0(n0, n3))
  }
  function PrevW3(n1: bv32, n2: bv32, n3: bv32): bv32
  {
    ((n3 << 21) | (n3 >> 11)) ^ PrevW1(n1, n2)
  }
  /** The state a 32-bit draw was made from. */
  function Prev32(n: Quad): Quad
  {
    Quad(PrevW0(n.s0, n.s3), PrevW1(n.s1, n.s2), PrevW2(n.s0, n.s1, n.s2, n.s3), PrevW3(n.s1, n.s2, n.s3))
  }
  lemma PrevW0Of(s0: bv32, s1: bv32, s3: bv32)
    ensures PrevW0(s0 ^ (s3 ^ s1), ((s3 ^ s1) << 11) | ((s3 ^ s1) >> 21)) == s0
  {
  }
  lemma PrevW1Of(s0: bv32, s1: bv32, s2: bv32)
    ensures PrevW1(s1 ^ (s2 ^ s0), (s2 ^ s0) ^ (s1 << 9)) == s1
  {
  }
  lemma PrevW2Of(s0: bv32, s1: bv32, s2: bv32, s3: bv32)
    ensures PrevW2(s0 ^ (s3 ^ s1), s1 ^ (s2 ^ s0), (s2 ^ s0) ^ (s1 << 9), ((s3 ^ s1) << 11) | ((s3 ^ s1) >> 21)) == s2
  {
    PrevW0Of(s0, s1, s3);
    PrevW1Of(s0, s1, s2);
    Cancel2(s0, s1, s2);
  }
  lemma Cancel2(s0: bv32, s1: bv32, s2: bv32)
    ensures X32(X32(s1 ^ (s2 ^ s0), s1), s0) == s2
  {
  }
  lemma PrevW3Of(s0: bv32, s1: bv32, s2: bv32, s3: bv32)
    ensures PrevW3(s1 ^ (s2 ^ s0), (s2 ^ s0) ^ (s1 << 9), ((s3 ^ s1) << 11) | ((s3 ^ s1) >> 21)) == s3
  {
    PrevW1Of(s0, s1, s2);
  }
  lemma PrevW0Round(s0: bv32, s1: bv32, s3: bv32)
    ensures PrevW0(NextW0(s0, s1, s3), NextW3(s1, s3)) == s0
  {
    PrevW0Of(s0, s1, s3);
  }
  lemma PrevW1Round(s0: bv32, s1: bv32, s2: bv32)
    ensures PrevW1(NextW1(s0, s1, s2), NextW2(s0, s1, s2)) == s1
  {
    PrevW1Of(s0, s1, s2);
  }
  lemma PrevW2Round(s0: bv32, s1: bv32, s2: bv32, s3: bv32)
    ensures PrevW2(NextW0(s0, s1, s3), NextW1(s0, s1, s2), NextW2(s0, s1, s2), NextW3(s1, s3)) == s2
  {
    PrevW2Of(s0, s1, s2, s3);
  }
  lemma PrevW3Round(s0: bv32, s1: bv32, s2: bv32, s3: bv32)
    ensures PrevW3(NextW1(s0, s1, s2), NextW2(s0, s1, s2), NextW3(s1, s3)) == s3
  {
    PrevW3Of(s0, s1, s2, s3);
  }
  /** Stepping back undoes a 32-bit draw. */
  lemma Next32RoundTrip(q: Quad)
    ensures Prev32(Next32(q)) == q
  {
    PrevW0Round(q.s0, q.s1, q.s3);
    PrevW1Round(q.s0, q.s1, q.s2);
    PrevW2Round(q.s0, q.s1, q.s2, q.s3);
    PrevW3Round(q.s0, q.s1, q.s2, q.s3);
  }

  /** The 32-bit JUMP polynomial, least significant word first. */
  function JumpWord32(i: nat): bv32
    requires i < 4
  {
    if i == 0 then 0x8764_000B
    else if i == 1 then 0xF542_D2D3
    else if i == 2 then 0x6FA0_35C3
    else 0x77F2_DB5B
  }

  /** `UINT32_C(1) << b`, by doubling. */
  function Bit32(b: nat): bv32
    requires b < 32
  {
    if b == 0 then 1 else Bit32(b - 1) << 1
  }

  /** `JUMP[i] & UINT32_C(1) << b`. */
  predicate JumpWordBit32(i: nat, b: nat)
    requires i < 4 && b < 32
  {
    JumpWord32(i) & Bit32(b) != 0
  }

  predicate JumpBit32(j: nat)
  {
    j < 128 && JumpWord32(j / 32) & Bit32(j % 32) != 0
  }

  function JumpSum32(q: Quad, k: nat): Quad
  {
    Accumulate(Next32, Xor32, Quad(0, 0, 0, 0), JumpBit32, q, k)
  }

  function Jump32(q: Quad): Quad
  {
    JumpSum32(q, 128)
  }

  /** Jumping and drawing commute for the 32-bit engine as well. */
  lemma Jump32Commutes(q: Quad)
    ensures Jump32(Next32(q)) == Next32(Jump32(q))
  {
    forall a: Quad, b: Quad
      ensures Next32(Xor32(a, b)) == Xor32(Next32(a), Next32(b))
    {
      Next32Linear(a, b);
    }
    Next32Zero();
    AccumulateCommutes(Next32, Xor32, Quad(0, 0, 0, 0), JumpBit32, q, 128);
  }

  /** Draw b of word i is draw 32*i + b of the whole polynomial. */
  lemma JumpIndex32(i: nat, b: nat)
    requires b < 32
    ensures (32 * i + b) / 32 == i && (32 * i + b) % 32 == b
  {
  }

  lemma JumpSum32Step(q: Quad, k: nat)
    ensures JumpSum32(q, k + 1)
         == if JumpBit32(k) then Xor32(JumpSum32(q, k), Iterate(Next32, q, k)) else JumpSum32(q, k)
  {
  }

  lemma JumpBit32At(i: nat, b: nat)
    requires i < 4 && b < 32
    ensures JumpBit32(32 * i + b) <==> JumpWordBit32(i, b)
  {
    JumpIndex32(i, b);
  }

  /** One pass of the inner loop of the 32-bit `jump_stream`. */
  lemma JumpStep32(start: Quad, i: nat, b: nat, k: nat, acc: Quad, cur: Quad, acc': Quad, cur': Quad)
    requires i < 4 && b < 32 && k == 32 * i + b
    requires acc == JumpSum32(start, k) && cur == Iterate(Next32, start, k)
    requires acc' == if JumpWordBit32(i, b) then Xor32(acc, cur) else acc
    requires cur' == Next32(cur)
    ensures acc' == JumpSum32(start, k + 1) && cur' == Iterate(Next32, start, k + 1)
  {
    JumpSum32Step(start, k);
    JumpBit32At(i, b);
  }

  /**
   * The state `auto_seed` writes: the first four draws of a seeding
   * splitmix64<uint32_t>, written out draw by draw.
   */
  function AutoSeeded32(w0: bv32, w1: bv32): Quad
  {
    var t0 := Join32(w0, w1);
    var t1 := SplitMix.Advance(t0);
    var t2 := SplitMix.Advance(t1);
    var t3 := SplitMix.Advance(t2);
    Quad(GenSplitMix.Output32(t0), GenSplitMix.Output32(t1), GenSplitMix.Output32(t2), GenSplitMix.Output32(t3))
  }

  /** The seeded words are the first four draws of the seeding engine's stream. */
  lemma AutoSeeded32IsDraws(w0: bv32, w1: bv32)
    ensures var d := Draws(SplitMix.Advance, GenSplitMix.Output32, Join32(w0, w1), 4);
            AutoSeeded32(w0, w1) == Quad(d[0], d[1], d[2], d[3])
  {
    var seed := Join32(w0, w1);
    DrawsAt(SplitMix.Advance, GenSplitMix.Output32, seed, 4, 0);
    DrawsAt(SplitMix.Advance, GenSplitMix.Output32, seed, 4, 1);
    DrawsAt(SplitMix.Advance, GenSplitMix.Output32, seed, 4, 2);
    DrawsAt(SplitMix.Advance, GenSplitMix.Output32, seed, 4, 3);
  }

  /** `xoroshiro128<uint32_t>`. */
  class XoroshiroU32 {
    const threadNo: nat
    var seedArray: seq<bv32>

    /** `n_xoro_seeds` is 4 for 32-bit words. */
    predicate Valid()
      reads this
    {
      |seedArray| == 4
    }

    function State(): Quad
      reads this
      requires Valid()
    {
      Quad(seedArray[0], seedArray[1], seedArray[2], seedArray[3])
    }

    /** As for 64-bit words, with four words seeded from splitmix64<uint32_t>. */
    constructor (threadId: nat, w0: bv32, w1: bv32)
      requires threadId < 0x4000_0000
      ensures Valid()
      ensures threadNo == threadId
      ensures State() == Iterate(Jump32, AutoSeeded32(w0, w1), 2 * threadId)
    {
      threadNo := threadId;
      seedArray := [0, 0, 0, 0];
      new;
      AutoSeed(w0, w1);
      var jumpFactor := 2 * threadId;
      if jumpFactor > 0 {
        JumpTimes(jumpFactor);
      }
    }

    /** The constructor's loop `for (int x = 0; x < jump_factor; x++) jump_stream();`. */
    method JumpTimes(jumpFactor: nat)
      requires Valid()
      modifies this
      ensures Valid()
      ensures State() == Iterate(Jump32, old(State()), jumpFactor)
    {
      ghost var start := State();
      var x := 0;
      while x < jumpFactor
        invariant 0 <= x <= jumpFactor
        invariant Valid()
        invariant State() == Iterate(Jump32, start, x)
      {
        JumpStream();
        x := x + 1;
      }
    }

    method AutoSeed(w0: bv32, w1: bv32)
      requires Valid()
      modifies this
      ensures Valid()
      ensures State() == AutoSeeded32(w0, w1)
    {
      var seedGen := new GenSplitMix.SplitMixU32(w0, w1);
      ghost var t0 := Join32(w0, w1);
      ghost var t1 := SplitMix.Advance(t0);
      ghost var t2 := SplitMix.Advance(t1);
      ghost var t3 := SplitMix.Advance(t2);
      var i := 0;
      while i < |seedArray|
        invariant 0 <= i <= |seedArray| == 4
        invariant seedGen.splitSeed
               == if i == 0 then t0 else if i == 1 then t1 else if i == 2 then t2
                  else if i == 3 then t3 else SplitMix.Advance(t3)
        invariant i > 0 ==> seedArray[0] == GenSplitMix.Output32(t0)
        invariant i > 1 ==> seedArray[1] == GenSplitMix.Output32(t1)
        invariant i > 2 ==> seedArray[2] == GenSplitMix.Output32(t2)
        invariant i > 3 ==> seedArray[3] == GenSplitMix.Output32(t3)
      {
        var v := seedGen.Call();
        seedArray := seedArray[i := v];
        i := i + 1;
      }
    }

    /**
     * One 32-bit draw: the cascade of in-place XORs on the four words of
     * seed_array, carried out on local copies of the words and stored back.
     */
    method GetRand() returns (r: bv32)
      requires Valid()
      modifies this
      ensures Valid()
      ensures State() == Next32(old(State()))
      ensures r == Output32(old(State()))
    {
      var s0, s1, s2, s3 := seedArray[0], seedArray[1], seedArray[2], seedArray[3];
      assert State() == Quad(s0, s1, s2, s3);
      NewWordsAreNext32(s0, s1, s2, s3);
      var resultPlus := Add32(s0, s3);
      var x := s1 << 9;
      s2 := X32(s2, s0);
      s3 := X32(s3, s1);
      s1 := X32(s1, s2);
      s0 := X32(s0, s3);
      s2 := X32(s2, x);
      s3 := s3.RotateLeft(11);
      seedArray := [s0, s1, s2, s3];
      r := resultPlus;
    }

    /** `jump_stream` over four 32-bit words: again 128 draws. */
    method JumpStream()
      requires Valid()
      modifies this
      ensures Valid()
      ensures State() == Jump32(old(State()))
    {
      ghost var start := State();
      ghost var k: nat := 0;
      var s0: bv32 := 0;
      var s1: bv32 := 0;
      var s2: bv32 := 0;
      var s3: bv32 := 0;
      var i := 0;
      while i < 4
        invariant 0 <= i <= 4 && k == 32 * i
        invariant Valid()
        invariant State() == Iterate(Next32, start, k)
        invariant Quad(s0, s1, s2, s3) == JumpSum32(start, k)
      {
        s0, s1, s2, s3 := JumpWord(i, s0, s1, s2, s3, start, k);
        k := k + 32;
        i := i + 1;
      }
      seedArray := seedArray[0 := s0];
      seedArray := seedArray[1 := s1];
      seedArray := seedArray[2 := s2];
      seedArray := seedArray[3 := s3];
    }

    /** The inner loop of `jump_stream`: the 32 bits of JUMP[i], lowest first. */
    method JumpWord(i: nat, s0: bv32, s1: bv32, s2: bv32, s3: bv32, ghost start: Quad, ghost k0: nat)
      returns (s0': bv32, s1': bv32, s2': bv32, s3': bv32)
      requires Valid() && i < 4 && k0 == 32 * i
      requires State() == Iterate(Next32, start, k0)
      requires Quad(s0, s1, s2, s3) == JumpSum32(start, k0)
      modifies this
      ensures Valid()
      ensures State() == Iterate(Next32, start, k0 + 32)
      ensures Quad(s0', s1', s2', s3') == JumpSum32(start, k0 + 32)
    {
      ghost var k := k0;
      s0', s1', s2', s3' := s0, s1, s2, s3;
      var b := 0;
      while b < 32
        invariant 0 <= b <= 32 && k == k0 + b
        invariant Valid()
        invariant State() == Iterate(Next32, start, k)
        invariant Quad(s0', s1', s2', s3') == JumpSum32(start, k)
      {
        s0', s1', s2', s3' := JumpBit(i, b, s0', s1', s2', s3', start, k);
        b := b + 1;
        k := k + 1;
      }
    }

    /**
     * The body of the inner loop of `jump_stream`, for bit b of JUMP[i]:
     * XOR the words in when the bit is set, then draw once.
     */
    method JumpBit(i: nat, b: nat, s0: bv32, s1: bv32, s2: bv32, s3: bv32, ghost start: Quad, ghost k: nat)
      returns (s0': bv32, s1': bv32, s2': bv32, s3': bv32)
      requires Valid() && i < 4 && b < 32 && k == 32 * i + b
      requires State() == Iterate(Next32, start, k)
      requires Quad(s0, s1, s2, s3) == JumpSum32(start, k)
      modifies this
      ensures Valid()
      ensures State() == Iterate(Next32, start, k + 1)
      ensures Quad(s0', s1', s2', s3') == JumpSum32(start, k + 1)
    {
      ghost var cur := State();
      s0', s1', s2', s3' := s0, s1, s2, s3;
      if JumpWordBit32(i, b) {
        s0' := X32(s0', seedArray[0]);
        s1' := X32(s1', seedArray[1]);
        s2' := X32(s2', seedArray[2]);
        s3' := X32(s3', seedArray[3]);
      }
      var discarded := GetRand();
      JumpStep32(start, i, b, k, Quad(s0, s1, s2, s3), cur, Quad(s0', s1', s2', s3'), State());
    }
  }
}
