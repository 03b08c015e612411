# threaded_rands in Dafny

This project models the core of threaded_rands, a C++ header library that
gives every thread its own pseudo-random stream:

- the generator engines:
  - SplitMix64 and the `splitmix64<state_type>` seeding engine;
  - xoroshiro128+ over two 64-bit words and xoshiro128+ over four 32-bit
    words, with their jump functions;
  - Bob Jenkins' small fast generator (JSF) with its per-instance table of
    rotation amounts;
  - PCG32, two copies of PCG64, and Lehmer64;
  - the older xoroshiro128 engine of `generators.hpp`;
- the dispatcher `Threaded_rands<result_type, state_type>`:
  - one engine per thread index;
  - the width adaptation `rand >> bit_shift`;
  - Lemire's bounded draw with O'Neill's negate-and-reduce threshold;
  - the sequential fills `generate` and `generate_range`;
- the older 64-bit-only `Threaded_rands`, whose bounded draw holds its range
  in an `int`.

Every engine draw is modelled as a pure step function on the engine state
and an output function. Every engine class has those state fields, updated
by methods whose postconditions are stated through the step and output
functions. `populate_array` and `fill_array` are proved against
`Streams.Draws`, the values of n successive draws. The pure functions carry
lemmas about them:
- the mixes and steps are bijections, with explicit inverses;
- SplitMix64 has the closed form seed + n·GAMMA and period 2^64;
- the xoroshiro updates are linear over GF(2), so a jump commutes with drawing;
- PCG increments stay odd;
- an odd Lehmer state stays odd.

The dispatcher holds its engines as values, a `seq<Engine>`, because
`gen_vec` is a vector of `std::variant`s. A draw replaces only the element
of its own thread. The bounded draw is modelled twice:
- as written, with C++ wrap-around made explicit;
- as Lemire's method that the comments describe.

`generate_range` is modelled with the bounded draw as written
(`GenerateRange`), whose values can fall outside [lower, upper)
(`FillAsWrittenEscapes`). It is also modelled with Lemire's method
(`GenerateRangeIntended`), where the in-range guarantee is proved.

The dispatcher builds its JSF engines as the constructor is written. The
warm-up reads p, q and r before they are assigned, so the values they hold
then are part of each thread's `Entropy`. `InitialJsfAsIntended` states
when the engine built that way is the intended one.

Words are `bv32`, `bv64` and `bv128`. The dispatcher's arithmetic is on
`nat`, with each conversion to a fixed width written out as a reduction
modulo 2^W (`Lemire.Wrap`, `Lemire.WideWrap`).

Where the library's design notes and the code disagree, the model follows the code:
- The bounded draws do not reject `lower >= upper`. `our_upper = upper - lower` wraps modulo 2^R, and the model computes exactly that (`Lemire.Span`, `LegacyThreadedRands.OurUpper`). The range guarantees are proved under `lower < upper`.
- `get_bounded_rand(0)` returns 0. Nothing fails.

## Model

| member | source | states |
|---|---|---|
| Words.Join64 | include/pcg64.hpp:66-67 | the high half of `(hi << 64) \| lo` is hi and the low half is lo |
| Words.Join32 | include/generators/splitmix64.hpp:46 | the high 32 bits of `(hi << 32) \| lo` are hi and the low 32 bits are lo |
| Words.Rotl64By24Inverse | include/generators.hpp:105 | rotating left by 24 and then by 40 restores the word |
| Words.Rotl64By37Inverse | include/generators.hpp:105 | rotating left by 37 and then by 27 restores the word |
| Words.Rotl32By11Inverse | include/generators.hpp:105 | rotating a 32-bit word left by 11 and then by 21 restores it |
| Words.Rotl64IsRotateLeft | generators.hpp:74 | `rotl(x, 24)` and `rotl(x, 37)` are circular rotations |
| Words.Rotl32IsRotateLeft | include/generators.hpp:105 | the 32-bit `rotl(x, 11)` is a circular rotation |
| Streams.IndexedAt | threaded_rands.hpp:36-44 | element i of a sequence built by pushing f(i, xs[i]) in order is f(i, xs[i]) |
| Streams.IterateAdd | include/generators/splitmix64.hpp:66-70 | n draws followed by m draws leave the state of n + m draws |
| Streams.IterateSwap | include/generators.hpp:172 | drawing once then n times is drawing n times then once |
| Streams.IterateKeeps | include/pcg32.hpp:96-103 | a property every step preserves holds after any number of draws |
| Streams.DrawsAt | include/generators/splitmix64.hpp:66-70 | value i of n successive draws is the output of the state after i draws |
| Streams.DrawsSplit | include/generators/splitmix64.hpp:66-70 | n + m successive draws are the n draws followed by m draws from the state left behind |
| Streams.DrawsAgreeIffStatesAgree | include/generators/splitmix64.hpp:53-59 | if the output function is injective, two draws of one stream are equal exactly when their states are equal |
| Streams.Fill | include/generators/splitmix64.hpp:66-70 | the `populate_array` loop writes the n successive draws to arr[0..n), leaves arr[n..] unchanged and returns the state after n draws |
| Streams.AccumulateCommutes | include/generators.hpp:151-178 | for a linear step, the XOR of the states selected by the jump polynomial, taken from the next state, is the next state of that XOR |
| SplitMix.FirstRoundTrip | include/generators/splitmix64.hpp:56 | the first xorshift-multiply round is undone by UnmixFirst |
| SplitMix.MidRoundTrip | include/generators/splitmix64.hpp:57 | the second round is undone by UnmixMid |
| SplitMix.LastRoundTrip | include/generators/splitmix64.hpp:58 | the final xorshift is undone by UnmixLast |
| SplitMix.MixRoundTrip | include/generators/splitmix64.hpp:56-58 | Unmix(Mix(z)) == z: the mix loses nothing |
| SplitMix.MixInjective | include/generators/splitmix64.hpp:56-58 | two mixed words are equal exactly when the inputs are equal |
| SplitMix.WeylStep | include/generators/splitmix64.hpp:55 | one draw moves the state from seed + c·GAMMA to seed + (c+1)·GAMMA, modulo 2^64 |
| SplitMix.StateAfterClosedForm | include/generators/splitmix64.hpp:55 | after n draws the state is seed + n·GAMMA modulo 2^64 |
| SplitMix.OutputAt | include/generators/splitmix64.hpp:66-70 | entry i of a fill is Mix(seed + (i+1)·GAMMA) |
| SplitMix.WeylIndexOfWeyl | include/generators/splitmix64.hpp:55 | the draw count is recovered from the state by multiplying by the inverse of GAMMA |
| SplitMix.StatesRepeatOnlyWithPeriod | include/generators/splitmix64.hpp:55 | two states of a stream are equal exactly when their draw counts agree modulo 2^64 |
| SplitMix.OutputInjective | include/generators/splitmix64.hpp:53-59 | two draws from states a and b return the same value exactly when a == b |
| SplitMix.OutputsRepeatOnlyWithPeriod | include/generators/splitmix64.hpp:53-59 | two outputs of a fill are equal exactly when their draw counts agree modulo 2^64: period 2^64, no repeat within it |
| SplitMix.SplitMix64.FromEntropy | include/generators/splitmix64.hpp:40-47 | the state is the first entropy word in the high half and the second in the low half |
| SplitMix.SplitMix64.constructor | include/generators/splitmix64.hpp:50-51 | the state is the seed |
| SplitMix.SplitMix64.GetRand | include/generators/splitmix64.hpp:53-59 | the state advances by GAMMA and the draw returns the mix of the new state |
| SplitMix.SplitMix64.Call | include/generators/splitmix64.hpp:61-64 | the same draw as GetRand |
| SplitMix.SplitMix64.PopulateArray | include/generators/splitmix64.hpp:66-70 | arr[0..n) holds the n successive draws, the rest of arr is unchanged, and the state has made n draws |
| GenSplitMix.SeedOf64 | include/generators.hpp:67 | for 64-bit entropy words the low half of the seed is w1's, and the high half is w0's low half OR-ed with w1's high half |
| GenSplitMix.First32AsWritten | include/generators.hpp:75 | the 32-bit first round equals the 64-bit product by the full constant, truncated to 32 bits |
| GenSplitMix.Mid32AsWritten | include/generators.hpp:76 | the 32-bit second round equals the 64-bit product by the full constant, truncated |
| GenSplitMix.First32RoundTrip | include/generators.hpp:75 | the truncated first round is undone by UnFirst32 |
| GenSplitMix.Mid32RoundTrip | include/generators.hpp:76 | the truncated second round is undone by UnMid32 |
| GenSplitMix.Last32RoundTrip | include/generators.hpp:77 | the final 32-bit xorshift is undone by UnLast32 |
| GenSplitMix.Mix32RoundTrip | include/generators.hpp:74-77 | the 32-bit mix loses nothing |
| GenSplitMix.Output32Determines | include/generators.hpp:72-78 | two 32-bit draws are equal exactly when the low halves of their advanced counters are equal |
| GenSplitMix.SplitMixU64.constructor | include/generators.hpp:61-68 | the counter is `uint64_t(w0) << 32 \| w1` for 64-bit entropy words |
| GenSplitMix.SplitMixU64.GetRand | include/generators.hpp:72-78 | the counter advances by GAMMA and the draw is the SplitMix64 output |
| GenSplitMix.SplitMixU64.Call | include/generators.hpp:70 | the same draw as GetRand |
| GenSplitMix.SplitMixU32.constructor | include/generators.hpp:61-68 | the counter joins the two 32-bit entropy words high then low |
| GenSplitMix.SplitMixU32.GetRand | include/generators.hpp:72-78 | the 64-bit counter advances by the full GAMMA and the draw is the 32-bit mix of its low half |
| GenSplitMix.SplitMixU32.Call | include/generators.hpp:70 | the same draw as GetRand |
| Xoroshiro.NewWordsAreNext64 | include/generators.hpp:224-231 | the assignments of the 64-bit `get_rand` compute the update NextS0/NextS1 |
| Xoroshiro.NextS0Linear | include/generators.hpp:230 | the new first word of an XOR of states is the XOR of the new first words |
| Xoroshiro.NextS1Linear | include/generators.hpp:231 | the new second word of an XOR of states is the XOR of the new second words |
| Xoroshiro.Next64Linear | include/generators.hpp:224-231 | the 64-bit update is linear over GF(2) |
| Xoroshiro.Next64Zero | include/generators.hpp:224-231 | the all-zero state is a fixed point |
| Xoroshiro.PrevS0Round | include/generators.hpp:229-231 | PrevS0 recovers the old first word from the new pair |
| Xoroshiro.PrevS1Round | include/generators.hpp:229-231 | PrevS1 recovers the old second word from the new pair |
| Xoroshiro.Next64RoundTrip | include/generators.hpp:224-231 | Prev64(Next64(x)) == x: a 64-bit draw loses no state |
| Xoroshiro.Jump64Commutes | include/generators.hpp:151-178 | jumping and then drawing is drawing and then jumping |
| Xoroshiro.AutoSeeded64IsDraws | include/generators.hpp:110-116 | the seeded words are the first two draws of the seeding splitmix64<uint64_t> |
| Xoroshiro.JumpIndex64 | include/generators.hpp:163-167 | draw b of word i is draw 64i + b of the 128-bit polynomial |
| Xoroshiro.JumpSum64Step | include/generators.hpp:167-172 | one more draw XORs the current state into the sum exactly when its bit is set |
| Xoroshiro.JumpBit64At | include/generators.hpp:167 | bit 64i + b of the polynomial is `JUMP[i] & 1 << b` |
| Xoroshiro.JumpStep64 | include/generators.hpp:165-173 | one pass of the inner loop keeps the accumulator and the state in step with draw k |
| Xoroshiro.XoroshiroU64.constructor | include/generators.hpp:182-196 | two words, seeded from the entropy words by `auto_seed`, then jumped 2·thread_id times |
| Xoroshiro.XoroshiroU64.JumpTimes | include/generators.hpp:190-195 | the jump loop leaves the state jumped jump_factor times |
| Xoroshiro.XoroshiroU64.AutoSeed | include/generators.hpp:110-116 | every word becomes the next seeding draw |
| Xoroshiro.XoroshiroU64.GetRand | include/generators.hpp:220-234 | returns s0 + s1 of the old state and applies the (24, 16, 37) update |
| Xoroshiro.XoroshiroU64.JumpStream | include/generators.hpp:151-178 | the state becomes the jump of the old state |
| Xoroshiro.XoroshiroU64.JumpWord | include/generators.hpp:165-173 | the 64 inner passes for JUMP[i] advance the state and the accumulator by 64 draws |
| Xoroshiro.XoroshiroU64.JumpBit | include/generators.hpp:167-172 | one inner pass advances the state and the accumulator by one draw |
| Xoroshiro.NewWordsAreNext32 | include/generators.hpp:203-214 | the in-place cascade of the 32-bit `get_rand` computes the four-word update |
| Xoroshiro.Next32Linear | include/generators.hpp:203-214 | the 32-bit update is linear over GF(2) |
| Xoroshiro.Next32Zero | include/generators.hpp:203-214 | the all-zero four-word state is a fixed point |
| Xoroshiro.PrevW0Round | include/generators.hpp:207-214 | PrevW0 recovers the old word 0 |
| Xoroshiro.PrevW1Round | include/generators.hpp:207-214 | PrevW1 recovers the old word 1 |
| Xoroshiro.PrevW2Round | include/generators.hpp:207-214 | PrevW2 recovers the old word 2 |
| Xoroshiro.PrevW3Round | include/generators.hpp:207-214 | PrevW3 recovers the old word 3 |
| Xoroshiro.Next32RoundTrip | include/generators.hpp:203-214 | Prev32(Next32(q)) == q: a 32-bit draw loses no state |
| Xoroshiro.Jump32Commutes | include/generators.hpp:118-147 | the 32-bit jump commutes with drawing |
| Xoroshiro.JumpIndex32 | include/generators.hpp:129-133 | draw b of word i is draw 32i + b of the polynomial |
| Xoroshiro.JumpSum32Step | include/generators.hpp:133-139 | one more draw XORs the current state into the sum exactly when its bit is set |
| Xoroshiro.JumpBit32At | include/generators.hpp:133 | bit 32i + b of the polynomial is `JUMP[i] & 1 << b` |
| Xoroshiro.JumpStep32 | include/generators.hpp:131-140 | one pass of the 32-bit inner loop keeps the accumulator and the state in step with draw k |
| Xoroshiro.AutoSeeded32IsDraws | include/generators.hpp:110-116 | the four seeded words are the first four draws of the seeding splitmix64<uint32_t> |
| Xoroshiro.XoroshiroU32.constructor | include/generators.hpp:182-196 | four words, seeded from the entropy words, then jumped 2·thread_id times |
| Xoroshiro.XoroshiroU32.JumpTimes | include/generators.hpp:190-195 | the jump loop leaves the state jumped jump_factor times |
| Xoroshiro.XoroshiroU32.AutoSeed | include/generators.hpp:110-116 | every word becomes the next 32-bit seeding draw |
| Xoroshiro.XoroshiroU32.GetRand | include/generators.hpp:199-217 | returns s0 + s3 of the old state and applies the four-word update |
| Xoroshiro.XoroshiroU32.JumpStream | include/generators.hpp:118-147 | the state becomes the 32-bit jump of the old state |
| Xoroshiro.XoroshiroU32.JumpWord | include/generators.hpp:131-140 | the 32 inner passes for JUMP[i] advance the state and the accumulator by 32 draws |
| Xoroshiro.XoroshiroU32.JumpBit | include/generators.hpp:133-139 | one inner pass advances the state and the accumulator by one draw |
| LegacyXoroshiro.SplitMixSeederIsOutput | generators.hpp:91-99 | `splitmix_seeder(x)` is the draw of a SplitMix64 engine in state x |
| LegacyXoroshiro.SplitMixSeederInjective | generators.hpp:91-99 | different entropy words give different seed words |
| LegacyXoroshiro.AutoSeededInjective | generators.hpp:78-89 | the seeded state determines both entropy words |
| LegacyXoroshiro.XoroshiroLegacy.constructor | generators.hpp:35-47 | the state is the auto-seeded pair jumped 2·thread_id times |
| LegacyXoroshiro.XoroshiroLegacy.JumpTimes | generators.hpp:41-46 | the jump loop leaves the state jumped jump_factor times |
| LegacyXoroshiro.XoroshiroLegacy.AutoSeed | generators.hpp:78-89 | each entropy word is replaced in place by `splitmix_seeder` of itself |
| LegacyXoroshiro.XoroshiroLegacy.GetRand | generators.hpp:102-115 | returns s0 + s1 and applies the (24, 16, 37) update |
| LegacyXoroshiro.XoroshiroLegacy.Call | generators.hpp:51 | the same draw as GetRand |
| LegacyXoroshiro.XoroshiroLegacy.JumpStream | generators.hpp:118-140 | the state becomes the jump of the old state |
| LegacyXoroshiro.XoroshiroLegacy.JumpWord | generators.hpp:128-136 | the 64 inner passes for JUMP[i] advance the state and the accumulator by 64 draws |
| LegacyXoroshiro.XoroshiroLegacy.JumpBit | generators.hpp:130-135 | one inner pass advances the state and the accumulator by one draw |
| Jsf.ParamIndexAsWritten | include/generators.hpp:366-377 | as written, instance counts 1..22 take row count - 1 and every other count takes row 0, so the index stays below 22 |
| Jsf.ParamIndexAsWrittenSkipsLastRow | include/generators.hpp:373-377 | as written, row 22 is never chosen, and instance 23 takes row 0 where the roll-over intends row 22 |
| Jsf.ParamIndex | include/generators.hpp:372-381 | the intended row is always one of the 23 rows |
| Jsf.ParamIndexCycles | include/generators.hpp:372-381 | engine i + 1 + 23n takes row i: every row is used in turn |
| Jsf.ParamIndexAgreesBelow23 | include/generators.hpp:366-377 | the written and the intended index agree exactly for counts up to 22 and counts ≡ 1 (mod 23) |
| Jsf.Unadvance32Advance32 | include/generators.hpp:401-408 | undoing a 32-bit advance gives back the state before it |
| Jsf.Advance32Unadvance32 | include/generators.hpp:401-408 | advancing an undone state gives back the state |
| Jsf.Advance32Injective | include/generators.hpp:401-408 | two states advance to the same state exactly when they are equal |
| Jsf.Advanced32Injective | include/generators.hpp:397-398 | n advances keep distinct states distinct |
| Jsf.Advanced32KeepsAmounts | include/generators.hpp:401-408 | advancing never changes p, q, r |
| Jsf.Advanced32Add | include/generators.hpp:397-398 | m advances followed by n advances are m + n advances |
| Jsf.WarmUp32Injective | include/generators.hpp:391-399 | after the 20 warm-up advances, two seed words give the same engine exactly when they are equal |
| Jsf.AsWrittenAgreesWhenAmountsMatch32 | include/generators.hpp:355-389 | when the unassigned p, q, r happen to hold the engine's own row, the written constructor builds the intended engine |
| Jsf.SeedWord32Zero | include/generators.hpp:359-362 | the seed word drawn from entropy (0, 0) is 0x60b119bf |
| Jsf.IntendedWarmUp | include/generators.hpp:391-399 | the warm-up from that seed with row 0 (3, 14, 24) ends with a = 0xe1577b0c |
| Jsf.UnsetWarmUp | include/generators.hpp:391-399 | the same warm-up with amounts (1, 1, 0) ends with a = 0x28d92bca |
| Jsf.IntendedFirstEngine | include/generators.hpp:355-389 | the first engine built as intended from entropy (0, 0) has a = 0xe1577b0c |
| Jsf.AsWrittenFirstEngine | include/generators.hpp:355-389 | the same engine built as written, with p, q, r holding (1, 1, 0) during `seed`, has a = 0x28d92bca |
| Jsf.WarmUpUsesUnsetAmounts | include/generators.hpp:355-389 | the engine built as written differs from the intended one for that input |
| Jsf.JsfU32.constructor | include/generators.hpp:355-389 | as intended (the corrected half of the :362 and :373-377 findings): a = 0xf1ea5eed, p, q, r from row (count - 1) mod 23, b = c = d = one 32-bit seeding draw, then 20 advances |
| Jsf.JsfU32.AsWritten | include/generators.hpp:355-389 | the warm-up runs with the prior contents of p, q, r, then the written row is stored |
| Jsf.JsfU32.SeedFrom | include/generators.hpp:359-362 | `seed(seed_gen())` with a fresh seeding engine on the entropy words |
| Jsf.JsfU32.Seed | include/generators.hpp:391-399 | b, c, d become the seed and 20 advances follow; a and the amounts are kept |
| Jsf.JsfU32.Advance | include/generators.hpp:401-408 | the five assignments compute Advance32 |
| Jsf.JsfU32.GetRand | include/generators.hpp:410-414 | one advance, returning the new d |
| Jsf.JsfU32.Call | include/generators.hpp:416 | the same draw as GetRand |
| Jsf.Unadvance64Advance64 | include/generators.hpp:401-408 | undoing a 64-bit advance gives back the state before it |
| Jsf.Advance64Unadvance64 | include/generators.hpp:401-408 | advancing an undone 64-bit state gives it back |
| Jsf.Advance64Injective | include/generators.hpp:401-408 | two 64-bit states advance to the same state exactly when they are equal |
| Jsf.Advanced64Injective | include/generators.hpp:397-398 | n advances keep distinct 64-bit states distinct |
| Jsf.Advanced64KeepsAmounts | include/generators.hpp:401-408 | advancing never changes the 64-bit amounts |
| Jsf.WarmUp64Injective | include/generators.hpp:391-399 | after the warm-up, two 64-bit seed words give the same engine exactly when they are equal |
| Jsf.AsWrittenAgreesWhenAmountsMatch64 | include/generators.hpp:355-389 | a 64-bit engine whose unassigned amounts held (7, 13, 37) is built as intended |
| Jsf.JsfU64.constructor | include/generators.hpp:355-389 | as intended (the corrected half of the :362 finding): a = 0xf1ea5eed, amounts (7, 13, 37) stored before the warm-up, b = c = d = one seeding draw, then 20 advances |
| Jsf.JsfU64.AsWritten | include/generators.hpp:355-389 | the warm-up runs with the prior p, q, r and (7, 13, 37) is stored afterwards |
| Jsf.JsfU64.SeedFrom | include/generators.hpp:359-362 | `seed(seed_gen())` on 64-bit words |
| Jsf.JsfU64.Seed | include/generators.hpp:391-399 | b, c, d become the seed and 20 advances follow |
| Jsf.JsfU64.Advance | include/generators.hpp:401-408 | the five assignments compute Advance64 |
| Jsf.JsfU64.GetRand | include/generators.hpp:410-414 | one advance, returning the new d |
| Jsf.JsfU64.Call | include/generators.hpp:416 | the same draw as GetRand |
| Pcg32.Rotr32 | include/pcg32.hpp:102 | a rotation by 0 returns the word unchanged |
| Pcg32.RotAmount | include/pcg32.hpp:101 | the amount is the top five bits of the old state, so below 32 |
| Pcg32.Increment | include/pcg32.hpp:64 | the increment is always odd |
| Pcg32.IncrementKeepsLowBits | include/pcg32.hpp:64 | the increment carries initseq's low 63 bits above its low bit |
| Pcg32.IncrementSelectsStream | include/pcg32.hpp:64 | two sequence words give the same increment, and so the same stream, exactly when they agree in their low 63 bits |
| Pcg32.StepFromZero | include/pcg32.hpp:63-65 | from state 0 the first step lands on the increment |
| Pcg32.Seeded | include/pcg32.hpp:63-67 | the seeded state is one step from inc + seed, with inc = Increment(initseq) |
| Pcg32.StateRoundTrip | include/pcg32.hpp:99 | the state step is undone by the inverse multiplier |
| Pcg32.StepRoundTrip | include/pcg32.hpp:99 | Unstep(Step(p)) == p: the step is a bijection |
| Pcg32.IncNeverChanges | include/pcg32.hpp:96-103 | the increment is the same after any number of draws |
| Pcg32.Pcg32.FromEntropy | include/pcg32.hpp:51-68 | the engine is Seeded(join(w0, w1), join(w2, w3)) with an odd increment |
| Pcg32.Pcg32.constructor | include/pcg32.hpp:70-80 | the engine is Seeded(join(seed1, seed2), PCG_DEFAULT_INCREMENT_64) |
| Pcg32.Pcg32.GetRand | include/pcg32.hpp:96-103 | the state steps, and the draw is the rotated xorshift of the old state |
| Pcg32.Pcg32.SeedingDraws | include/pcg32.hpp:65-67 | a dropped draw, `state += seed`, another dropped draw |
| Pcg32.Pcg32.Call | include/pcg32.hpp:90-93 | the same draw as GetRand |
| Pcg32.NextCounter | include/pcg32.hpp:84 | `++i` on the uint32_t counter increases it, except at 2^32 - 1 |
| Pcg32.CounterNeverReachesSize | include/pcg32.hpp:84 | for size ≥ 2^32 the guard `i < size` holds for every counter value and its successor, and `++i` wraps 2^32 - 1 to 0, so the loop never ends |
| Pcg32.Pcg32.PopulateArray | include/pcg32.hpp:82-88 | with a counter as wide as size (the corrected half of the :84 finding): arr[0..size) holds the successive draws, the rest of arr is unchanged, and the engine has made size draws |
| Pcg64.Rotr64 | include/pcg64.hpp:33-36 | a rotation by 0 returns the word unchanged |
| Pcg64.RotAmount | include/pcg64.hpp:40 | the amount is the top six bits of the state, so below 64 |
| Pcg64.Increment | include/pcg64.hpp:70 | the increment is always odd |
| Pcg64.IncrementKeepsLowBits | include/pcg64.hpp:70 | the increment carries initseq's low 127 bits above its low bit |
| Pcg64.IncrementSelectsStream | include/pcg64.hpp:70 | two sequence words give the same increment exactly when they agree in their low 127 bits |
| Pcg64.StepFromZero | include/pcg64.hpp:69-71 | from state 0 the first step lands on the increment |
| Pcg64.Seeded | include/pcg64.hpp:69-73 | the seeded state is one step from inc + seed |
| Pcg64.StateRoundTrip | include/pcg64.hpp:27-30 | the 128-bit state step is undone by the inverse multiplier |
| Pcg64.StepRoundTrip | include/pcg64.hpp:27-30 | Unstep(Step(p)) == p |
| Pcg64.IncNeverChanges | include/pcg64.hpp:44-48 | the increment is the same after any number of draws |
| Pcg64.Pcg64.FromEntropy | include/pcg64.hpp:52-74 | the engine is Seeded(join(part1, part2), join(part3, part4)) with an odd increment |
| Pcg64.Pcg64.SeedingDraws | include/pcg64.hpp:71-73 | a dropped draw, `state += seed`, another dropped draw |
| Pcg64.Pcg64.StepR | include/pcg64.hpp:27-30 | one state step |
| Pcg64.Pcg64.RandomR | include/pcg64.hpp:44-48 | the state steps, and the draw is the XSL-RR output of the new state |
| Pcg64.Pcg64.GetRand | include/pcg64.hpp:22-25 | the same draw as RandomR |
| Pcg64.Pcg64.FillArray | include/pcg64.hpp:76-80 | arr[0..n) holds the successive draws, and the engine has made n draws |
| Pcg64Gen.Pcg64.FromEntropy | include/generators/pcg64.hpp:52-66 | the engine is Seeded(join(w0, w1), join(w2, w3)) with an odd increment |
| Pcg64Gen.Pcg64.constructor | include/generators/pcg64.hpp:68-78 | the engine is Seeded(join(seed1, seed2), PCG_DEFAULT_INCREMENT_128) |
| Pcg64Gen.Pcg64.SeedingDraws | include/generators/pcg64.hpp:61-65 | a dropped draw, `state += seed`, another dropped draw |
| Pcg64Gen.Pcg64.RandomR | include/generators/pcg64.hpp:41-48 | the state steps, and the draw is the XSL-RR output of the new state |
| Pcg64Gen.Pcg64.GetRand | include/generators/pcg64.hpp:80-83 | the same draw as RandomR |
| Pcg64Gen.Pcg64.Call | include/generators/pcg64.hpp:85-88 | the same draw as RandomR |
| Pcg64Gen.Pcg64.PopulateArray | include/generators/pcg64.hpp:90-94 | arr[0..n) holds the successive draws, and the engine has made n draws |
| Lehmer64.StepRoundTrip | include/generators/lehmer64.hpp:31 | the multiplication by the odd multiplier is undone by its inverse modulo 2^128 |
| Lehmer64.StepKeepsParity | include/generators/lehmer64.hpp:31 | a step keeps the parity of the state |
| Lehmer64.OddForever | include/generators/lehmer64.hpp:19-20 | the odd state the default constructor makes stays odd for every later draw |
| Lehmer64.ZeroStateIsStuck | include/generators/lehmer64.hpp:24-34 | the manual constructor allows state 0, and every draw from it returns 0 |
| Lehmer64.EntropyState | include/generators/lehmer64.hpp:18-20 | the default state is odd, with w0 in the high half and w1 OR 1 in the low half |
| Lehmer64.Lehmer64.FromEntropy | include/generators/lehmer64.hpp:12-21 | the state is EntropyState(w0, w1) |
| Lehmer64.Lehmer64.constructor | include/generators/lehmer64.hpp:24-27 | the state is seed1 high and seed2 low, parity unchanged |
| Lehmer64.Lehmer64.GetRand | include/generators/lehmer64.hpp:29-34 | the state is multiplied by the constant and the draw returns its high 64 bits |
| Lehmer64.Lehmer64.Call | include/generators/lehmer64.hpp:36-39 | the same draw as GetRand |
| Lehmer64.Lehmer64.PopulateArray | include/generators/lehmer64.hpp:41-45 | arr[0..n) holds the successive draws, and the state has made n draws |
| Lemire.BitShift | include/threaded_rands.hpp:40 | `bit_shift` is 0 or 32 |
| Lemire.BitShiftCases | include/threaded_rands.hpp:36-40 | `bit_shift` is 32 exactly for 32-bit results from 64-bit states, and otherwise 0 |
| Lemire.ShiftKeepsHighBits | include/threaded_rands.hpp:89 | the shifted word fits the result type and is the word's high part: shifted·2^k ≤ word < (shifted+1)·2^k |
| Lemire.ReduceIsModulo | include/threaded_rands.hpp:210-216 | the subtract-then-`%=` chain yields t mod upper on every branch |
| Lemire.ThresholdIsPowerMod | include/threaded_rands.hpp:210-216 | `-upper` in result_type, widened and reduced, is 2^R mod upper |
| Lemire.ThresholdEqualWidths | include/threaded_rands.hpp:210-216 | with equal widths the threshold is Lemire's 2^W mod upper |
| Lemire.ThresholdBelowUpper | include/threaded_rands.hpp:210-216 | the threshold is below upper |
| Lemire.AcceptsAsWrittenIff | include/threaded_rands.hpp:204-223 | as written, a draw is kept exactly when upper is 0 or the low part of the product reaches the threshold |
| Lemire.AsWrittenReturnsLowHalf | include/threaded_rands.hpp:225 | with equal widths the value returned is x·upper mod 2^W, the low half |
| Lemire.ProductBelowWide | include/threaded_rands.hpp:204 | the product of two state-width words never wraps in int_type |
| Lemire.LowHalfEscapesBound | include/threaded_rands.hpp:225 | as written, for 64/64 with upper 2, draw 2^64 - 1 is kept and returns 2^64 - 2 |
| Lemire.WholeProductAcceptsBiasedDraw | include/threaded_rands.hpp:204-225 | as written, for R = 32 and S = 64 with upper 2^31 + 1, draws 1, 2 and 3 are kept and give 0, 1 and 1, and Lemire's test rejects draw 2 |
| Lemire.LowerAddedBeforeShift | include/threaded_rands.hpp:259-263 | as written, for R = 32, S = 64 and [10, 20), draw 1 is kept and returns 0 |
| Lemire.ResultLemireBelowUpper | include/threaded_rands.hpp:198-226 | the high part of x·upper, for an R-bit draw x, is below upper |
| Lemire.ResultBetweenAsWrittenLowerZero | include/threaded_rands.hpp:229-264 | as written, the range draw with lower = 0 keeps the same draws and returns the same value as the one-bound draw |
| Lemire.WideResultOverNarrowDraws | include/threaded_rands.hpp:198-226 | for a 64-bit result over 32-bit draws, the high part of x·upper is 0 for every draw and every upper below 2^32 |
| Lemire.ResultBetweenInRange | include/threaded_rands.hpp:229-264 | with lower < upper, lower plus the bounded draw over the span lies in [lower, upper) |
| Lemire.LemireWindow | include/threaded_rands.hpp:198-226 | the draws kept with value v are exactly those with x·upper in [v·2^R + 2^R mod upper, (v+1)·2^R) |
| Lemire.WindowsHaveEqualWidth | include/threaded_rands.hpp:198-226 | every such window has the same width upper·⌊2^R/upper⌋, so each value has equally many kept draws |
| ThreadedRands.Visit | include/threaded_rands.hpp:83-87 | `gen_visit` keeps the engine's width and returns a word below 2^S |
| ThreadedRands.DrawAt | include/threaded_rands.hpp:85-90 | every draw is below 2^R |
| ThreadedRands.AfterAdd | include/threaded_rands.hpp:85-90 | m draws followed by n draws are m + n draws |
| ThreadedRands.DrawAtAfter | include/threaded_rands.hpp:85-90 | draw j after m draws is draw m + j |
| ThreadedRands.DrawAtIsConvertedWord | include/threaded_rands.hpp:85-90 | draw k is the shifted and converted word of the engine after k draws |
| ThreadedRands.VisitKeepsWidths | include/threaded_rands.hpp:30 | every alternative of the variant keeps its width and returns words of that width |
| ThreadedRands.AfterKeepsWidth | include/threaded_rands.hpp:83 | any number of draws keeps the engine's width |
| ThreadedRands.ConversionIsExact | include/threaded_rands.hpp:85-90 | the result is word >> bit_shift with no further wrap, and it keeps the word's high bits |
| ThreadedRands.MinMaxSpanResultType | include/threaded_rands.hpp:54-56 | `min()` is 0 and `max()` is 2^R - 1 |
| ThreadedRands.NoneKeptAsWrittenSnoc | include/threaded_rands.hpp:217-222 | a rejected draw extends the rejected prefix of the loop as written |
| ThreadedRands.NoneKeptSnoc | include/threaded_rands.hpp:217-222 | a rejected draw extends the rejected prefix of Lemire's loop |
| ThreadedRands.NoneKeptRejectsEarlier | include/threaded_rands.hpp:217-222 | every draw before the first kept one was rejected |
| ThreadedRands.FirstKeptLemireUnique | include/threaded_rands.hpp:217-222 | the first kept draw is unique, so a bounded draw is determined by its stream |
| ThreadedRands.NoneKeptAsWrittenRejectsEarlier | include/threaded_rands.hpp:217-222 | as written, every draw before the first kept one was rejected |
| ThreadedRands.FirstKeptAsWrittenUnique | include/threaded_rands.hpp:217-222 | as written, the first kept draw is unique |
| ThreadedRands.RangeDrawsAsWrittenSnoc | include/threaded_rands.hpp:277-278 | one more `get_bounded_rand(lower, upper)` as written extends a run of them |
| ThreadedRands.RangeDrawsAsWrittenDetermined | include/threaded_rands.hpp:274-279 | two runs of the fill as written from one stream, of one length, agree in draw counts, values and final engine: the fill is determined by the stream |
| ThreadedRands.FillAsWrittenEscapes | include/threaded_rands.hpp:259-263 | as written, for R = 32, S = 64 and [10, 20), a fill of length 1 whose first draw is 1 holds 0, outside [lower, upper) |
| ThreadedRands.RangeDrawsSnoc | include/threaded_rands.hpp:259-263 | as intended, lower added after the shift (the corrected half of the :259-263 finding): one more bounded draw extends a run |
| ThreadedRands.RangeDrawsInRange | include/threaded_rands.hpp:259-263 | as intended (the corrected half of the :259-263 finding): with lower < upper every value of a run lies in [lower, upper) |
| ThreadedRands.InitialWidth | include/threaded_rands.hpp:70-78 | the engine built for a thread has the dispatcher's state width |
| ThreadedRands.InitialEnginesSnoc | include/threaded_rands.hpp:70-78 | the first n + 1 engines are the first n and then thread n's |
| ThreadedRands.InitialEnginesAt | include/threaded_rands.hpp:70-78 | engine i is the one built for thread i from its own entropy |
| ThreadedRands.InitialJsfAsIntended | include/generators.hpp:355-389 | a JSF engine built as written is the intended one when its unset p, q, r held its own row and, for 32 bits, its instance number is at most 22 |
| ThreadedRands.MakeEngine | include/threaded_rands.hpp:72-77 | `xoroshiro128(thread_id)` or `jsf(thread_id)` builds the engine Initial describes; JSF engines are built as written, warmed up with the amounts p, q, r held before they were assigned |
| ThreadedRands.Dispatcher.constructor | include/threaded_rands.hpp:65-80 | one engine per thread id in increasing order, with `gen_visit` as the visitor; JSF engines as written |
| ThreadedRands.Dispatcher.PushEngine | include/threaded_rands.hpp:70-78 | one loop iteration appends thread threadId's engine |
| ThreadedRands.Dispatcher.GetRand | include/threaded_rands.hpp:85-90 | the draw of stream thread_id shifted by `bit_shift`, within [min(), max()]; no other stream moves |
| ThreadedRands.Dispatcher.NextDraw | include/threaded_rands.hpp:85-90 | on a stream that has made k draws, GetRand returns draw k |
| ThreadedRands.Dispatcher.Call | include/threaded_rands.hpp:98 | a draw of stream 0 |
| ThreadedRands.Dispatcher.SampleAsWritten | include/threaded_rands.hpp:202-223 | the loop as written stops at the first kept draw and returns its int_type product; a first draw whose low part reaches upper is kept at once |
| ThreadedRands.Dispatcher.BoundedRandAsWritten | include/threaded_rands.hpp:198-226 | as written: `m >> bit_shift` of the first draw kept by the test as written |
| ThreadedRands.Dispatcher.BoundedRangeAsWritten | include/threaded_rands.hpp:229-264 | as written: `(m + lower) >> bit_shift` over the wrapped span |
| ThreadedRands.NegateAndReduce | include/threaded_rands.hpp:210-216 | the negate, subtract, `%=` steps on one width compute the threshold, which ThresholdEqualWidths shows is 2^W mod upper |
| ThreadedRands.Dispatcher.Sample | include/threaded_rands.hpp:202-223 | Lemire's loop, for R ≤ S, stops at the first kept draw and returns the int_type product x·upper |
| ThreadedRands.Dispatcher.BoundedRand | include/threaded_rands.hpp:198-226 | for R ≤ S, the high part of the first kept product, a value in [0, upper) (the corrected half of the :225 finding) |
| ThreadedRands.Dispatcher.BoundedRange | include/threaded_rands.hpp:229-264 | for R ≤ S, lower plus the bounded draw over the span; with lower < upper, a value in [lower, upper) |
| ThreadedRands.Dispatcher.Generate | include/threaded_rands.hpp:126-131 | element i is draw i of the stream; the stream has made vec.Length draws |
| ThreadedRands.Dispatcher.GenerateRange | include/threaded_rands.hpp:274-279 | for the `unsigned int` bounds of :108 (below 2^32 for every width), the elements are successive `get_bounded_rand(lower, upper)` values as written from one stream (RangeDrawsAsWritten), and only stream thread_id moves |
| ThreadedRands.Dispatcher.RangeStep | include/threaded_rands.hpp:277-278 | one element becomes the next bounded draw as written, extending the run |
| ThreadedRands.Dispatcher.GenerateRangeIntended | include/threaded_rands.hpp:274-279 | the corrected half of the :259-263 finding: for the `unsigned int` bounds of :108, the elements are successive draws of Lemire's method with lower added after the shift, and with lower < upper all lie in [lower, upper) |
| ThreadedRands.Dispatcher.RangeStepIntended | include/threaded_rands.hpp:277-278 | one element becomes the next bounded draw as intended, extending the run |
| LegacyThreadedRands.NarrowKeepsLowBits | threaded_rands.hpp:172 | `int range = upper` lands in the range of int and keeps the low 32 bits |
| LegacyThreadedRands.NarrowIdentity | threaded_rands.hpp:172 | a value that fits in an int is unchanged |
| LegacyThreadedRands.NarrowOfWrap | threaded_rands.hpp:172 | int to uint64_t and back to int is the identity |
| LegacyThreadedRands.NegationWraps | threaded_rands.hpp:182 | `uint64_t t = -range` is the negation of the range read as a 64-bit word |
| LegacyThreadedRands.LegacyThresholdIsPowerMod | threaded_rands.hpp:182-188 | for 0 < upper < 2^31 the threshold is 2^64 mod upper |
| LegacyThreadedRands.LegacyMatchesLemire | threaded_rands.hpp:170-198 | below 2^31 the code keeps the same draws and returns the same values as Lemire's method on 64-bit words |
| LegacyThreadedRands.ScaledValueInRange | threaded_rands.hpp:205-212 | with lower < upper and a span below 2^31 every filled value lies in [lower, upper) |
| LegacyThreadedRands.LegacyResultBelowRange | threaded_rands.hpp:170-198 | for 0 < upper < 2^31 the result lies in [0, upper) |
| LegacyThreadedRands.NarrowedRangeEscapes | threaded_rands.hpp:172-197 | upper = 2^31 + 1 becomes the int -(2^31 - 1); draw 1 is kept and returns 2^64 - 1 |
| LegacyThreadedRands.NoneKeptLegacySnoc | threaded_rands.hpp:189-194 | a rejected draw extends the rejected prefix |
| LegacyThreadedRands.NoneKeptLegacyRejectsEarlier | threaded_rands.hpp:189-194 | every draw before the first kept one was rejected |
| LegacyThreadedRands.LegacyRangeDrawsSnoc | threaded_rands.hpp:209-213 | one more bounded draw extends a run |
| LegacyThreadedRands.LegacyRangeDrawsInRange | threaded_rands.hpp:201-214 | with lower < upper and a span below 2^31 every value of a run lies in [lower, upper) |
| LegacyThreadedRands.LegacyEngines | threaded_rands.hpp:36-44 | the first n pushed engines number n |
| LegacyThreadedRands.LegacyEnginesAt | threaded_rands.hpp:36-44 | engine i is thread i's xoroshiro128, seeded by its own entropy |
| LegacyThreadedRands.MakeLegacyEngine | threaded_rands.hpp:40-41 | `std::make_unique<xoroshiro128>(thread_id)` builds the engine LegacyInitial describes |
| LegacyThreadedRands.Dispatcher.constructor | threaded_rands.hpp:29-45 | one xoroshiro128 per thread id, in increasing order |
| LegacyThreadedRands.Dispatcher.PushEngine | threaded_rands.hpp:40-41 | one loop iteration appends thread threadId's engine |
| LegacyThreadedRands.Dispatcher.GetRand | threaded_rands.hpp:162-165 | the next 64-bit output of stream thread_id; no other stream moves |
| LegacyThreadedRands.Dispatcher.NextDraw | threaded_rands.hpp:162-165 | on a stream that has made k draws, GetRand returns draw k |
| LegacyThreadedRands.Dispatcher.Call | threaded_rands.hpp:50 | a draw of stream 0 |
| LegacyThreadedRands.Dispatcher.BoundedRandAsWritten | threaded_rands.hpp:170-198 | as written: `m >> 64` of the first draw the loop keeps, kept at once when the low part reaches the range; below 2^31 the result is in [0, upper) |
| LegacyThreadedRands.Dispatcher.Sample | threaded_rands.hpp:174-195 | with the range held unsigned, the loop stops at the first draw Lemire's test keeps and returns its 128-bit product |
| LegacyThreadedRands.Dispatcher.BoundedRand | threaded_rands.hpp:170-198 | with the range held unsigned: the high part of the first kept product, in [0, upper) |
| LegacyThreadedRands.Dispatcher.Generate | threaded_rands.hpp:77-81 | element i is draw i of the stream |
| LegacyThreadedRands.Dispatcher.GenerateRange | threaded_rands.hpp:201-214 | the elements are successive bounded draws plus lower modulo 2^64; with lower < upper and a span below 2^31 all lie in [lower, upper) |
| LegacyThreadedRands.Dispatcher.FillRange | threaded_rands.hpp:209-213 | the loop leaves a run of bounded draws in vec and changes only stream thread_id |
| LegacyThreadedRands.Dispatcher.RangeStep | threaded_rands.hpp:211-212 | one element becomes the next bounded draw plus lower, extending the run |

## Left out

- Entropy (`randutils::auto_seed_256`, `system_seed`, `std::random_device`) is not modelled: the words an entropy source would produce are constructor parameters, one `Entropy` pair per thread in the dispatchers.
- `pcg_unique` (include/generators.hpp:259-292), `pcg64_wrap` and `jsf64_wrap` (generators.hpp:154-229) wrap the external PCG, JSF and randutils libraries, which are not part of this model. Their dispatcher alternatives and the default constructors that use them are left out for the same reason.
- The random `seed_seq` constructors of `pcg_unique` are not modelled, so the dispatchers' default constructors (include/threaded_rands.hpp:59-62, threaded_rands.hpp:21-27) are not modelled either.
- `get_thread_info` and `backup_thread_count` query the operating system, so the thread count is the constructor's argument.
- The OpenMP 2-D fills `generate_2D` and the 2-D `generate_range` run the 1-D fill of stream i on row i in parallel. Only the 1-D fill is modelled; the parallel schedule and thread safety are not.
- `get_double`, `double_conv` and `generate_doubles` need floating point, which is not modelled.
- Console output is not modelled.
- `generate_range(vec, upper, thread_id)` (include/threaded_rands.hpp:267-272) has no method of its own. It fills with `get_bounded_rand(upper, thread_id)` as written, which keeps the same draws and returns the same values as `GenerateRange` with lower = 0 (`Lemire.ResultBetweenAsWrittenLowerZero`).
- `xoroshiro128<state_type>::operator()` (include/generators.hpp:236) calls `get_rand(0)`, but both `get_rand` overloads take no argument, so it is not modelled.
- `jsf_counter::objects_alive` is never read. `objects_created` is an explicit `created` argument: the number of 32-bit JSF engines built before.
- Pcg32.Rotr32: only rotation by 0 and the range of the amount are proved. The facts that the expression is a circular rotation and how rotations compose, for a symbolic amount, are too costly for the solver.
- Pcg64.Rotr64: the same as Pcg32.Rotr32, for 64-bit words.
- ThreadedRands.Dispatcher.SampleAsWritten: requires some later draw of the stream to be kept, which the loop needs in order to end. The code assumes this and does not check it. The same requirement is on BoundedRandAsWritten, BoundedRangeAsWritten, Sample, BoundedRand and BoundedRange.
- ThreadedRands.Dispatcher.GenerateRange: takes its bounds below 2^32, as the `unsigned int` parameters at include/threaded_rands.hpp:108 hold them; a wider value is narrowed by the caller's conversion before the call, which is outside the model (also on RangeStep, GenerateRangeIntended and RangeStepIntended). It also requires that from every point of the stream on some later draw is kept by the test as written (KeepsAcceptingAsWritten), so that each element's loop ends. RangeStep requires the same of its own point.
- ThreadedRands.Dispatcher.GenerateRangeIntended: the same requirement for Lemire's test (KeepsAcceptingLemire), also on RangeStepIntended. Both also require R ≤ S, as Sample does.
- ThreadedRands.Dispatcher.Sample: requires R ≤ S. For a 64-bit result over 32-bit draws, Lemire's high part is 0 for every draw (`Lemire.WideResultOverNarrowDraws`), so the intended method is stated only where draws are as wide as the result.
- ThreadedRands.Dispatcher.BoundedRand: requires R ≤ S, as Sample does.
- ThreadedRands.Dispatcher.BoundedRange: requires R ≤ S, as Sample does.
- ThreadedRands.Dispatcher.RangeStepIntended: requires R ≤ S, as Sample does.
- The values p, q and r hold before a JSF constructor assigns them are indeterminate in C++. They are inputs of the model: `Entropy.unset32` and `Entropy.unset64` for the dispatcher, parameters of `Jsf.JsfU32.AsWritten` and `Jsf.JsfU64.AsWritten`.
- LegacyThreadedRands.Dispatcher.GenerateRange: the same requirement, named KeepsAccepting, also on FillRange.
- LegacyThreadedRands.Dispatcher.BoundedRandAsWritten: requires eventual acceptance.
- LegacyThreadedRands.Dispatcher.BoundedRand: requires eventual acceptance, as does Sample.
- LegacyThreadedRands.NegationWraps: `-range` for range = INT_MIN overflows `int`, which is undefined behaviour. The model takes the mathematical negation and then converts it to uint64_t.
- ThreadedRands.Dispatcher.constructor: requires n ≤ 2^30, so that `2*thread_id` fits the `int` jump-loop counter of `xoroshiro128`. The xoroshiro constructors carry the matching bound, thread_id < 2^30.
- LegacyThreadedRands.Dispatcher.constructor: requires n ≤ 2^30, for the same reason.
- Widths other than 32 and 64 bits (16-bit result types) are not modelled. The code marks them unsupported.

## Findings

| source | as written | input that shows it | evidently intended | confidence | as-written member | corrected member |
|---|---|---|---|---|---|---|
| include/threaded_rands.hpp:225 | `return m >> bit_shift`; with equal widths `bit_shift` is 0, so this returns the low half of the product | R = S = 64, upper = 2, draw 2^64 - 1: kept, returns 2^64 - 2 | return the high part `m >> RTYPE_BITS`, which is in [0, upper) | not executed | Lemire.LowHalfEscapesBound | ThreadedRands.Dispatcher.BoundedRand |
| include/threaded_rands.hpp:204-222 | for a 32-bit result from a 64-bit state, the rejection test uses the whole 64-bit product and a 32-bit threshold | R = 32, S = 64, upper = 2^31 + 1: draws 1, 2 and 3 are kept and give 0, 1 and 1, so value 1 is favoured; Lemire's test rejects draw 2 | test the low R bits of x·upper against 2^R mod upper, so each value has equally many kept draws | not executed | Lemire.WholeProductAcceptsBiasedDraw | Lemire.LemireWindow |
| include/threaded_rands.hpp:259-263 | `m += lower` before `m >> bit_shift`, so lower is shifted away with the low bits | R = 32, S = 64, [10, 20), draw 1: kept, returns 0 | add lower to the bounded value after the shift, giving a value in [lower, upper) | not executed | Lemire.LowerAddedBeforeShift | ThreadedRands.Dispatcher.GenerateRangeIntended |
| threaded_rands.hpp:172 | `int range = upper;` narrows the bound, and a negative range is sign-extended into the 128-bit product | upper = 2^31 + 1, draw 1: kept, returns 2^64 - 1 | keep the range unsigned 64-bit: the result is then in [0, upper) for every upper | not executed | LegacyThreadedRands.NarrowedRangeEscapes | LegacyThreadedRands.Dispatcher.BoundedRand |
| include/generators.hpp:373-377 | counts above 22 roll over to 0 before the decrement, so row 22 is never used and instance 23 reuses row 0 | instance count 23: row 0 (3, 14, 24), not row 22 (27, 16, 7) | engine n takes row (n - 1) mod 23, so every row is used in turn | not executed | Jsf.ParamIndexAsWrittenSkipsLastRow | Jsf.ParamIndexCycles |
| include/generators.hpp:362 | `seed(seed_gen())` runs the 20 warm-up advances before p, q, r are assigned at lines 379-387, so the warm-up reads unassigned fields | first 32-bit engine, entropy (0, 0), fields holding (1, 1, 0): a = 0x28d92bca instead of 0xe1577b0c | assign p, q, r from the table row before the warm-up | not executed | Jsf.WarmUpUsesUnsetAmounts | Jsf.IntendedFirstEngine |
| include/pcg32.hpp:84 | `for(uint32_t i = 0; i < size; ++i)` compares a 32-bit counter with a size_t size | size = 2^32: the counter wraps from 2^32 - 1 to 0 before reaching size, so the loop never ends | a counter as wide as size, writing size draws for every size | not executed | Pcg32.CounterNeverReachesSize | Pcg32.Pcg32.PopulateArray |
