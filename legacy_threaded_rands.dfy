/**
 * The older `Threaded_rands` of threaded_rands.hpp: one 64-bit engine per
 * thread index, 64-bit draws, Lemire's bounded draw with the range held in
 * an `int`, and the sequential fills.
 *
 * Only the `xoroshiro128` alternative is modelled (`pcg64_wrap` and
 * `jsf64_wrap` wrap library code that is not part of this model).  Its
 * draws are those of the 64-bit xoroshiro128+ of module Xoroshiro, so the
 * streams are the ThreadedRands engines `Xoroshiro64` with both widths 64:
 * DrawAt(genVisit, W64, W64, e, k) is the k-th `get_rand` result.
 */
module LegacyThreadedRands {
  import opened Streams
  import opened Lemire
  import Xoroshiro
  import LegacyXoroshiro
  import opened ThreadedRands

  // ------------------------------------------------------------------
  // The range as an int
  // ------------------------------------------------------------------

  /**
   * A value converted to `int`: its low 32 bits read in two's complement
   * (the conversion C++20 defines and every earlier compiler performs).
   */
  function Narrow(v: int): int
  {
    var low := v % 0x1_0000_0000;
    if low < 0x8000_0000 then low else low - 0x1_0000_0000
  }

  /** The conversion lands in the range of int and keeps the low 32 bits. */
  lemma NarrowKeepsLowBits(v: int)
    ensures -0x8000_0000 <= Narrow(v) < 0x8000_0000
    ensures (v - Narrow(v)) % 0x1_0000_0000 == 0
  {
  }

  /** A value that fits in an int is unchanged. */
  lemma NarrowIdentity(v: int)
    requires -0x8000_0000 <= v < 0x8000_0000
    ensures Narrow(v) == v
  {
  }

  /** int to uint64_t and back to int is the identity. */
  lemma NarrowOfWrap(v: int)
    requires -0x8000_0000 <= v < 0x8000_0000
    ensures Narrow(Wrap(W64, v)) == v
  {
    if v < 0 {
      assert Wrap(W64, v) == v + 0x1_0000_0000_0000_0000;
    }
  }

  /**
   * `uint64_t t = -range;`: the int negated, then converted to uint64_t,
   * is the negate-then-reduce start value of Lemire's method for the range
   * read as an unsigned 64-bit word.
   */
  lemma NegationWraps(range: int)
    requires -0x8000_0000 <= range < 0x8000_0000
    ensures Wrap(W64, range) < Base(W64)
    ensures Wrap(W64, -range) == Negated(W64, W64, Wrap(W64, range))
  {
  }

  // ------------------------------------------------------------------
  // The bounded draw as written
  // ------------------------------------------------------------------

  /**
   * `__uint128_t(x) * __uint128_t(range)`: the int range is sign-extended
   * to 128 bits, and the product wraps modulo 2^128.
   */
  function LegacyProduct(x: nat, range: int): nat
  {
    WideWrap(W64, x * WideWrap(W64, range))
  }

  /**
   * Whether draw x ends the rejection loop: `l = uint64_t(m)` is compared
   * with the range converted to uint64_t, and then with the threshold.
   */
  predicate AcceptsLegacy(range: int, x: nat)
  {
    var u := Wrap(W64, range);
    var l := Wrap(W64, LegacyProduct(x, range));
    l >= u || l >= Threshold(W64, W64, u)
  }

  /** `return m >> 64;`. */
  function LegacyResult(x: nat, range: int): nat
  {
    High(W64, LegacyProduct(x, range))
  }

  /** For 0 < upper < 2^31 the threshold is 2^64 mod upper. */
  lemma LegacyThresholdIsPowerMod(upper: nat)
    requires 0 < upper < 0x8000_0000
    ensures Wrap(W64, Narrow(upper)) == upper
    ensures Threshold(W64, W64, Wrap(W64, Narrow(upper))) == Base(W64) % upper
  {
    NarrowIdentity(upper);
    ThresholdEqualWidths(W64, upper);
  }

  /**
   * Below 2^31 the narrowing loses nothing and the code is Lemire's method
   * on 64-bit words: the same draws are kept and the same value returned.
   */
  lemma LegacyMatchesLemire(upper: nat, x: nat)
    requires upper < 0x8000_0000 && x < Base(W64)
    ensures AcceptsLegacy(Narrow(upper), x) <==> AcceptsLemire(W64, upper, x)
    ensures LegacyResult(x, Narrow(upper)) == ResultLemire(W64, x, upper)
  {
    NarrowIdentity(upper);
    var p := x * upper;
    MulBelow(x, upper, Base(W64));
    assert LegacyProduct(x, upper) == p;
    var l := Wrap(W64, p);
    assert Wrap(W64, upper) == upper;
    if 0 < upper {
      var t := Threshold(W64, W64, upper);
      ThresholdEqualWidths(W64, upper);
      ThresholdBelowUpper(W64, W64, upper);
      assert AcceptsLegacy(upper, x) == (l >= upper || l >= t);
      assert AcceptsLemire(W64, upper, x) == (l >= t);
    }
  }

  /** `int our_upper = upper - lower;` on unsigned ints: the difference modulo 2^32, narrowed. */
  function OurUpper(lower: nat, upper: nat): int
  {
    Narrow(upper - lower)
  }

  /** `get_bounded_rand(our_upper) + scale_value`, modulo 2^64. */
  function ScaledValue(x: nat, range: int, lower: nat): nat
  {
    Wrap(W64, LegacyResult(x, range) + lower)
  }

  /** For lower < upper with a span below 2^31 a scaled value lies in [lower, upper). */
  lemma ScaledValueInRange(x: nat, lower: nat, upper: nat)
    requires x < Base(W64) && lower < upper < 0x1_0000_0000 && upper - lower < 0x8000_0000
    ensures lower <= ScaledValue(x, OurUpper(lower, upper), lower) < upper
  {
    NarrowIdentity(upper - lower);
    LegacyResultBelowRange(upper - lower, x);
  }

  /** For 0 < upper < 2^31 the result lies in [0, upper). */
  lemma LegacyResultBelowRange(upper: nat, x: nat)
    requires 0 < upper < 0x8000_0000 && x < Base(W64)
    ensures LegacyResult(x, Narrow(upper)) < upper
  {
    LegacyMatchesLemire(upper, x);
    ResultLemireBelowUpper(W64, x, upper);
  }

  /**
   * From 2^31 up the range is negative: upper = 2^31 + 1 becomes
   * -(2^31 - 1), sign-extended to 2^128 - 2^31 + 1, and the draw x = 1 is
   * kept at once and returns 2^64 - 1, far outside [0, upper).
   */
  lemma NarrowedRangeEscapes()
    ensures Narrow(0x8000_0001) == -0x7FFF_FFFF
    ensures AcceptsLegacy(Narrow(0x8000_0001), 1)
    ensures LegacyResult(1, Narrow(0x8000_0001)) == 0xFFFF_FFFF_FFFF_FFFF
  {
    var range := -0x7FFF_FFFF;
    assert Narrow(0x8000_0001) == range;
    var m := 0x1_0000_0000_0000_0000_0000_0000_0000_0000 - 0x7FFF_FFFF;
    assert WideWrap(W64, range) == m;
    assert LegacyProduct(1, range) == m;
    var u := 0x1_0000_0000_0000_0000 - 0x7FFF_FFFF;
    assert Wrap(W64, range) == u;
    assert Wrap(W64, m) == u;
    assert High(W64, m) == 0xFFFF_FFFF_FFFF_FFFF;
  }

  // ------------------------------------------------------------------
  // Bounded draws over a stream
  // ------------------------------------------------------------------

  /** None of the first k draws of e ends the loop as written. */
  ghost predicate NoneKeptLegacy(visit: Engine -> Drawn, range: int, e: Engine, k: nat)
    decreases k
  {
    k == 0 ||
    (!AcceptsLegacy(range, DrawAt(visit, W64, W64, e, 0)) && NoneKeptLegacy(visit, range, visit(e).next, k - 1))
  }

  /** Draw k of e is the first one the loop as written keeps. */
  ghost predicate FirstKeptLegacy(visit: Engine -> Drawn, range: int, e: Engine, k: nat)
  {
    AcceptsLegacy(range, DrawAt(visit, W64, W64, e, k)) && NoneKeptLegacy(visit, range, e, k)
  }

  /**
   * From every point of stream e on, some later draw ends the loop as
   * written: what `generate_range` needs of its stream to return.
   */
  ghost predicate KeepsAccepting(visit: Engine -> Drawn, range: int, e: Engine)
  {
    forall p {:trigger Accepting(visit, range, After(visit, e, p))} :: Accepting(visit, range, After(visit, e, p))
  }

  /** Some draw of stream e ends the loop as written. */
  ghost predicate Accepting(visit: Engine -> Drawn, range: int, e: Engine)
  {
    exists j :: AcceptsLegacy(range, DrawAt(visit, W64, W64, e, j))
  }

  /** A rejected draw k extends the rejected prefix. */
  lemma {:induction false} NoneKeptLegacySnoc(visit: Engine -> Drawn, range: int, e: Engine, k: nat)
    requires NoneKeptLegacy(visit, range, e, k) && !AcceptsLegacy(range, DrawAt(visit, W64, W64, e, k))
    ensures NoneKeptLegacy(visit, range, e, k + 1)
    decreases k
  {
    if k > 0 {
      NoneKeptLegacySnoc(visit, range, visit(e).next, k - 1);
    }
  }

  /** NoneKeptLegacy says what its name says: every draw before k is rejected. */
  lemma {:induction false} NoneKeptLegacyRejectsEarlier(visit: Engine -> Drawn, range: int, e: Engine, k: nat, j: nat)
    requires NoneKeptLegacy(visit, range, e, k) && j < k
    ensures !AcceptsLegacy(range, DrawAt(visit, W64, W64, e, j))
    decreases k
  {
    if j > 0 {
      NoneKeptLegacyRejectsEarlier(visit, range, visit(e).next, k - 1, j - 1);
    }
  }

  /**
   * `results` are successive `get_bounded_rand(our_upper) + lower` values
   * from e: value i consumes counts[i] draws, the last the first one kept,
   * and e' is the engine after all of them.
   */
  ghost predicate LegacyRangeDraws(visit: Engine -> Drawn, range: int, lower: nat,
                                   e: Engine, counts: seq<nat>, results: seq<nat>, e': Engine)
    decreases |counts|
  {
    |counts| == |results| &&
    if |counts| == 0 then
      e' == e
    else
      counts[0] > 0 &&
      FirstKeptLegacy(visit, range, e, counts[0] - 1) &&
      results[0] == ScaledValue(DrawAt(visit, W64, W64, e, counts[0] - 1), range, lower) &&
      LegacyRangeDraws(visit, range, lower, After(visit, e, counts[0]), counts[1..], results[1..], e')
  }

  /** One more bounded draw extends a run of bounded draws. */
  lemma {:induction false} LegacyRangeDrawsSnoc(visit: Engine -> Drawn, range: int, lower: nat,
                                                e: Engine, counts: seq<nat>, results: seq<nat>, e1: Engine, c: nat, v: nat)
    requires LegacyRangeDraws(visit, range, lower, e, counts, results, e1)
    requires c > 0 && FirstKeptLegacy(visit, range, e1, c - 1)
    requires v == ScaledValue(DrawAt(visit, W64, W64, e1, c - 1), range, lower)
    ensures LegacyRangeDraws(visit, range, lower, e, counts + [c], results + [v], After(visit, e1, c))
    decreases |counts|
  {
    if |counts| == 0 {
      assert counts + [c] == [c] && results + [v] == [v];
      assert [c][1..] == [] && [v][1..] == [];
    } else {
      LegacyRangeDrawsSnoc(visit, range, lower, After(visit, e, counts[0]), counts[1..], results[1..], e1, c, v);
      var cs, rs := counts + [c], results + [v];
      assert cs[0] == counts[0] && rs[0] == results[0];
      assert cs[1..] == counts[1..] + [c];
      assert rs[1..] == results[1..] + [v];
    }
  }

  /** With lower < upper and upper - lower < 2^31 every filled value lies in [lower, upper). */
  lemma {:induction false} LegacyRangeDrawsInRange(visit: Engine -> Drawn, lower: nat, upper: nat,
                                                   e: Engine, counts: seq<nat>, results: seq<nat>, e': Engine)
    requires lower < upper < 0x1_0000_0000 && upper - lower < 0x8000_0000
    requires LegacyRangeDraws(visit, OurUpper(lower, upper), lower, e, counts, results, e')
    ensures forall i :: 0 <= i < |results| ==> lower <= results[i] < upper
    decreases |counts|
  {
    if |counts| > 0 {
      var x := DrawAt(visit, W64, W64, e, counts[0] - 1);
      var e1 := After(visit, e, counts[0]);
      ScaledValueInRange(x, lower, upper);
      LegacyRangeDrawsInRange(visit, lower, upper, e1, counts[1..], results[1..], e');
      forall i | 1 <= i < |results|
        ensures lower <= results[i] < upper
      {
        assert results[i] == results[1..][i - 1];
      }
    }
  }

  // ------------------------------------------------------------------
  // Construction
  // ------------------------------------------------------------------

  /** The engine pushed for `thread_id`: the older xoroshiro128, auto-seeded, jumped 2*thread_id times. */
  function LegacyInitial(threadId: nat, seed: Entropy): Engine
  {
    Xoroshiro64(Iterate(Xoroshiro.Jump64, LegacyXoroshiro.AutoSeeded(seed.w0, seed.w1), 2 * threadId))
  }

  /** The first n engines in push order: engine i is thread i's, seeded by seeds[i]. */
  function LegacyEngines(seeds: seq<Entropy>, n: nat): (v: seq<Engine>)
    requires n <= |seeds|
    ensures |v| == n
  {
    Indexed(LegacyInitial, seeds, n)
  }

  /** Engine i of the first n is the one built for thread i. */
  lemma LegacyEnginesAt(seeds: seq<Entropy>, n: nat, i: nat)
    requires n <= |seeds| && i < n
    ensures LegacyEngines(seeds, n)[i] == LegacyInitial(i, seeds[i])
  {
    IndexedAt(LegacyInitial, seeds, n, i);
  }

  /** `std::make_unique<xoroshiro128>(thread_id)`, stored by its state. */
  method MakeLegacyEngine(threadId: nat, seed: Entropy) returns (e: Engine)
    requires threadId < 0x4000_0000
    ensures e == LegacyInitial(threadId, seed)
  {
    var g := new LegacyXoroshiro.XoroshiroLegacy(threadId, seed.w0, seed.w1);
    e := Xoroshiro64(g.State());
  }

  // ------------------------------------------------------------------
  // The dispatcher
  // ------------------------------------------------------------------

  class Dispatcher {
    const nThreads: nat
    const genVisit: Engine -> Drawn
    var genVec: seq<Engine>

    /** `Threaded_rands(generator_type::xoro128, n)`: one engine per thread id, pushed in increasing id order. */
    constructor (n: nat, seeds: seq<Entropy>)
      requires |seeds| == n && n <= 0x4000_0000
      ensures nThreads == n && genVisit == Visit
      ensures genVec == LegacyEngines(seeds, n)
    {
      nThreads, genVisit := n, Visit;
      genVec := [];
      new;
      var threadId := 0;
      while threadId < n
        invariant 0 <= threadId <= n
        invariant genVec == LegacyEngines(seeds, threadId)
      {
        PushEngine(seeds, threadId);
        threadId := threadId + 1;
      }
    }

    /** One iteration of the constructor's loop: `gen_vec.push_back` of thread threadId's engine. */
    method PushEngine(seeds: seq<Entropy>, threadId: nat)
      requires threadId < |seeds| && threadId < 0x4000_0000
      requires genVec == LegacyEngines(seeds, threadId)
      modifies this
      ensures genVec == LegacyEngines(seeds, threadId + 1)
    {
      var g := MakeLegacyEngine(threadId, seeds[threadId]);
      genVec := genVec + [g];
    }

    /** `get_rand(thread_id)`: the next 64-bit output of stream `thread_id`; no other stream moves. */
    method GetRand(threadId: nat) returns (r: nat)
      requires threadId < |genVec|
      modifies this
      ensures genVec == old(genVec)[threadId := After(genVisit, old(genVec[threadId]), 1)]
      ensures r == DrawAt(genVisit, W64, W64, old(genVec[threadId]), 0)
      ensures r < Base(W64)
    {
      var d := genVisit(genVec[threadId]);
      genVec := genVec[threadId := d.next];
      r := Wrap(W64, d.word);
    }

    /** GetRand on a stream that has made k draws since it was e0: it returns draw k of e0. */
    method NextDraw(threadId: nat, ghost e0: Engine, ghost k: nat) returns (x: nat)
      requires threadId < |genVec| && genVec[threadId] == After(genVisit, e0, k)
      modifies this
      ensures genVec == old(genVec)[threadId := After(genVisit, e0, k + 1)]
      ensures x == DrawAt(genVisit, W64, W64, e0, k)
    {
      x := GetRand(threadId);
      DrawAtAfter(genVisit, W64, W64, e0, k, 0);
      AfterAdd(genVisit, e0, k, 1);
    }

    /** `operator()`: a draw of stream 0. */
    method Call() returns (r: nat)
      requires 0 < |genVec|
      modifies this
      ensures genVec == old(genVec)[0 := After(genVisit, old(genVec[0]), 1)]
      ensures r == DrawAt(genVisit, W64, W64, old(genVec[0]), 0)
    {
      r := GetRand(0);
    }

    /**
     * `get_bounded_rand(upper, thread_id)` as written: `int range = upper`,
     * the 128-bit product of the draw and the sign-extended range, the
     * rejection loop, and `m >> 64`.  Below 2^31 the result lies in
     * [0, upper).  The loop ends only on a stream that eventually yields a
     * kept draw.
     */
    method BoundedRandAsWritten(upper: nat, threadId: nat) returns (r: nat, ghost k: nat)
      requires threadId < |genVec| && upper < Base(W64)
      requires exists j :: AcceptsLegacy(Narrow(upper), DrawAt(genVisit, W64, W64, genVec[threadId], j))
      modifies this
      ensures FirstKeptLegacy(genVisit, Narrow(upper), old(genVec[threadId]), k)
      ensures genVec == old(genVec)[threadId := After(genVisit, old(genVec[threadId]), k + 1)]
      ensures r == LegacyResult(DrawAt(genVisit, W64, W64, old(genVec[threadId]), k), Narrow(upper))
      ensures Wrap(W64, LegacyProduct(DrawAt(genVisit, W64, W64, old(genVec[threadId]), 0), Narrow(upper))) >= Wrap(W64, Narrow(upper)) ==> k == 0
      ensures 0 < upper < 0x8000_0000 ==> r < upper
    {
      ghost var e0 := genVec[threadId];
      var range := Narrow(upper);
      NarrowKeepsLowBits(upper);
      ghost var bound: nat :| AcceptsLegacy(range, DrawAt(genVisit, W64, W64, e0, bound));
      var x := NextDraw(threadId, e0, 0);
      k := 0;
      var m := LegacyProduct(x, range);
      var l := Wrap(W64, m);
      var u := Wrap(W64, range);
      if l < u {
        var t := Wrap(W64, -range);
        NegationWraps(range);
        if t >= u {
          t := t - u;
          if t >= u {
            t := t % u;
          }
        }
        assert t == Threshold(W64, W64, u);
        ThresholdBelowUpper(W64, W64, u);
        while l < t
          invariant |genVec| == |old(genVec)|
          invariant genVec == old(genVec)[threadId := After(genVisit, e0, k + 1)]
          invariant x == DrawAt(genVisit, W64, W64, e0, k)
          invariant m == LegacyProduct(x, range) && l == Wrap(W64, m)
          invariant NoneKeptLegacy(genVisit, range, e0, k)
          invariant k <= bound
          decreases bound - k
        {
          assert !AcceptsLegacy(range, x);
          NoneKeptLegacySnoc(genVisit, range, e0, k);
          x := NextDraw(threadId, e0, k + 1);
          k := k + 1;
          m := LegacyProduct(x, range);
          l := Wrap(W64, m);
        }
      }
      r := High(W64, m);
      if 0 < upper < 0x8000_0000 {
        LegacyResultBelowRange(upper, x);
      }
    }

    /**
     * The draw-and-reject loop of Lemire's method on 64-bit words: the
     * product is taken in __uint128_t and its low 64 bits are compared with 2^64 mod upper, found by
     * negating upper and reducing.  Returns the kept product.
     */
    method Sample(upper: nat, threadId: nat) returns (m: nat, ghost k: nat)
      requires threadId < |genVec| && upper < Base(W64)
      requires exists j :: AcceptsLemire(W64, upper, DrawAt(genVisit, W64, W64, genVec[threadId], j))
      modifies this
      ensures FirstKeptLemire(genVisit, W64, W64, upper, old(genVec[threadId]), k)
      ensures genVec == old(genVec)[threadId := After(genVisit, old(genVec[threadId]), k + 1)]
      ensures m == Product(W64, DrawAt(genVisit, W64, W64, old(genVec[threadId]), k), upper)
    {
      ghost var e0 := genVec[threadId];
      ghost var bound: nat :| AcceptsLemire(W64, upper, DrawAt(genVisit, W64, W64, e0, bound));
      var x := NextDraw(threadId, e0, 0);
      k := 0;
      m := Product(W64, x, upper);
      var l := Wrap(W64, m);
      if l < upper {
        var t := NegateAndReduce(W64, upper);
        while l < t
          invariant |genVec| == |old(genVec)|
          invariant genVec == old(genVec)[threadId := After(genVisit, e0, k + 1)]
          invariant x == DrawAt(genVisit, W64, W64, e0, k)
          invariant m == Product(W64, x, upper) && l == Wrap(W64, m)
          invariant NoneKept(genVisit, W64, W64, upper, e0, k)
          invariant k <= bound
          decreases bound - k
        {
          assert !AcceptsLemire(W64, upper, x) by {
            ThresholdEqualWidths(W64, upper);
            ProductBelowWide(W64, x, upper);
          }
          NoneKeptSnoc(genVisit, W64, W64, upper, e0, k);
          x := NextDraw(threadId, e0, k + 1);
          k := k + 1;
          m := Product(W64, x, upper);
          l := Wrap(W64, m);
        }
        assert AcceptsLemire(W64, upper, x) by {
          ThresholdEqualWidths(W64, upper);
          ProductBelowWide(W64, x, upper);
        }
      } else {
        assert AcceptsLemire(W64, upper, x) by {
          ProductBelowWide(W64, x, upper);
        }
      }
    }

    /**
     * `get_bounded_rand` with the range kept as the uint64_t it is passed
     * as: Lemire's method on 64-bit words, a value in [0, upper) for every
     * 0 < upper < 2^64.
     */
    method BoundedRand(upper: nat, threadId: nat) returns (r: nat, ghost k: nat)
      requires threadId < |genVec| && upper < Base(W64)
      requires exists j :: AcceptsLemire(W64, upper, DrawAt(genVisit, W64, W64, genVec[threadId], j))
      modifies this
      ensures FirstKeptLemire(genVisit, W64, W64, upper, old(genVec[threadId]), k)
      ensures genVec == old(genVec)[threadId := After(genVisit, old(genVec[threadId]), k + 1)]
      ensures r == ResultLemire(W64, DrawAt(genVisit, W64, W64, old(genVec[threadId]), k), upper)
      ensures 0 < upper ==> r < upper
    {
      var m;
      m, k := Sample(upper, threadId);
      r := High(W64, m);
      ProductBelowWide(W64, DrawAt(genVisit, W64, W64, old(genVec[threadId]), k), upper);
      if 0 < upper {
        ResultLemireBelowUpper(W64, DrawAt(genVisit, W64, W64, old(genVec[threadId]), k), upper);
      }
    }

    /** `generate(vec, thread_id)`: element i becomes draw i of the stream, in index order. */
    method Generate(vec: array<nat>, threadId: nat)
      requires threadId < |genVec|
      modifies this, vec
      ensures genVec == old(genVec)[threadId := After(genVisit, old(genVec[threadId]), vec.Length)]
      ensures forall i :: 0 <= i < vec.Length ==> vec[i] == DrawAt(genVisit, W64, W64, old(genVec[threadId]), i)
    {
      ghost var e0 := genVec[threadId];
      for i := 0 to vec.Length
        invariant |genVec| == |old(genVec)|
        invariant genVec == old(genVec)[threadId := After(genVisit, e0, i)]
        invariant forall j :: 0 <= j < i ==> vec[j] == DrawAt(genVisit, W64, W64, e0, j)
      {
        var x := NextDraw(threadId, e0, i);
        vec[i] := x;
      }
    }

    /**
     * The 1-D `generate_range(vec, lower, upper, thread_id)`: `int
     * our_upper = upper - lower` (unsigned subtraction, then narrowed), and
     * element i becomes the i-th bounded draw plus lower, modulo 2^64.
     * With lower < upper and a span below 2^31 every element lies in
     * [lower, upper).  The stream must keep yielding kept draws.
     */
    method GenerateRange(vec: array<nat>, lower: nat, upper: nat, threadId: nat) returns (ghost counts: seq<nat>)
      requires threadId < |genVec| && lower < 0x1_0000_0000 && upper < 0x1_0000_0000
      requires KeepsAccepting(genVisit, OurUpper(lower, upper), genVec[threadId])
      modifies this, vec
      ensures exists e' :: genVec == old(genVec)[threadId := e'] &&
                LegacyRangeDraws(genVisit, OurUpper(lower, upper), lower, old(genVec[threadId]), counts, vec[..], e')
      ensures lower < upper && upper - lower < 0x8000_0000 ==> forall i :: 0 <= i < vec.Length ==> lower <= vec[i] < upper
    {
      var ourUpper := OurUpper(lower, upper);
      var scaleValue := lower;
      ghost var e';
      counts, e' := FillRange(vec, ourUpper, scaleValue, threadId);
      if lower < upper && upper - lower < 0x8000_0000 {
        LegacyRangeDrawsInRange(genVisit, lower, upper, old(genVec[threadId]), counts, vec[..], e');
      }
    }

    /** The loop of `generate_range`: element i becomes the i-th bounded draw of range ourUpper plus scaleValue. */
    method FillRange(vec: array<nat>, ourUpper: int, scaleValue: nat, threadId: nat) returns (ghost counts: seq<nat>, ghost e': Engine)
      requires threadId < |genVec| && -0x8000_0000 <= ourUpper < 0x8000_0000
      requires KeepsAccepting(genVisit, ourUpper, genVec[threadId])
      modifies this, vec
      ensures genVec == old(genVec)[threadId := e']
      ensures LegacyRangeDraws(genVisit, ourUpper, scaleValue, old(genVec[threadId]), counts, vec[..], e')
    {
      ghost var e0 := genVec[threadId];
      ghost var pos := 0;
      counts := [];
      for i := 0 to vec.Length
        invariant genVec == old(genVec)[threadId := After(genVisit, e0, pos)]
        invariant LegacyRangeDraws(genVisit, ourUpper, scaleValue, e0, counts, vec[..i], After(genVisit, e0, pos))
      {
        ghost var c := RangeStep(vec, i, ourUpper, scaleValue, threadId, e0, counts, pos);
        counts := counts + [c];
        pos := pos + c;
      }
      assert vec[..] == vec[..vec.Length];
      e' := After(genVisit, e0, pos);
    }

    /**
     * The body of the loop of `generate_range`: `i = get_bounded_rand(our_upper,
     * thread_id) + scale_value`, where the int our_upper is passed as a
     * uint64_t and narrowed back to the same int.
     */
    method RangeStep(vec: array<nat>, i: nat, ourUpper: int, scaleValue: nat, threadId: nat,
                     ghost e0: Engine, ghost counts: seq<nat>, ghost pos: nat) returns (ghost c: nat)
      requires threadId < |genVec| && i < vec.Length && -0x8000_0000 <= ourUpper < 0x8000_0000
      requires genVec[threadId] == After(genVisit, e0, pos)
      requires Accepting(genVisit, ourUpper, After(genVisit, e0, pos))
      requires LegacyRangeDraws(genVisit, ourUpper, scaleValue, e0, counts, vec[..i], After(genVisit, e0, pos))
      modifies this, vec
      ensures genVec == old(genVec)[threadId := After(genVisit, e0, pos + c)]
      ensures LegacyRangeDraws(genVisit, ourUpper, scaleValue, e0, counts + [c], vec[..i + 1], After(genVisit, e0, pos + c))
    {
      ghost var prefix := vec[..i];
      NarrowOfWrap(ourUpper);
      var aRand, k := BoundedRandAsWritten(Wrap(W64, ourUpper), threadId);
      var x := Wrap(W64, aRand + scaleValue);
      assert x == ScaledValue(DrawAt(genVisit, W64, W64, After(genVisit, e0, pos), k), ourUpper, scaleValue);
      c := k + 1;
      LegacyRangeDrawsSnoc(genVisit, ourUpper, scaleValue, e0, counts, prefix, After(genVisit, e0, pos), c, x);
      AfterAdd(genVisit, e0, pos, c);
      vec[i] := x;
      assert vec[..i + 1] == prefix + [x];
    }
  }
}
