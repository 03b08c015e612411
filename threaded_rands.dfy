/**
 * `Threaded_rands<result_type, state_type>` of include/threaded_rands.hpp:
 * one engine per thread index in `gen_vec`, draws adapted to the result
 * width by `bit_shift`, Lemire's bounded draw, and the sequential fills.
 *
 * `gen_vec` is a vector of `std::variant`s, so every stream is an engine
 * held by value: a `seq<Engine>` here, whose element `thread_id` each draw
 * replaces.  The visitor `gen_visit` is the constant `genVisit`, which
 * the constructor sets to Visit; the draws and the bounded draws are
 * stated over any visitor, and ConversionIsExact ties them to Visit.
 */
module ThreadedRands {
  import opened Words
  import opened Streams
  import opened Lemire
  import Xoroshiro
  import Jsf

  /** The alternatives of `gen_type` that are modelled (`pcg_unique` is not). */
  datatype Engine =
    | Xoroshiro64(pair: Xoroshiro.Pair)
    | Xoroshiro32(quad: Xoroshiro.Quad)
    | JsfEngine64(jsf64: Jsf.Jsf64)
    | JsfEngine32(jsf32: Jsf.Jsf32)

  function WidthOf(e: Engine): Width
  {
    match e
    case Xoroshiro64(_) => W64
    case JsfEngine64(_) => W64
    case Xoroshiro32(_) => W32
    case JsfEngine32(_) => W32
  }

  /** One engine draw: the engine afterwards and the state-width word it returned. */
  datatype Drawn = Drawn(next: Engine, word: nat)

  /**
   * `gen_visit`, i.e. `g.get_rand()` on whichever engine the variant
   * holds: xoroshiro128+ returns the sum of the old words, JSF the new d.
   */
  function Visit(e: Engine): (d: Drawn)
    ensures WidthOf(d.next) == WidthOf(e)
    ensures d.word < Base(WidthOf(e))
  {
    match e
    case Xoroshiro64(x) => Drawn(Xoroshiro64(Xoroshiro.Next64(x)), Xoroshiro.Output64(x) as nat)
    case Xoroshiro32(q) => Drawn(Xoroshiro32(Xoroshiro.Next32(q)), Xoroshiro.Output32(q) as nat)
    case JsfEngine64(j) =>
      var j' := Jsf.Advance64(j);
      Drawn(JsfEngine64(j'), j'.d as nat)
    case JsfEngine32(j) =>
      var j' := Jsf.Advance32(j);
      Drawn(JsfEngine32(j'), j'.d as nat)
  }

  // ------------------------------------------------------------------
  // Streams of draws
  // ------------------------------------------------------------------

  /** The engine after k draws from e. */
  function After(visit: Engine -> Drawn, e: Engine, k: nat): Engine
    decreases k
  {
    if k == 0 then e else After(visit, visit(e).next, k - 1)
  }

  /** `rand >> bit_shift` for an engine word, converted to result_type on return. */
  function Converted(r: Width, s: Width, word: nat): nat
  {
    Wrap(r, Shr(word, BitShift(r, s)))
  }

  /** What `get_rand` returns on draw k (counting from 0) from e. */
  function DrawAt(visit: Engine -> Drawn, r: Width, s: Width, e: Engine, k: nat): (x: nat)
    ensures x < Base(r)
    decreases k
  {
    if k == 0 then Converted(r, s, visit(e).word) else DrawAt(visit, r, s, visit(e).next, k - 1)
  }

  lemma {:induction false} AfterAdd(visit: Engine -> Drawn, e: Engine, m: nat, n: nat)
    ensures After(visit, After(visit, e, m), n) == After(visit, e, m + n)
    decreases m
  {
    if m > 0 {
      AfterAdd(visit, visit(e).next, m - 1, n);
    }
  }

  /** Draw j after m draws is draw m + j. */
  lemma {:induction false} DrawAtAfter(visit: Engine -> Drawn, r: Width, s: Width, e: Engine, m: nat, j: nat)
    ensures DrawAt(visit, r, s, After(visit, e, m), j) == DrawAt(visit, r, s, e, m + j)
    decreases m
  {
    if m > 0 {
      DrawAtAfter(visit, r, s, visit(e).next, m - 1, j);
    }
  }

  /** Draw k is the converted word of the engine reached after k draws. */
  lemma {:induction false} DrawAtIsConvertedWord(visit: Engine -> Drawn, r: Width, s: Width, e: Engine, k: nat)
    ensures DrawAt(visit, r, s, e, k) == Converted(r, s, visit(After(visit, e, k)).word)
    decreases k
  {
    if k > 0 {
      DrawAtIsConvertedWord(visit, r, s, visit(e).next, k - 1);
    }
  }

  /** Each draw keeps the engine's width and returns a word of that width. */
  ghost predicate KeepsWidths(visit: Engine -> Drawn)
  {
    forall e :: WidthOf(visit(e).next) == WidthOf(e) && visit(e).word < Base(WidthOf(e))
  }

  lemma VisitKeepsWidths()
    ensures KeepsWidths(Visit)
  {
    forall e
      ensures WidthOf(Visit(e).next) == WidthOf(e) && Visit(e).word < Base(WidthOf(e))
    {
    }
  }

  lemma {:induction false} AfterKeepsWidth(visit: Engine -> Drawn, e: Engine, k: nat)
    requires KeepsWidths(visit)
    ensures WidthOf(After(visit, e, k)) == WidthOf(e)
    decreases k
  {
    if k > 0 {
      AfterKeepsWidth(visit, visit(e).next, k - 1);
    }
  }

  /**
   * The conversion to result_type in `get_rand` loses nothing: on a stream
   * of state_type engines the shifted word already fits in R bits, and it
   * keeps the top R bits of the word.
   */
  lemma ConversionIsExact(visit: Engine -> Drawn, r: Width, s: Width, e: Engine, k: nat)
    requires KeepsWidths(visit) && WidthOf(e) == s
    ensures DrawAt(visit, r, s, e, k) == Shr(visit(After(visit, e, k)).word, BitShift(r, s))
    ensures DrawAt(visit, r, s, e, k) * Pow2(BitShift(r, s)) <= visit(After(visit, e, k)).word
    ensures visit(After(visit, e, k)).word < (DrawAt(visit, r, s, e, k) + 1) * Pow2(BitShift(r, s))
  {
    AfterKeepsWidth(visit, e, k);
    DrawAtIsConvertedWord(visit, r, s, e, k);
    ShiftKeepsHighBits(r, s, visit(After(visit, e, k)).word);
  }

  /** `min()` is 0 whatever the result type. */
  function Min(): nat
  {
    0
  }

  /** `max()` is `~result_type(0)`, the all-ones word. */
  function Max(r: Width): nat
  {
    if r == W32 then (!(0 as bv32)) as nat else (!(0 as bv64)) as nat
  }

  /** The all-ones word is 2^R - 1, so [min(), max()] is exactly the range of result_type. */
  lemma MinMaxSpanResultType(r: Width)
    ensures Min() == 0 && Max(r) == Base(r) - 1
  {
  }

  // ------------------------------------------------------------------
  // Bounded draws over a stream
  // ------------------------------------------------------------------

  /** None of the first k draws of e passes the test as written. */
  ghost predicate NoneKeptAsWritten(visit: Engine -> Drawn, r: Width, s: Width, u: nat, e: Engine, k: nat)
    requires u < Base(r)
    decreases k
  {
    k == 0 ||
    (!AcceptsAsWritten(r, s, u, DrawAt(visit, r, s, e, 0)) && NoneKeptAsWritten(visit, r, s, u, visit(e).next, k - 1))
  }

  /** Draw k of e is the first one the code as written keeps. */
  ghost predicate FirstKeptAsWritten(visit: Engine -> Drawn, r: Width, s: Width, u: nat, e: Engine, k: nat)
    requires u < Base(r)
  {
    AcceptsAsWritten(r, s, u, DrawAt(visit, r, s, e, k)) && NoneKeptAsWritten(visit, r, s, u, e, k)
  }

  /** A rejected draw k extends the rejected prefix. */
  lemma {:induction false} NoneKeptAsWrittenSnoc(visit: Engine -> Drawn, r: Width, s: Width, u: nat, e: Engine, k: nat)
    requires u < Base(r)
    requires NoneKeptAsWritten(visit, r, s, u, e, k) && !AcceptsAsWritten(r, s, u, DrawAt(visit, r, s, e, k))
    ensures NoneKeptAsWritten(visit, r, s, u, e, k + 1)
    decreases k
  {
    if k > 0 {
      NoneKeptAsWrittenSnoc(visit, r, s, u, visit(e).next, k - 1);
    }
  }

  /** NoneKeptAsWritten says what its name says: every draw before k is rejected. */
  lemma {:induction false} NoneKeptAsWrittenRejectsEarlier(visit: Engine -> Drawn, r: Width, s: Width, u: nat, e: Engine, k: nat, j: nat)
    requires u < Base(r)
    requires NoneKeptAsWritten(visit, r, s, u, e, k) && j < k
    ensures !AcceptsAsWritten(r, s, u, DrawAt(visit, r, s, e, j))
    decreases k
  {
    if j > 0 {
      NoneKeptAsWrittenRejectsEarlier(visit, r, s, u, visit(e).next, k - 1, j - 1);
    }
  }

  /** The first draw the code as written keeps is unique. */
  lemma FirstKeptAsWrittenUnique(visit: Engine -> Drawn, r: Width, s: Width, u: nat, e: Engine, k1: nat, k2: nat)
    requires u < Base(r)
    requires FirstKeptAsWritten(visit, r, s, u, e, k1) && FirstKeptAsWritten(visit, r, s, u, e, k2)
    ensures k1 == k2
  {
    if k1 < k2 {
      NoneKeptAsWrittenRejectsEarlier(visit, r, s, u, e, k2, k1);
    } else if k2 < k1 {
      NoneKeptAsWrittenRejectsEarlier(visit, r, s, u, e, k1, k2);
    }
  }

  /** None of the first k draws of e passes Lemire's test. */
  ghost predicate NoneKept(visit: Engine -> Drawn, r: Width, s: Width, u: nat, e: Engine, k: nat)
    decreases k
  {
    k == 0 ||
    (!AcceptsLemire(r, u, DrawAt(visit, r, s, e, 0)) && NoneKept(visit, r, s, u, visit(e).next, k - 1))
  }

  /** Draw k of e is the first one Lemire's test keeps. */
  ghost predicate FirstKeptLemire(visit: Engine -> Drawn, r: Width, s: Width, u: nat, e: Engine, k: nat)
  {
    AcceptsLemire(r, u, DrawAt(visit, r, s, e, k)) && NoneKept(visit, r, s, u, e, k)
  }

  /** A rejected draw k extends the rejected prefix. */
  lemma {:induction false} NoneKeptSnoc(visit: Engine -> Drawn, r: Width, s: Width, u: nat, e: Engine, k: nat)
    requires NoneKept(visit, r, s, u, e, k) && !AcceptsLemire(r, u, DrawAt(visit, r, s, e, k))
    ensures NoneKept(visit, r, s, u, e, k + 1)
    decreases k
  {
    if k > 0 {
      NoneKeptSnoc(visit, r, s, u, visit(e).next, k - 1);
    }
  }

  /** NoneKept says what its name says: every draw before k is rejected. */
  lemma {:induction false} NoneKeptRejectsEarlier(visit: Engine -> Drawn, r: Width, s: Width, u: nat, e: Engine, k: nat, j: nat)
    requires NoneKept(visit, r, s, u, e, k) && j < k
    ensures !AcceptsLemire(r, u, DrawAt(visit, r, s, e, j))
    decreases k
  {
    if j > 0 {
      NoneKeptRejectsEarlier(visit, r, s, u, visit(e).next, k - 1, j - 1);
    }
  }

  /** The first kept draw is unique, so a bounded draw is determined by the stream. */
  lemma FirstKeptLemireUnique(visit: Engine -> Drawn, r: Width, s: Width, u: nat, e: Engine, k1: nat, k2: nat)
    requires FirstKeptLemire(visit, r, s, u, e, k1) && FirstKeptLemire(visit, r, s, u, e, k2)
    ensures k1 == k2
  {
    if k1 < k2 {
      NoneKeptRejectsEarlier(visit, r, s, u, e, k2, k1);
    } else if k2 < k1 {
      NoneKeptRejectsEarlier(visit, r, s, u, e, k1, k2);
    }
  }

  /** Some draw of stream e passes the test of the code as written for span u. */
  ghost predicate AcceptingAsWritten(visit: Engine -> Drawn, r: Width, s: Width, u: nat, e: Engine)
    requires u < Base(r)
  {
    exists j :: AcceptsAsWritten(r, s, u, DrawAt(visit, r, s, e, j))
  }

  /** From every point of stream e on, some later draw passes the test as written: what a fill needs to return. */
  ghost predicate KeepsAcceptingAsWritten(visit: Engine -> Drawn, r: Width, s: Width, u: nat, e: Engine)
    requires u < Base(r)
  {
    forall p {:trigger AcceptingAsWritten(visit, r, s, u, After(visit, e, p))} :: AcceptingAsWritten(visit, r, s, u, After(visit, e, p))
  }

  /** Some draw of stream e passes Lemire's test for span u. */
  ghost predicate AcceptingLemire(visit: Engine -> Drawn, r: Width, s: Width, u: nat, e: Engine)
  {
    exists j :: AcceptsLemire(r, u, DrawAt(visit, r, s, e, j))
  }

  /** From every point of stream e on, some later draw passes Lemire's test. */
  ghost predicate KeepsAcceptingLemire(visit: Engine -> Drawn, r: Width, s: Width, u: nat, e: Engine)
  {
    forall p {:trigger AcceptingLemire(visit, r, s, u, After(visit, e, p))} :: AcceptingLemire(visit, r, s, u, After(visit, e, p))
  }

  /**
   * `results` are successive bounded draws over [lower:upper) from e as
   * the code makes them: draw i consumes counts[i] engine draws, the last
   * of them the first one the test as written keeps, its value is
   * `(m + lower) >> bit_shift`, and e' is the engine after all of them.
   */
  ghost predicate RangeDrawsAsWritten(visit: Engine -> Drawn, r: Width, s: Width, lower: nat, upper: nat,
                                      e: Engine, counts: seq<nat>, results: seq<nat>, e': Engine)
    decreases |counts|
  {
    |counts| == |results| &&
    if |counts| == 0 then
      e' == e
    else
      counts[0] > 0 &&
      FirstKeptAsWritten(visit, r, s, Span(r, lower, upper), e, counts[0] - 1) &&
      results[0] == ResultBetweenAsWritten(r, s, DrawAt(visit, r, s, e, counts[0] - 1), lower, upper) &&
      RangeDrawsAsWritten(visit, r, s, lower, upper, After(visit, e, counts[0]), counts[1..], results[1..], e')
  }

  /** One more bounded draw as written extends a run of them. */
  lemma {:induction false} RangeDrawsAsWrittenSnoc(visit: Engine -> Drawn, r: Width, s: Width, lower: nat, upper: nat,
                                                   e: Engine, counts: seq<nat>, results: seq<nat>, e1: Engine, c: nat, v: nat)
    requires RangeDrawsAsWritten(visit, r, s, lower, upper, e, counts, results, e1)
    requires c > 0 && FirstKeptAsWritten(visit, r, s, Span(r, lower, upper), e1, c - 1)
    requires v == ResultBetweenAsWritten(r, s, DrawAt(visit, r, s, e1, c - 1), lower, upper)
    ensures RangeDrawsAsWritten(visit, r, s, lower, upper, e, counts + [c], results + [v], After(visit, e1, c))
    decreases |counts|
  {
    if |counts| == 0 {
      assert counts + [c] == [c] && results + [v] == [v];
      assert [c][1..] == [] && [v][1..] == [];
    } else {
      RangeDrawsAsWrittenSnoc(visit, r, s, lower, upper, After(visit, e, counts[0]), counts[1..], results[1..], e1, c, v);
      var cs, rs := counts + [c], results + [v];
      assert cs[0] == counts[0] && rs[0] == results[0];
      assert cs[1..] == counts[1..] + [c];
      assert rs[1..] == results[1..] + [v];
    }
  }

  /**
   * The fill as written is a function of the stream: two runs of the same
   * length from the same engine consume the same draws, store the same
   * values and leave the same engine.
   */
  lemma {:induction false} RangeDrawsAsWrittenDetermined(visit: Engine -> Drawn, r: Width, s: Width, lower: nat, upper: nat, e: Engine,
                                                         counts1: seq<nat>, results1: seq<nat>, e1: Engine,
                                                         counts2: seq<nat>, results2: seq<nat>, e2: Engine)
    requires RangeDrawsAsWritten(visit, r, s, lower, upper, e, counts1, results1, e1)
    requires RangeDrawsAsWritten(visit, r, s, lower, upper, e, counts2, results2, e2)
    requires |results1| == |results2|
    ensures counts1 == counts2 && results1 == results2 && e1 == e2
    decreases |counts1|
  {
    if |counts1| > 0 {
      FirstKeptAsWrittenUnique(visit, r, s, Span(r, lower, upper), e, counts1[0] - 1, counts2[0] - 1);
      RangeDrawsAsWrittenDetermined(visit, r, s, lower, upper, After(visit, e, counts1[0]),
                                    counts1[1..], results1[1..], e1, counts2[1..], results2[1..], e2);
      assert counts1 == [counts1[0]] + counts1[1..] && counts2 == [counts2[0]] + counts2[1..];
      assert results1 == [results1[0]] + results1[1..] && results2 == [results2[0]] + results2[1..];
    }
  }

  /**
   * The fill as written leaves [lower, upper): with a 32-bit result over a
   * 64-bit state, on a stream whose first draw is 1, the fill over
   * [10, 20) keeps that draw and stores 0.
   */
  lemma FillAsWrittenEscapes(visit: Engine -> Drawn, e: Engine)
    requires DrawAt(visit, W32, W64, e, 0) == 1
    ensures RangeDrawsAsWritten(visit, W32, W64, 10, 20, e, [1], [0], After(visit, e, 1))
  {
    LowerAddedBeforeShift();
    assert [1][1..] == [] && [0][1..] == [];
  }

  /**
   * `results` are successive bounded draws over [lower:upper) from e as
   * Lemire's method makes them, lower added after the shift: draw i
   * consumes counts[i] engine draws, the last of them the first one kept,
   * and e' is the engine after all of them.
   */
  ghost predicate RangeDraws(visit: Engine -> Drawn, r: Width, s: Width, lower: nat, upper: nat,
                             e: Engine, counts: seq<nat>, results: seq<nat>, e': Engine)
    decreases |counts|
  {
    |counts| == |results| &&
    if |counts| == 0 then
      e' == e
    else
      counts[0] > 0 &&
      FirstKeptLemire(visit, r, s, Span(r, lower, upper), e, counts[0] - 1) &&
      results[0] == ResultBetween(r, DrawAt(visit, r, s, e, counts[0] - 1), lower, upper) &&
      RangeDraws(visit, r, s, lower, upper, After(visit, e, counts[0]), counts[1..], results[1..], e')
  }

  /** One more bounded draw extends a run of bounded draws. */
  lemma {:induction false} RangeDrawsSnoc(visit: Engine -> Drawn, r: Width, s: Width, lower: nat, upper: nat,
                                          e: Engine, counts: seq<nat>, results: seq<nat>, e1: Engine, c: nat, v: nat)
    requires RangeDraws(visit, r, s, lower, upper, e, counts, results, e1)
    requires c > 0 && FirstKeptLemire(visit, r, s, Span(r, lower, upper), e1, c - 1)
    requires v == ResultBetween(r, DrawAt(visit, r, s, e1, c - 1), lower, upper)
    ensures RangeDraws(visit, r, s, lower, upper, e, counts + [c], results + [v], After(visit, e1, c))
    decreases |counts|
  {
    if |counts| == 0 {
      assert counts + [c] == [c] && results + [v] == [v];
      assert [c][1..] == [] && [v][1..] == [];
    } else {
      RangeDrawsSnoc(visit, r, s, lower, upper, After(visit, e, counts[0]), counts[1..], results[1..], e1, c, v);
      assert (counts + [c])[1..] == counts[1..] + [c];
      assert (results + [v])[1..] == results[1..] + [v];
    }
  }

  /** Successive bounded draws over [lower:upper) with lower < upper all lie in [lower, upper). */
  lemma {:induction false} RangeDrawsInRange(visit: Engine -> Drawn, r: Width, s: Width, lower: nat, upper: nat,
                                             e: Engine, counts: seq<nat>, results: seq<nat>, e': Engine, i: nat)
    requires lower < upper < Base(r)
    requires RangeDraws(visit, r, s, lower, upper, e, counts, results, e') && i < |results|
    ensures lower <= results[i] < upper
    decreases |counts|
  {
    var x := DrawAt(visit, r, s, e, counts[0] - 1);
    var e1 := After(visit, e, counts[0]);
    if i == 0 {
      assert results[0] == ResultBetween(r, x, lower, upper);
      ResultBetweenInRange(r, x, lower, upper);
    } else {
      assert RangeDraws(visit, r, s, lower, upper, e1, counts[1..], results[1..], e');
      RangeDrawsInRange(visit, r, s, lower, upper, e1, counts[1..], results[1..], e', i - 1);
      assert results[i] == results[1..][i - 1];
    }
  }

  // ------------------------------------------------------------------
  // Construction
  // ------------------------------------------------------------------

  /** `generator_type` without `pcg`. */
  datatype GeneratorType = SelectXoro128 | SelectJsf

  /** Amounts a 64-bit JSF engine's p, q and r may hold before they are assigned. */
  datatype Unset64 = Unset64(p: Jsf.Amount64, q: Jsf.Amount64, r: Jsf.Amount64OrZero)

  /**
   * What one thread's engine is built from that the program does not
   * determine: the entropy words its seeding draws (a 32-bit engine takes
   * their low halves), and the amounts a JSF engine's p, q and r hold when
   * its warm-up reads them, before the constructor assigns them.
   */
  datatype Entropy = Entropy(w0: bv64, w1: bv64, unset32: Jsf.Params32, unset64: Unset64)

  /**
   * The engine pushed for `thread_id`: xoroshiro128 jumped 2*thread_id
   * times, or JSF as its constructor builds it, warmed up with the unset
   * amounts and then given the row ParamIndexAsWritten picks for its
   * instance number: `created` 32-bit JSF engines exist before the
   * dispatcher, which builds thread i's as instance created+i+1.
   */
  function Initial(sel: GeneratorType, s: Width, threadId: nat, created: nat, seed: Entropy): Engine
    requires threadId < 0x4000_0000
  {
    if sel == SelectXoro128 then
      if s == W64 then
        Xoroshiro64(Iterate(Xoroshiro.Jump64, Xoroshiro.AutoSeeded64(seed.w0, seed.w1), 2 * threadId))
      else
        Xoroshiro32(Iterate(Xoroshiro.Jump32, Xoroshiro.AutoSeeded32(Lo32(seed.w0), Lo32(seed.w1)), 2 * threadId))
    else if s == W64 then
      JsfEngine64(Jsf.ConstructedAsWritten64(seed.w0, seed.w1, seed.unset64.p, seed.unset64.q, seed.unset64.r))
    else
      JsfEngine32(Jsf.ConstructedAsWritten32(created + threadId + 1, Lo32(seed.w0), Lo32(seed.w1),
                                             seed.unset32.p, seed.unset32.q, seed.unset32.r))
  }

  /**
   * A JSF engine is the intended one, its own row stored before the
   * warm-up, when its unset amounts happen to equal that row and, for
   * 32-bit engines, the instance number is at most 22, where the written
   * row index is the intended one.
   */
  lemma InitialJsfAsIntended(s: Width, threadId: nat, created: nat, seed: Entropy)
    requires threadId < 0x4000_0000
    ensures s == W32 && 1 <= created + threadId + 1 <= 22 && seed.unset32 == Jsf.Params32For(created + threadId + 1) ==>
      Initial(SelectJsf, s, threadId, created, seed) == JsfEngine32(Jsf.Constructed32(created + threadId + 1, Lo32(seed.w0), Lo32(seed.w1)))
    ensures s == W64 && seed.unset64 == Unset64(Jsf.Params64.0, Jsf.Params64.1, Jsf.Params64.2) ==>
      Initial(SelectJsf, s, threadId, created, seed) == JsfEngine64(Jsf.Constructed64(seed.w0, seed.w1))
  {
    if s == W32 && 1 <= created + threadId + 1 <= 22 && seed.unset32 == Jsf.Params32For(created + threadId + 1) {
      Jsf.AsWrittenAgreesWhenAmountsMatch32(created + threadId + 1, Lo32(seed.w0), Lo32(seed.w1));
    }
    if s == W64 && seed.unset64 == Unset64(Jsf.Params64.0, Jsf.Params64.1, Jsf.Params64.2) {
      Jsf.AsWrittenAgreesWhenAmountsMatch64(seed.w0, seed.w1);
    }
  }

  lemma InitialWidth(sel: GeneratorType, s: Width, threadId: nat, created: nat, seed: Entropy)
    requires threadId < 0x4000_0000
    ensures WidthOf(Initial(sel, s, threadId, created, seed)) == s
  {
  }

  /**
   * The first n engines of a dispatcher, in push order: engine i is
   * thread i's, seeded by seeds[i], JSF instance created+i+1.
   */
  function InitialEngines(sel: GeneratorType, s: Width, created: nat, seeds: seq<Entropy>, n: nat): (v: seq<Engine>)
    requires n <= |seeds| && n <= 0x4000_0000
    ensures |v| == n
    decreases n
  {
    if n == 0 then [] else InitialEngines(sel, s, created, seeds, n - 1) + [Initial(sel, s, n - 1, created, seeds[n - 1])]
  }

  /** The first n+1 engines are the first n and thread n's. */
  lemma InitialEnginesSnoc(sel: GeneratorType, s: Width, created: nat, seeds: seq<Entropy>, n: nat)
    requires n < |seeds| && n < 0x4000_0000
    ensures InitialEngines(sel, s, created, seeds, n + 1) ==
            InitialEngines(sel, s, created, seeds, n) + [Initial(sel, s, n, created, seeds[n])]
  {
  }

  /** Engine i of the first n is the one built for thread i. */
  lemma {:induction false} InitialEnginesAt(sel: GeneratorType, s: Width, created: nat, seeds: seq<Entropy>, n: nat, i: nat)
    requires n <= |seeds| && n <= 0x4000_0000 && i < n
    ensures InitialEngines(sel, s, created, seeds, n)[i] == Initial(sel, s, i, created, seeds[i])
    decreases n
  {
    if i < n - 1 {
      InitialEnginesAt(sel, s, created, seeds, n - 1, i);
    } else {
      InitialEnginesSnoc(sel, s, created, seeds, i);
    }
  }

  /** `xoroshiro128<state_type>(thread_id)` or `jsf<state_type>(thread_id)`, as the variant stores it. */
  method MakeEngine(sel: GeneratorType, s: Width, threadId: nat, created: nat, seed: Entropy) returns (e: Engine)
    requires threadId < 0x4000_0000
    ensures e == Initial(sel, s, threadId, created, seed)
  {
    if sel == SelectXoro128 {
      if s == W64 {
        var g := new Xoroshiro.XoroshiroU64(threadId, seed.w0, seed.w1);
        e := Xoroshiro64(g.State());
      } else {
        var g := new Xoroshiro.XoroshiroU32(threadId, Lo32(seed.w0), Lo32(seed.w1));
        e := Xoroshiro32(g.State());
      }
    } else if s == W64 {
      var g := new Jsf.JsfU64.AsWritten(threadId, seed.w0, seed.w1, seed.unset64.p, seed.unset64.q, seed.unset64.r);
      e := JsfEngine64(g.State());
    } else {
      var g := new Jsf.JsfU32.AsWritten(threadId, created + threadId + 1, Lo32(seed.w0), Lo32(seed.w1),
                                        seed.unset32.p, seed.unset32.q, seed.unset32.r);
      e := JsfEngine32(g.State());
    }
  }

  // ------------------------------------------------------------------
  // The dispatcher
  // ------------------------------------------------------------------

  /**
   * Lemire's threshold as the code finds it on one width: `t = -upper`,
   * then `t -= upper` when t >= upper and `t %= upper` when it still is.
   */
  method NegateAndReduce(w: Width, upper: nat) returns (t: nat)
    requires 0 < upper < Base(w)
    ensures t == Threshold(w, w, upper)
  {
    t := Negated(w, w, upper);
    if t >= upper {
      t := t - upper;
      if t >= upper {
        t := t % upper;
      }
    }
  }

  class Dispatcher {
    const resultWidth: Width
    const stateWidth: Width
    const nThreads: nat
    const genVisit: Engine -> Drawn
    var genVec: seq<Engine>

    /**
     * `Threaded_rands(n, sel)`: one engine per thread id, pushed in
     * increasing id order.  `created` counts the JSF engines of this state
     * type made before; the engine for thread i is instance created+i+1.
     */
    constructor (n: nat, sel: GeneratorType, r: Width, s: Width, created: nat, seeds: seq<Entropy>)
      requires |seeds| == n && n <= 0x4000_0000
      ensures resultWidth == r && stateWidth == s && nThreads == n && genVisit == Visit
      ensures genVec == InitialEngines(sel, s, created, seeds, n)
    {
      resultWidth, stateWidth, nThreads, genVisit := r, s, n, Visit;
      genVec := [];
      new;
      var threadId := 0;
      while threadId < n
        invariant 0 <= threadId <= n
        invariant genVec == InitialEngines(sel, s, created, seeds, threadId)
      {
        PushEngine(sel, s, created, seeds, threadId);
        threadId := threadId + 1;
      }
    }

    /** One iteration of the constructor's loop: `gen_vec.push_back` of thread threadId's engine. */
    method PushEngine(sel: GeneratorType, s: Width, created: nat, seeds: seq<Entropy>, threadId: nat)
      requires threadId < |seeds| && threadId < 0x4000_0000
      requires genVec == InitialEngines(sel, s, created, seeds, threadId)
      modifies this
      ensures genVec == InitialEngines(sel, s, created, seeds, threadId + 1)
    {
      var g := MakeEngine(sel, s, threadId, created, seeds[threadId]);
      InitialEnginesSnoc(sel, s, created, seeds, threadId);
      genVec := genVec + [g];
    }

    /** `get_rand(thread_id)`: one draw of stream `thread_id`, shifted right by `bit_shift`; no other stream moves. */
    method GetRand(threadId: nat) returns (r: nat)
      requires threadId < |genVec|
      modifies this
      ensures genVec == old(genVec)[threadId := After(genVisit, old(genVec[threadId]), 1)]
      ensures r == DrawAt(genVisit, resultWidth, stateWidth, old(genVec[threadId]), 0)
      ensures Min() <= r <= Max(resultWidth)
    {
      MinMaxSpanResultType(resultWidth);
      var d := genVisit(genVec[threadId]);
      genVec := genVec[threadId := d.next];
      r := d.word;
      r := Wrap(resultWidth, Shr(r, BitShift(resultWidth, stateWidth)));
    }

    /** GetRand on a stream that has made k draws since it was e0: it returns draw k of e0. */
    method NextDraw(threadId: nat, ghost e0: Engine, ghost k: nat) returns (x: nat)
      requires threadId < |genVec| && genVec[threadId] == After(genVisit, e0, k)
      modifies this
      ensures genVec == old(genVec)[threadId := After(genVisit, e0, k + 1)]
      ensures x == DrawAt(genVisit, resultWidth, stateWidth, e0, k)
    {
      x := GetRand(threadId);
      DrawAtAfter(genVisit, resultWidth, stateWidth, e0, k, 0);
      AfterAdd(genVisit, e0, k, 1);
    }

    /** `operator()`: a draw of stream 0. */
    method Call() returns (r: nat)
      requires 0 < |genVec|
      modifies this
      ensures genVec == old(genVec)[0 := After(genVisit, old(genVec[0]), 1)]
      ensures r == DrawAt(genVisit, resultWidth, stateWidth, old(genVec[0]), 0)
    {
      r := GetRand(0);
    }

    /**
     * The draw-and-reject part of `get_bounded_rand` as written: the
     * product in int_type, its state-width low part, the negate-and-reduce
     * threshold, and the loop while `l < t`.  Returns the last product.
     * The loop ends only on a stream that eventually yields a kept draw.
     */
    method SampleAsWritten(upper: nat, threadId: nat) returns (m: nat, ghost k: nat)
      requires threadId < |genVec| && upper < Base(resultWidth)
      requires exists j :: AcceptsAsWritten(resultWidth, stateWidth, upper, DrawAt(genVisit, resultWidth, stateWidth, genVec[threadId], j))
      modifies this
      ensures FirstKeptAsWritten(genVisit, resultWidth, stateWidth, upper, old(genVec[threadId]), k)
      ensures genVec == old(genVec)[threadId := After(genVisit, old(genVec[threadId]), k + 1)]
      ensures m == Product(stateWidth, DrawAt(genVisit, resultWidth, stateWidth, old(genVec[threadId]), k), upper)
      ensures Low(stateWidth, Product(stateWidth, DrawAt(genVisit, resultWidth, stateWidth, old(genVec[threadId]), 0), upper)) >= upper ==> k == 0
    {
      ghost var e0 := genVec[threadId];
      ghost var bound: nat :| AcceptsAsWritten(resultWidth, stateWidth, upper, DrawAt(genVisit, resultWidth, stateWidth, e0, bound));
      var x := NextDraw(threadId, e0, 0);
      k := 0;
      m := Product(stateWidth, x, upper);
      var l := Low(stateWidth, m);
      if l < upper {
        var t := Negated(resultWidth, stateWidth, upper);
        if t >= upper {
          t := t - upper;
          if t >= upper {
            t := t % upper;
          }
        }
        assert t == Threshold(resultWidth, stateWidth, upper);
        ThresholdBelowUpper(resultWidth, stateWidth, upper);
        while l < t
          invariant |genVec| == |old(genVec)|
          invariant genVec == old(genVec)[threadId := After(genVisit, e0, k + 1)]
          invariant x == DrawAt(genVisit, resultWidth, stateWidth, e0, k)
          invariant m == Product(stateWidth, x, upper) && l == Low(stateWidth, m)
          invariant NoneKeptAsWritten(genVisit, resultWidth, stateWidth, upper, e0, k)
          invariant k <= bound
          decreases bound - k
        {
          assert !AcceptsAsWritten(resultWidth, stateWidth, upper, x);
          NoneKeptAsWrittenSnoc(genVisit, resultWidth, stateWidth, upper, e0, k);
          x := NextDraw(threadId, e0, k + 1);
          k := k + 1;
          m := Product(stateWidth, x, upper);
          l := Low(stateWidth, m);
        }
      }
    }

    /** `get_bounded_rand(upper, thread_id)` as written: `m >> bit_shift` in result_type. */
    method BoundedRandAsWritten(upper: nat, threadId: nat) returns (r: nat, ghost k: nat)
      requires threadId < |genVec| && upper < Base(resultWidth)
      requires exists j :: AcceptsAsWritten(resultWidth, stateWidth, upper, DrawAt(genVisit, resultWidth, stateWidth, genVec[threadId], j))
      modifies this
      ensures FirstKeptAsWritten(genVisit, resultWidth, stateWidth, upper, old(genVec[threadId]), k)
      ensures genVec == old(genVec)[threadId := After(genVisit, old(genVec[threadId]), k + 1)]
      ensures r == ResultAsWritten(resultWidth, stateWidth, DrawAt(genVisit, resultWidth, stateWidth, old(genVec[threadId]), k), upper)
    {
      var m;
      m, k := SampleAsWritten(upper, threadId);
      r := Wrap(resultWidth, Shr(m, BitShift(resultWidth, stateWidth)));
    }

    /** `get_bounded_rand(lower, upper, thread_id)` as written: `m += lower`, then `m >> bit_shift`. */
    method BoundedRangeAsWritten(lower: nat, upper: nat, threadId: nat) returns (r: nat, ghost k: nat)
      requires threadId < |genVec| && lower < Base(resultWidth) && upper < Base(resultWidth)
      requires exists j :: AcceptsAsWritten(resultWidth, stateWidth, Span(resultWidth, lower, upper), DrawAt(genVisit, resultWidth, stateWidth, genVec[threadId], j))
      modifies this
      ensures FirstKeptAsWritten(genVisit, resultWidth, stateWidth, Span(resultWidth, lower, upper), old(genVec[threadId]), k)
      ensures genVec == old(genVec)[threadId := After(genVisit, old(genVec[threadId]), k + 1)]
      ensures r == ResultBetweenAsWritten(resultWidth, stateWidth, DrawAt(genVisit, resultWidth, stateWidth, old(genVec[threadId]), k), lower, upper)
    {
      var ourUpper := Wrap(resultWidth, upper - lower);
      var m;
      m, k := SampleAsWritten(ourUpper, threadId);
      m := WideWrap(stateWidth, m + lower);
      r := Wrap(resultWidth, Shr(m, BitShift(resultWidth, stateWidth)));
    }

    /**
     * The draw-and-reject loop as Lemire's method has it: the product is
     * taken in int_type, and its low RTYPE_BITS are compared with 2^R mod upper, found by
     * negating upper in result_type and reducing.  Returns the kept product.
     * The method takes draws R bits wide, so the result may be no wider
     * than the state (WideResultOverNarrowDraws).
     */
    method Sample(upper: nat, threadId: nat) returns (m: nat, ghost k: nat)
      requires Bits(resultWidth) <= Bits(stateWidth)
      requires threadId < |genVec| && upper < Base(resultWidth)
      requires exists j :: AcceptsLemire(resultWidth, upper, DrawAt(genVisit, resultWidth, stateWidth, genVec[threadId], j))
      modifies this
      ensures FirstKeptLemire(genVisit, resultWidth, stateWidth, upper, old(genVec[threadId]), k)
      ensures genVec == old(genVec)[threadId := After(genVisit, old(genVec[threadId]), k + 1)]
      ensures m == Product(stateWidth, DrawAt(genVisit, resultWidth, stateWidth, old(genVec[threadId]), k), upper)
    {
      assert Base(resultWidth) <= Base(stateWidth);
      ghost var e0 := genVec[threadId];
      ghost var bound: nat :| AcceptsLemire(resultWidth, upper, DrawAt(genVisit, resultWidth, stateWidth, e0, bound));
      var x := NextDraw(threadId, e0, 0);
      k := 0;
      m := Product(stateWidth, x, upper);
      var l := Wrap(resultWidth, m);
      if l < upper {
        var t := NegateAndReduce(resultWidth, upper);
        while l < t
          invariant |genVec| == |old(genVec)|
          invariant genVec == old(genVec)[threadId := After(genVisit, e0, k + 1)]
          invariant x == DrawAt(genVisit, resultWidth, stateWidth, e0, k)
          invariant m == Product(stateWidth, x, upper) && l == Wrap(resultWidth, m)
          invariant NoneKept(genVisit, resultWidth, stateWidth, upper, e0, k)
          invariant k <= bound
          decreases bound - k
        {
          assert !AcceptsLemire(resultWidth, upper, x) by {
            ThresholdEqualWidths(resultWidth, upper);
            ProductBelowWide(stateWidth, x, upper);
          }
          NoneKeptSnoc(genVisit, resultWidth, stateWidth, upper, e0, k);
          x := NextDraw(threadId, e0, k + 1);
          k := k + 1;
          m := Product(stateWidth, x, upper);
          l := Wrap(resultWidth, m);
        }
        assert AcceptsLemire(resultWidth, upper, x) by {
          ThresholdEqualWidths(resultWidth, upper);
          ProductBelowWide(stateWidth, x, upper);
        }
      } else {
        assert AcceptsLemire(resultWidth, upper, x) by {
          ProductBelowWide(stateWidth, x, upper);
        }
      }
    }

    /** `get_bounded_rand(upper, thread_id)` returning the high part `m >> RTYPE_BITS`: a value in [0, upper). */
    method BoundedRand(upper: nat, threadId: nat) returns (r: nat, ghost k: nat)
      requires Bits(resultWidth) <= Bits(stateWidth)
      requires threadId < |genVec| && upper < Base(resultWidth)
      requires exists j :: AcceptsLemire(resultWidth, upper, DrawAt(genVisit, resultWidth, stateWidth, genVec[threadId], j))
      modifies this
      ensures FirstKeptLemire(genVisit, resultWidth, stateWidth, upper, old(genVec[threadId]), k)
      ensures genVec == old(genVec)[threadId := After(genVisit, old(genVec[threadId]), k + 1)]
      ensures r == ResultLemire(resultWidth, DrawAt(genVisit, resultWidth, stateWidth, old(genVec[threadId]), k), upper)
      ensures 0 < upper ==> r < upper
    {
      var m;
      m, k := Sample(upper, threadId);
      r := High(resultWidth, m);
      assert Base(resultWidth) <= Base(stateWidth);
      ProductBelowWide(stateWidth, DrawAt(genVisit, resultWidth, stateWidth, old(genVec[threadId]), k), upper);
      if 0 < upper {
        ResultLemireBelowUpper(resultWidth, DrawAt(genVisit, resultWidth, stateWidth, old(genVec[threadId]), k), upper);
      }
    }

    /** `get_bounded_rand(lower, upper, thread_id)` adding lower after the shift: a value in [lower, upper). */
    method BoundedRange(lower: nat, upper: nat, threadId: nat) returns (r: nat, ghost k: nat)
      requires Bits(resultWidth) <= Bits(stateWidth)
      requires threadId < |genVec| && lower < Base(resultWidth) && upper < Base(resultWidth)
      requires exists j :: AcceptsLemire(resultWidth, Span(resultWidth, lower, upper), DrawAt(genVisit, resultWidth, stateWidth, genVec[threadId], j))
      modifies this
      ensures FirstKeptLemire(genVisit, resultWidth, stateWidth, Span(resultWidth, lower, upper), old(genVec[threadId]), k)
      ensures genVec == old(genVec)[threadId := After(genVisit, old(genVec[threadId]), k + 1)]
      ensures r == ResultBetween(resultWidth, DrawAt(genVisit, resultWidth, stateWidth, old(genVec[threadId]), k), lower, upper)
      ensures lower < upper ==> lower <= r < upper
    {
      var ourUpper := Wrap(resultWidth, upper - lower);
      var m;
      m, k := Sample(ourUpper, threadId);
      r := Wrap(resultWidth, lower + High(resultWidth, m));
      assert Base(resultWidth) <= Base(stateWidth);
      ProductBelowWide(stateWidth, DrawAt(genVisit, resultWidth, stateWidth, old(genVec[threadId]), k), ourUpper);
      if lower < upper {
        ResultBetweenInRange(resultWidth, DrawAt(genVisit, resultWidth, stateWidth, old(genVec[threadId]), k), lower, upper);
      }
    }

    /** `generate(vec, thread_id)`: element i becomes draw i of the stream, in index order. */
    method Generate(vec: array<nat>, threadId: nat)
      requires threadId < |genVec|
      modifies this, vec
      ensures genVec == old(genVec)[threadId := After(genVisit, old(genVec[threadId]), vec.Length)]
      ensures forall i :: 0 <= i < vec.Length ==> vec[i] == DrawAt(genVisit, resultWidth, stateWidth, old(genVec[threadId]), i)
    {
      ghost var e0 := genVec[threadId];
      for i := 0 to vec.Length
        invariant |genVec| == |old(genVec)|
        invariant genVec == old(genVec)[threadId := After(genVisit, e0, i)]
        invariant forall j :: 0 <= j < i ==> vec[j] == DrawAt(genVisit, resultWidth, stateWidth, e0, j)
      {
        var x := NextDraw(threadId, e0, i);
        vec[i] := x;
      }
    }

    /**
     * The 1-D `generate_range(vec, lower, upper, thread_id)`: element i
     * becomes the i-th successive `get_bounded_rand(lower, upper,
     * thread_id)` of one stream, as the code computes it.  The values are
     * not confined to [lower, upper) (FillAsWrittenEscapes).  The bounds
     * are `unsigned int` parameters, so they are below 2^32 for either
     * result width.  The stream must keep yielding kept draws.
     */
    method GenerateRange(vec: array<nat>, lower: nat, upper: nat, threadId: nat) returns (ghost counts: seq<nat>)
      requires threadId < |genVec| && lower < 0x1_0000_0000 && upper < 0x1_0000_0000
      requires KeepsAcceptingAsWritten(genVisit, resultWidth, stateWidth, Span(resultWidth, lower, upper), genVec[threadId])
      modifies this, vec
      ensures exists e' :: genVec == old(genVec)[threadId := e'] &&
                RangeDrawsAsWritten(genVisit, resultWidth, stateWidth, lower, upper, old(genVec[threadId]), counts, vec[..], e')
    {
      ghost var e0 := genVec[threadId];
      ghost var pos := 0;
      counts := [];
      for i := 0 to vec.Length
        invariant |genVec| == |old(genVec)|
        invariant genVec == old(genVec)[threadId := After(genVisit, e0, pos)]
        invariant RangeDrawsAsWritten(genVisit, resultWidth, stateWidth, lower, upper, e0, counts, vec[..i], After(genVisit, e0, pos))
      {
        ghost var c := RangeStep(vec, i, lower, upper, threadId, e0, counts, pos);
        counts := counts + [c];
        pos := pos + c;
      }
      assert vec[..] == vec[..vec.Length];
    }

    /**
     * The body of the loop of `generate_range`: `vec[i] =
     * get_bounded_rand(lower, upper, thread_id)` as written, which extends
     * the run by one bounded draw that took c engine draws.
     */
    method RangeStep(vec: array<nat>, i: nat, lower: nat, upper: nat, threadId: nat,
                     ghost e0: Engine, ghost counts: seq<nat>, ghost pos: nat) returns (ghost c: nat)
      requires threadId < |genVec| && lower < 0x1_0000_0000 && upper < 0x1_0000_0000 && i < vec.Length
      requires genVec[threadId] == After(genVisit, e0, pos)
      requires AcceptingAsWritten(genVisit, resultWidth, stateWidth, Span(resultWidth, lower, upper), After(genVisit, e0, pos))
      requires RangeDrawsAsWritten(genVisit, resultWidth, stateWidth, lower, upper, e0, counts, vec[..i], After(genVisit, e0, pos))
      modifies this, vec
      ensures genVec == old(genVec)[threadId := After(genVisit, e0, pos + c)]
      ensures RangeDrawsAsWritten(genVisit, resultWidth, stateWidth, lower, upper, e0, counts + [c], vec[..i + 1], After(genVisit, e0, pos + c))
    {
      ghost var prefix := vec[..i];
      var x, k := BoundedRangeAsWritten(lower, upper, threadId);
      c := k + 1;
      RangeDrawsAsWrittenSnoc(genVisit, resultWidth, stateWidth, lower, upper, e0, counts, prefix, After(genVisit, e0, pos), c, x);
      AfterAdd(genVisit, e0, pos, c);
      vec[i] := x;
      assert vec[..i + 1] == prefix + [x];
    }

    /**
     * The 1-D fill as intended: element i becomes the i-th successive
     * bounded draw of Lemire's method with lower added after the shift;
     * with lower < upper every element lies in [lower, upper).  The bounds
     * are `unsigned int`, as in GenerateRange.
     */
    method GenerateRangeIntended(vec: array<nat>, lower: nat, upper: nat, threadId: nat) returns (ghost counts: seq<nat>)
      requires Bits(resultWidth) <= Bits(stateWidth)
      requires threadId < |genVec| && lower < 0x1_0000_0000 && upper < 0x1_0000_0000
      requires KeepsAcceptingLemire(genVisit, resultWidth, stateWidth, Span(resultWidth, lower, upper), genVec[threadId])
      modifies this, vec
      ensures exists e' :: genVec == old(genVec)[threadId := e'] &&
                RangeDraws(genVisit, resultWidth, stateWidth, lower, upper, old(genVec[threadId]), counts, vec[..], e')
      ensures lower < upper ==> forall i :: 0 <= i < vec.Length ==> lower <= vec[i] < upper
    {
      ghost var e0 := genVec[threadId];
      ghost var pos := 0;
      counts := [];
      for i := 0 to vec.Length
        invariant |genVec| == |old(genVec)|
        invariant genVec == old(genVec)[threadId := After(genVisit, e0, pos)]
        invariant RangeDraws(genVisit, resultWidth, stateWidth, lower, upper, e0, counts, vec[..i], After(genVisit, e0, pos))
      {
        ghost var c := RangeStepIntended(vec, i, lower, upper, threadId, e0, counts, pos);
        counts := counts + [c];
        pos := pos + c;
      }
      assert vec[..] == vec[..vec.Length];
      assert genVec == old(genVec)[threadId := After(genVisit, e0, pos)];
      if lower < upper {
        forall i | 0 <= i < vec.Length
          ensures lower <= vec[i] < upper
        {
          RangeDrawsInRange(genVisit, resultWidth, stateWidth, lower, upper, e0, counts, vec[..], After(genVisit, e0, pos), i);
        }
      }
    }

    /** One step of the intended fill: the element becomes the next intended bounded draw. */
    method RangeStepIntended(vec: array<nat>, i: nat, lower: nat, upper: nat, threadId: nat,
                             ghost e0: Engine, ghost counts: seq<nat>, ghost pos: nat) returns (ghost c: nat)
      requires Bits(resultWidth) <= Bits(stateWidth)
      requires threadId < |genVec| && lower < 0x1_0000_0000 && upper < 0x1_0000_0000 && i < vec.Length
      requires genVec[threadId] == After(genVisit, e0, pos)
      requires AcceptingLemire(genVisit, resultWidth, stateWidth, Span(resultWidth, lower, upper), After(genVisit, e0, pos))
      requires RangeDraws(genVisit, resultWidth, stateWidth, lower, upper, e0, counts, vec[..i], After(genVisit, e0, pos))
      modifies this, vec
      ensures genVec == old(genVec)[threadId := After(genVisit, e0, pos + c)]
      ensures RangeDraws(genVisit, resultWidth, stateWidth, lower, upper, e0, counts + [c], vec[..i + 1], After(genVisit, e0, pos + c))
    {
      ghost var prefix := vec[..i];
      var x, k := BoundedRange(lower, upper, threadId);
      c := k + 1;
      RangeDrawsSnoc(genVisit, resultWidth, stateWidth, lower, upper, e0, counts, prefix, After(genVisit, e0, pos), c, x);
      AfterAdd(genVisit, e0, pos, c);
      vec[i] := x;
      assert vec[..i + 1] == prefix + [x];
    }
  }
}
