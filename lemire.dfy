/**
 * The word arithmetic of `Threaded_rands::get_bounded_rand`
 * (include/threaded_rands.hpp): Lemire's nearly-divisionless bounded draw
 * with O'Neill's negate-and-reduce threshold, written over natural
 * numbers with every C++ wrap-around made explicit.
 *
 * The dispatcher is a template over `result_type` (R bits) and
 * `state_type` (S bits), each 32 or 64 bits wide.  A draw x is what
 * `get_rand` returns; the product `m` is taken in `int_type`, which is
 * 128 bits wide for a 64-bit state and 64 bits wide for a 32-bit state.
 *
 * Two definitions sit side by side: the code as written (Product, Low,
 * Threshold, AcceptsAsWritten, ResultAsWritten, ResultBetweenAsWritten)
 * and Lemire's method as the comments describe it (AcceptsLemire,
 * ResultLemire, ResultBetween), on which the intended guarantees are
 * proved.
 */
module Lemire {

  /** The width of `result_type` or `state_type`. */
  datatype Width = W32 | W64

  function Bits(w: Width): nat
  {
    if w == W32 then 32 else 64
  }

  /** 2^Bits(w): every value of the type is below it. */
  function Base(w: Width): nat
  {
    if w == W32 then 0x1_0000_0000 else 0x1_0000_0000_0000_0000
  }

  /** The modulus of `int_type`: `uint64_t` for a 32-bit state, `__uint128_t` for a 64-bit state. */
  function WideBase(s: Width): nat
  {
    if s == W32 then 0x1_0000_0000_0000_0000 else 0x1_0000_0000_0000_0000_0000_0000_0000_0000
  }

  /** 2^k for the shift amounts that occur: 0, 32 and 64. */
  function Pow2(k: nat): nat
    requires k == 0 || k == 32 || k == 64
  {
    if k == 0 then 1 else if k == 32 then 0x1_0000_0000 else 0x1_0000_0000_0000_0000
  }

  /** `v >> k` on an unsigned value. */
  function Shr(v: nat, k: nat): nat
    requires k == 0 || k == 32 || k == 64
  {
    if k == 0 then v else if k == 32 then v / 0x1_0000_0000 else v / 0x1_0000_0000_0000_0000
  }

  /** v converted to an unsigned type of width w: the value modulo 2^Bits(w). */
  function Wrap(w: Width, v: int): nat
  {
    if w == W32 then v % 0x1_0000_0000 else v % 0x1_0000_0000_0000_0000
  }

  /** v converted to `int_type`, twice as wide as the state width s. */
  function WideWrap(s: Width, v: int): nat
  {
    if s == W32 then v % 0x1_0000_0000_0000_0000 else v % 0x1_0000_0000_0000_0000_0000_0000_0000_0000
  }

  /** `v >> Bits(w)`. */
  function High(w: Width, v: nat): nat
  {
    if w == W32 then v / 0x1_0000_0000 else v / 0x1_0000_0000_0000_0000
  }

  /** `bit_shift = std::max(0, STYPE_BITS - RTYPE_BITS)`. */
  function BitShift(r: Width, s: Width): (k: nat)
    ensures k == 0 || k == 32
  {
    var d: int := Bits(s) - Bits(r);
    if d > 0 then d else 0
  }

  /**
   * The shift is 32 exactly when a 64-bit state feeds a 32-bit result and
   * 0 otherwise: it never goes negative when the result is the wider type.
   */
  lemma BitShiftCases(r: Width, s: Width)
    ensures BitShift(r, s) == 32 <==> r == W32 && s == W64
    ensures BitShift(r, s) == 0 <==> !(r == W32 && s == W64)
  {
  }

  /**
   * `get_rand` shifts an S-bit engine word right by `bit_shift`: the
   * result fits in R bits and consists of the word's top bits, i.e. it is
   * the word with its low `bit_shift` bits dropped.
   */
  lemma ShiftKeepsHighBits(r: Width, s: Width, word: nat)
    requires word < Base(s)
    ensures Shr(word, BitShift(r, s)) < Base(r)
    ensures Shr(word, BitShift(r, s)) * Pow2(BitShift(r, s)) <= word
    ensures word < (Shr(word, BitShift(r, s)) + 1) * Pow2(BitShift(r, s))
  {
    if r == W32 && s == W64 {
      DivModUnique(word, Base(W32), word / Base(W32), word % Base(W32));
    }
  }

  // ------------------------------------------------------------------
  // The threshold
  // ------------------------------------------------------------------

  /**
   * The reduction `if (t >= upper) { t -= upper; if (t >= upper) t %= upper; }`
   * that avoids the division in the common case.
   */
  function Reduce(t: nat, u: nat): nat
    requires u > 0
  {
    if t >= u then
      if t - u >= u then (t - u) % u else t - u
    else
      t
  }

  /** The reduction is t mod u, whichever branch it takes. */
  lemma ReduceIsModulo(t: nat, u: nat)
    requires u > 0
    ensures Reduce(t, u) == t % u
  {
    if t >= u {
      ModMinus(t, u);
      if t - u < u {
        assert (t - u) % u == t - u;
      }
    }
  }

  lemma ModMinus(t: nat, u: nat)
    requires 0 < u <= t
    ensures (t - u) % u == t % u
  {
    DivModUnique(t - u, u, t / u - 1, t % u);
  }

  /** Quotient and remainder are the only ones: p == q*u + rm with 0 <= rm < u fixes both. */
  lemma DivModUnique(p: int, u: int, q: int, rm: int)
    requires u > 0 && 0 <= rm < u && p == q * u + rm
    ensures p / u == q && p % u == rm
  {
    var q' := p / u;
    assert (q - q') * u == p % u - rm;
    SmallMultipleIsZero(q - q', u);
  }

  lemma SmallMultipleIsZero(a: int, u: int)
    requires u > 0 && -u < a * u < u
    ensures a == 0
  {
  }

  /**
   * `state_type t = -upper;`: upper is negated in `result_type` (modulo
   * 2^R) and the value is then stored in `state_type` (modulo 2^S).
   */
  function Negated(r: Width, s: Width, u: nat): nat
    requires u < Base(r)
  {
    Wrap(s, Wrap(r, Base(r) - u))
  }

  /** The threshold the code reaches: the negation, reduced. */
  function Threshold(r: Width, s: Width, u: nat): nat
    requires 0 < u < Base(r)
  {
    Reduce(Negated(r, s, u), u)
  }

  /**
   * When the result is no wider than the state, the threshold is
   * (2^R - upper) mod upper, which is 2^R mod upper.
   */
  lemma ThresholdIsPowerMod(r: Width, s: Width, u: nat)
    requires 0 < u < Base(r) && Bits(r) <= Bits(s)
    ensures Threshold(r, s, u) == (Base(r) - u) % u
    ensures Threshold(r, s, u) == Base(r) % u
  {
    ReduceIsModulo(Negated(r, s, u), u);
    assert Negated(r, s, u) == Base(r) - u;
    ModMinus(Base(r), u);
  }

  /** With equal widths W the threshold is 2^W mod upper, Lemire's threshold. */
  lemma ThresholdEqualWidths(w: Width, u: nat)
    requires 0 < u < Base(w)
    ensures Threshold(w, w, u) == Base(w) % u
  {
    ThresholdIsPowerMod(w, w, u);
  }

  lemma ThresholdBelowUpper(r: Width, s: Width, u: nat)
    requires 0 < u < Base(r)
    ensures Threshold(r, s, u) < u
  {
    ReduceIsModulo(Negated(r, s, u), u);
  }

  // ------------------------------------------------------------------
  // The code as written
  // ------------------------------------------------------------------

  /** `int_type m = int_type(x) * int_type(upper)`, wrapping modulo the width of int_type. */
  function Product(s: Width, x: nat, u: nat): nat
  {
    WideWrap(s, x * u)
  }

  /** `state_type l = static_cast<state_type>(m)`. */
  function Low(s: Width, m: nat): nat
  {
    Wrap(s, m)
  }

  /**
   * Whether draw x ends the rejection loop: the first draw is kept when
   * `!(l < upper)`, and any draw is kept when `!(l < t)`.
   */
  predicate AcceptsAsWritten(r: Width, s: Width, u: nat, x: nat)
    requires u < Base(r)
  {
    var l := Low(s, Product(s, x, u));
    l >= u || l >= Threshold(r, s, u)
  }

  /**
   * Because t < upper, a draw with l >= upper also passes `!(l < t)`: the
   * first draw and every later draw are kept by one and the same test.
   */
  lemma AcceptsAsWrittenIff(r: Width, s: Width, u: nat, x: nat)
    requires u < Base(r)
    ensures AcceptsAsWritten(r, s, u, x) <==> u == 0 || Low(s, Product(s, x, u)) >= Threshold(r, s, u)
  {
    if u > 0 {
      ThresholdBelowUpper(r, s, u);
    }
  }

  /** `return m >> bit_shift;` converted to `result_type`. */
  function ResultAsWritten(r: Width, s: Width, x: nat, u: nat): nat
  {
    Wrap(r, Shr(Product(s, x, u), BitShift(r, s)))
  }

  /** `result_type our_upper = upper - lower;`, wrapping modulo 2^R. */
  function Span(r: Width, lower: nat, upper: nat): nat
  {
    Wrap(r, upper - lower)
  }

  /** `m += lower; return m >> bit_shift;` with m the accepted product. */
  function ResultBetweenAsWritten(r: Width, s: Width, x: nat, lower: nat, upper: nat): nat
  {
    Wrap(r, Shr(WideWrap(s, Product(s, x, Span(r, lower, upper)) + lower), BitShift(r, s)))
  }

  /**
   * With equal widths the product never wraps and the shift is 0, so the
   * value returned is the LOW half of x*upper, not the high half that
   * Lemire's method returns.
   */
  lemma AsWrittenReturnsLowHalf(w: Width, x: nat, u: nat)
    requires x < Base(w) && u < Base(w)
    ensures ResultAsWritten(w, w, x, u) == (x * u) % Base(w)
  {
    BitShiftCases(w, w);
    ProductBelowWide(w, x, u);
  }

  lemma ProductBelowWide(s: Width, x: nat, u: nat)
    requires x < Base(s) && u < Base(s)
    ensures x * u < WideBase(s)
    ensures Product(s, x, u) == x * u
  {
    MulBelow(x, u, Base(s));
  }

  lemma MulBelow(x: nat, u: nat, b: nat)
    requires x < b && u < b
    ensures x * u < b * b
  {
    calc {
      x * u;
    <= x * b;
    <  b * b;
    }
  }

  /**
   * A 64-bit draw of all ones with upper = 2: the draw is kept (the
   * threshold is 0) and the value returned is 2^64 - 2, far outside [0, 2).
   */
  lemma LowHalfEscapesBound()
    ensures AcceptsAsWritten(W64, W64, 2, 0xFFFF_FFFF_FFFF_FFFF)
    ensures ResultAsWritten(W64, W64, 0xFFFF_FFFF_FFFF_FFFF, 2) == 0xFFFF_FFFF_FFFF_FFFE
  {
    AsWrittenReturnsLowHalf(W64, 0xFFFF_FFFF_FFFF_FFFF, 2);
    ThresholdEqualWidths(W64, 2);
  }

  /**
   * With a 32-bit result over a 64-bit state the product of two 32-bit
   * values fits in 64 bits, so `l` is the whole product rather than its
   * low 32 bits.  For upper = 2^31 + 1 the draw 2 is kept (l = 2^32 + 2 is
   * not below upper) although its low 32 bits, 2, are below the
   * threshold 2^31 - 1 that Lemire's method rejects on.  Draws 2 and 3
   * then both give 1 while only draw 1 gives 0.
   */
  lemma WholeProductAcceptsBiasedDraw()
    ensures AcceptsAsWritten(W32, W64, 0x8000_0001, 2)
    ensures !AcceptsLemire(W32, 0x8000_0001, 2)
    ensures AcceptsAsWritten(W32, W64, 0x8000_0001, 3) && ResultAsWritten(W32, W64, 3, 0x8000_0001) == 1
    ensures ResultAsWritten(W32, W64, 2, 0x8000_0001) == 1
    ensures AcceptsAsWritten(W32, W64, 0x8000_0001, 1) && ResultAsWritten(W32, W64, 1, 0x8000_0001) == 0
    ensures !AcceptsAsWritten(W32, W64, 0x8000_0001, 0)
  {
    BitShiftCases(W32, W64);
    ThresholdIsPowerMod(W32, W64, 0x8000_0001);
  }

  /**
   * The two-bound overload adds `lower` to the product before the shift:
   * with a 32-bit result over a 64-bit state, lower = 10, upper = 20 and
   * the draw 1, the value returned is 0, outside [10, 20).
   */
  lemma LowerAddedBeforeShift()
    ensures AcceptsAsWritten(W32, W64, Span(W32, 10, 20), 1)
    ensures ResultBetweenAsWritten(W32, W64, 1, 10, 20) == 0
  {
    assert Span(W32, 10, 20) == 10;
    assert Product(W64, 1, 10) == 10;
    assert BitShift(W32, W64) == 32;
  }

  /**
   * `generate_range(vec, upper, thread_id)` calls the one-bound overload:
   * it is the two-bound overload with lower = 0, whose span is upper and
   * whose `m += lower` adds nothing.
   */
  lemma ResultBetweenAsWrittenLowerZero(r: Width, s: Width, x: nat, upper: nat)
    requires upper < Base(r)
    ensures Span(r, 0, upper) == upper
    ensures ResultBetweenAsWritten(r, s, x, 0, upper) == ResultAsWritten(r, s, x, upper)
  {
    var p := Product(s, x, upper);
    assert WideWrap(s, p + 0) == p;
  }

  // ------------------------------------------------------------------
  // Lemire's method as intended
  // ------------------------------------------------------------------

  /** Keep draw x when the low R bits of x*upper reach 2^R mod upper. */
  predicate AcceptsLemire(r: Width, u: nat, x: nat)
  {
    u == 0 || Wrap(r, x * u) >= Base(r) % u
  }

  /** The high part of x*upper: `m >> RTYPE_BITS`. */
  function ResultLemire(r: Width, x: nat, u: nat): nat
  {
    High(r, x * u)
  }

  /** The value of `[lower:upper)`: lower plus the bounded draw over the span, in result_type. */
  function ResultBetween(r: Width, x: nat, lower: nat, upper: nat): nat
  {
    Wrap(r, lower + ResultLemire(r, x, Span(r, lower, upper)))
  }

  /** Every R-bit draw is mapped into [0, upper). */
  lemma ResultLemireBelowUpper(r: Width, x: nat, u: nat)
    requires x < Base(r) && 0 < u
    ensures ResultLemire(r, x, u) < u
  {
    assert x * u < Base(r) * u by {
      MulStrict(x, Base(r), u);
    }
    DivBelow(x * u, Base(r), u);
  }

  lemma MulStrict(x: nat, b: nat, u: nat)
    requires x < b && 0 < u
    ensures x * u < b * u
  {
  }

  lemma DivBelow(p: nat, b: nat, u: nat)
    requires 0 < b && p < b * u
    ensures p / b < u
  {
    assert (p / b) * b <= p;
    MulCancelLess(p / b, u, b);
  }

  lemma MulCancelLess(a: int, c: int, b: int)
    requires b > 0 && a * b < c * b
    ensures a < c
  {
  }

  /**
   * Lemire's method takes the draw to be R bits wide.  With a 64-bit
   * result over a 32-bit state every draw is below 2^32, and for every
   * upper below 2^32 the high half of x*upper is 0: the method needs the
   * result to be no wider than the state.
   */
  lemma WideResultOverNarrowDraws(x: nat, u: nat)
    requires x < Base(W32) && u < Base(W32)
    ensures ResultLemire(W64, x, u) == 0
  {
    MulBelow(x, u, Base(W32));
  }

  /** With lower < upper every value lies in [lower, upper). */
  lemma ResultBetweenInRange(r: Width, x: nat, lower: nat, upper: nat)
    requires x < Base(r) && lower < upper < Base(r)
    ensures lower <= ResultBetween(r, x, lower, upper) < upper
  {
    var b := Base(r);
    DivModUnique(upper - lower, b, 0, upper - lower);
    ResultLemireBelowUpper(r, x, upper - lower);
    var v := lower + ResultLemire(r, x, upper - lower);
    DivModUnique(v, b, 0, v);
  }

  /**
   * The draws that are kept and give the value v are exactly those with
   * x*upper in the window [v*2^R + (2^R mod upper), (v+1)*2^R).
   */
  lemma LemireWindow(r: Width, u: nat, x: nat, v: nat)
    requires 0 < u
    ensures AcceptsLemire(r, u, x) && ResultLemire(r, x, u) == v
        <==> v * Base(r) + Base(r) % u <= x * u < (v + 1) * Base(r)
  {
    var b := Base(r);
    var p := x * u;
    assert p == (p / b) * b + p % b;
    if v * b + b % u <= p < (v + 1) * b {
      DivOfWindow(p, b, v);
    }
  }

  lemma DivOfWindow(p: nat, b: nat, v: nat)
    requires 0 < b && v * b <= p < (v + 1) * b
    ensures p / b == v && p % b == p - v * b
  {
    DivModUnique(p, b, v, p - v * b);
  }

  /**
   * Every window has the same width, upper * floor(2^R / upper), so it
   * holds the same number of multiples of upper: each value in
   * [0, upper) is reached by equally many kept draws.
   */
  lemma WindowsHaveEqualWidth(r: Width, u: nat, v: nat)
    requires 0 < u
    ensures (v + 1) * Base(r) - (v * Base(r) + Base(r) % u) == u * (Base(r) / u)
  {
  }
}
