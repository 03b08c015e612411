/**
 * Bob Jenkins' small fast generator `jsf<state_type>` of
 * include/generators.hpp.  The engine keeps four words a, b, c, d and
 * three rotation amounts p, q, r.  One `advance` is
 *
 *     e = a - rotate(b, p);  a = b ^ rotate(c, q);
 *     b = c + (r ? rotate(d, r) : d);  c = d + e;  d = e + a;
 *
 * and a draw is one advance that returns the new d.  The constructor
 * starts from a = 0xf1ea5eed, seeds b = c = d with one draw of a seeding
 * splitmix64<state_type> and runs 20 warm-up advances.  64-bit engines
 * rotate by (7, 13, 37); 32-bit engines pick a row of a table of 23
 * triples from the number of engines created so far.
 *
 * The global counter `jsf_counter::objects_created` is an explicit
 * argument `created` here: its value once the new engine has counted
 * itself, so 1 for the first engine.
 */
module Jsf {
  import opened Words
  import opened Streams
  import SplitMix
  import GenSplitMix

  /** A rotation amount `rotate` accepts: it shifts by k and by W - k. */
  type Amount32 = k: bv32 | 0 < k < 32 witness 1
  type Amount64 = k: bv64 | 0 < k < 64 witness 1

  /** The third amount may also be 0, which `advance` treats as "no rotation". */
  type Amount32OrZero = k: bv32 | k < 32
  type Amount64OrZero = k: bv64 | k < 64

  /** A row of `gen_32bit_constants`. */
  datatype Params32 = Params32(p: Amount32, q: Amount32, r: Amount32OrZero)

  /** The state of a 32-bit engine: the four words and its rotation amounts. */
  datatype Jsf32 = Jsf32(a: bv32, b: bv32, c: bv32, d: bv32, p: Amount32, q: Amount32, r: Amount32OrZero)

  /** The state of a 64-bit engine. */
  datatype Jsf64 = Jsf64(a: bv64, b: bv64, c: bv64, d: bv64, p: Amount64, q: Amount64, r: Amount64OrZero)

  /** The value `a_` starts from. */
  const InitialA32: bv32 := 0xf1ea_5eed
  const InitialA64: bv64 := 0xf1ea_5eed

  /** Number of advances `seed` runs. */
  const WarmUp: nat := 20

  // ----------------------------------------------------------------
  // The 32-bit parameter table and the choice of a row
  // ----------------------------------------------------------------

  /** `gen_32bit_constants[i]`. */
  function Table32(i: nat): Params32
    requires i < 23
  {
    [ Params32(3, 14, 24), Params32(3, 25, 15), Params32(4, 15, 24), Params32(6, 16, 28),
      Params32(7, 16, 27), Params32(8, 14, 3), Params32(11, 16, 23), Params32(12, 16, 22),
      Params32(12, 17, 23), Params32(13, 16, 22), Params32(15, 25, 3), Params32(16, 9, 3),
      Params32(17, 9, 3), Params32(17, 27, 7), Params32(19, 7, 3), Params32(23, 15, 11),
      Params32(23, 16, 11), Params32(23, 17, 11), Params32(24, 3, 16), Params32(24, 4, 16),
      Params32(25, 14, 3), Params32(27, 16, 6), Params32(27, 16, 7) ][i]
  }

  /**
   * The row the constructor reads, as written: an instance count above 22
   * rolls over to 0, and a count above 0 is reduced by one.
   */
  function ParamIndexAsWritten(created: nat): (i: nat)
    ensures i < 22
    ensures 1 <= created <= 22 ==> i == created - 1
    ensures created == 0 || created > 22 ==> i == 0
  {
    var constants := if created > 22 then 0 else created;
    if constants > 0 then constants - 1 else constants
  }

  /**
   * Finding: the table has 23 rows but the row index never reaches 22,
   * and the 23rd engine reuses row 0 instead of taking the last row.
   */
  lemma ParamIndexAsWrittenSkipsLastRow()
    ensures forall created: nat :: ParamIndexAsWritten(created) != 22
    ensures ParamIndexAsWritten(23) == 0 && ParamIndex(23) == 22
  {
  }

  /**
   * The row "rolling over" evidently intends: engine n (counting from 1)
   * takes row (n - 1) mod 23, so the rows are used in turn.
   */
  function ParamIndex(created: nat): (i: nat)
    ensures i < 23
  {
    if created == 0 then 0 else (created - 1) % 23
  }

  /** Every row is taken, by the engines numbered i + 1, i + 24, i + 47, ... */
  lemma ParamIndexCycles(i: nat, n: nat)
    requires i < 23
    ensures ParamIndex(i + 1 + 23 * n) == i
  {
  }

  /** Rows agree with the table up to engine 22; they part at engine 23. */
  lemma ParamIndexAgreesBelow23(created: nat)
    ensures ParamIndexAsWritten(created) == ParamIndex(created) <==> created <= 22 || created % 23 == 1
  {
  }

  /** Rotation amounts of the engine numbered `created`. */
  function Params32For(created: nat): Params32
  {
    Table32(ParamIndex(created))
  }

  // ----------------------------------------------------------------
  // One advance and its inverse, 32-bit words
  // ----------------------------------------------------------------

  /** `r ? rotate(d, r) : d`. */
  function RotateOrKeep32(x: bv32, r: Amount32OrZero): bv32
  {
    if r != 0 then Rotl32(x, r) else x
  }

  /** `advance()`: five word assignments in order, each using the words already updated. */
  function Advance32(s: Jsf32): Jsf32
  {
    var e := Sub32(s.a, Rotl32(s.b, s.p));
    var a := X32(s.b, Rotl32(s.c, s.q));
    var b := Add32(s.c, RotateOrKeep32(s.d, s.r));
    var c := Add32(s.d, e);
    var d := Add32(e, a);
    Jsf32(a, b, c, d, s.p, s.q, s.r)
  }

  /** The advance undone, word by word in reverse order. */
  function Unadvance32(s: Jsf32): Jsf32
  {
    var e := Sub32(s.d, s.a);
    var d := Sub32(s.c, e);
    var c := Sub32(s.b, RotateOrKeep32(d, s.r));
    var b := X32(s.a, Rotl32(c, s.q));
    var a := Add32(e, Rotl32(b, s.p));
    Jsf32(a, b, c, d, s.p, s.q, s.r)
  }

  /** Undoing an advance gives back the state before it. */
  lemma Unadvance32Advance32(s: Jsf32)
    ensures Unadvance32(Advance32(s)) == s
  {
    var e := Sub32(s.a, Rotl32(s.b, s.p));
    var a := X32(s.b, Rotl32(s.c, s.q));
    SubAfterAdd32(e, a);
    SubAfterAdd32(s.d, e);
    SubAfterAdd32(s.c, RotateOrKeep32(s.d, s.r));
    XorTwice32(s.b, Rotl32(s.c, s.q));
    AddAfterSub32(s.a, Rotl32(s.b, s.p));
  }

  /** Advancing an undone state gives back the state. */
  lemma Advance32Unadvance32(s: Jsf32)
    ensures Advance32(Unadvance32(s)) == s
  {
    var e := Sub32(s.d, s.a);
    var d := Sub32(s.c, e);
    var c := Sub32(s.b, RotateOrKeep32(d, s.r));
    var b := X32(s.a, Rotl32(c, s.q));
    SubAfterAdd32(e, Rotl32(b, s.p));
    XorTwice32(s.a, Rotl32(c, s.q));
    assert X32(b, Rotl32(c, s.q)) == s.a;
    AddAfterSub32(s.b, RotateOrKeep32(d, s.r));
    AddAfterSub32(s.c, e);
    AddAfterSub32(s.d, s.a);
  }

  /** So an advance loses nothing: distinct states stay distinct. */
  lemma Advance32Injective(s: Jsf32, t: Jsf32)
    ensures Advance32(s) == Advance32(t) <==> s == t
  {
    Unadvance32Advance32(s);
    Unadvance32Advance32(t);
  }

  /** The state after n advances. */
  function Advanced32(s: Jsf32, n: nat): Jsf32
  {
    if n == 0 then s else Advance32(Advanced32(s, n - 1))
  }

  /** Any number of advances keeps distinct states distinct. */
  lemma {:induction false} Advanced32Injective(s: Jsf32, t: Jsf32, n: nat)
    ensures Advanced32(s, n) == Advanced32(t, n) <==> s == t
  {
    if n > 0 {
      Advanced32Injective(s, t, n - 1);
      Advance32Injective(Advanced32(s, n - 1), Advanced32(t, n - 1));
    }
  }

  /** Advancing never changes the rotation amounts. */
  lemma {:induction false} Advanced32KeepsAmounts(s: Jsf32, n: nat)
    ensures Advanced32(s, n).p == s.p && Advanced32(s, n).q == s.q && Advanced32(s, n).r == s.r
  {
    if n > 0 {
      Advanced32KeepsAmounts(s, n - 1);
    }
  }

  /** Advancing m times and then n times is advancing m + n times. */
  lemma {:induction false} Advanced32Add(s: Jsf32, m: nat, n: nat)
    ensures Advanced32(Advanced32(s, m), n) == Advanced32(s, m + n)
  {
    if n > 0 {
      Advanced32Add(s, m, n - 1);
    }
  }

  /** `seed(seed)`: b, c and d become the seed word; a and the amounts stay. */
  function Reseeded32(s: Jsf32, seed: bv32): Jsf32
  {
    s.(b := seed, c := seed, d := seed)
  }

  /**
   * The warm-up loses nothing either: from the same a and amounts,
   * different seed words still give different engines after 20 advances.
   */
  lemma WarmUp32Injective(s: Jsf32, seed1: bv32, seed2: bv32)
    ensures Advanced32(Reseeded32(s, seed1), WarmUp) == Advanced32(Reseeded32(s, seed2), WarmUp)
        <==> seed1 == seed2
  {
    Advanced32Injective(Reseeded32(s, seed1), Reseeded32(s, seed2), WarmUp);
  }

  /** The seed word of a 32-bit engine: one draw of a splitmix64<uint32_t> on the entropy words. */
  function SeedWord32(w0: bv32, w1: bv32): bv32
  {
    GenSplitMix.Output32(Join32(w0, w1))
  }

  /**
   * The engine the constructor evidently intends for engine number
   * `created`: a = 0xf1ea5eed, the amounts of its table row, b = c = d =
   * the seed word, then the warm-up.
   */
  function Constructed32(created: nat, w0: bv32, w1: bv32): Jsf32
  {
    var k := Params32For(created);
    var seed := SeedWord32(w0, w1);
    Advanced32(Jsf32(InitialA32, seed, seed, seed, k.p, k.q, k.r), WarmUp)
  }

  /**
   * The engine the constructor builds as written: `seed` runs its warm-up
   * while p, q and r have not been assigned yet, so with whatever amounts
   * p0, q0, r0 the fields happen to hold; the row chosen by
   * ParamIndexAsWritten is stored only afterwards.
   */
  function ConstructedAsWritten32(created: nat, w0: bv32, w1: bv32, p0: Amount32, q0: Amount32, r0: Amount32OrZero): Jsf32
  {
    var k := Table32(ParamIndexAsWritten(created));
    var seed := SeedWord32(w0, w1);
    var w := Advanced32(Jsf32(InitialA32, seed, seed, seed, p0, q0, r0), WarmUp);
    Jsf32(w.a, w.b, w.c, w.d, k.p, k.q, k.r)
  }

  /**
   * Storing the amounts before the warm-up is all the correction changes:
   * an engine whose unassigned fields happened to hold its own row is
   * built exactly as intended.
   */
  lemma AsWrittenAgreesWhenAmountsMatch32(created: nat, w0: bv32, w1: bv32)
    requires 1 <= created <= 22
    ensures var k := Params32For(created);
      ConstructedAsWritten32(created, w0, w1, k.p, k.q, k.r) == Constructed32(created, w0, w1)
  {
    assert ParamIndexAsWritten(created) == ParamIndex(created);
    var k := Params32For(created);
    var seed := SeedWord32(w0, w1);
    Advanced32KeepsAmounts(Jsf32(InitialA32, seed, seed, seed, k.p, k.q, k.r), WarmUp);
  }

  // ----------------------------------------------------------------
  // A worked input for the warm-up finding
  // ----------------------------------------------------------------

  /** The seed word drawn for the entropy words (0, 0). */
  lemma SeedWord32Zero()
    ensures SeedWord32(0, 0) == 0x60b1_19bf
  {
  }

  /** Advances 1 to 10 of the warm-up from seed word 0x60b119bf with the amounts of row 0. */
  lemma IntendedWarmUpFirstHalf()
    ensures Advanced32(Jsf32(0xf1ea_5eed, 0x60b1_19bf, 0x60b1_19bf, 0x60b1_19bf, 3, 14, 24), 10)
         == Jsf32(0x6474_9003, 0x00d5_82d3, 0x2f54_2a32, 0x1a8c_4d90, 3, 14, 24)
  {
    var s := Jsf32(0xf1ea_5eed, 0x60b1_19bf, 0x60b1_19bf, 0x60b1_19bf, 3, 14, 24);
    assert Advanced32(s, 1) == Jsf32(0x26de_c193, 0x2011_cad8, 0x4d12_aab1, 0x1340_5285, 3, 14, 24);
    assert Advanced32(s, 2) == Jsf32(0x8abd_999c, 0xd225_eb03, 0x3990_bd57, 0xb10e_046e, 3, 14, 24);
    assert Advanced32(s, 3) == Jsf32(0xfd70_2567, 0xa841_cb5b, 0xaa9c_45ec, 0xf6fe_66e5, 3, 14, 24);
    assert Advanced32(s, 4) == Jsf32(0xb93a_e1fc, 0x9093_4452, 0xb260_316f, 0x749c_ac86, 3, 14, 24);
    assert Advanced32(s, 5) == Jsf32(0x9cc8_a8ca, 0x38d4_ce1b, 0xa93d_6bee, 0xd169_6832, 3, 14, 24);
    assert Advanced32(s, 6) == Jsf32(0x622f_6454, 0xdc0e_d556, 0xa78b_a023, 0x3851_9c45, 3, 14, 24);
    assert Advanced32(s, 7) == Jsf32(0x3406_3cb4, 0xecc3_f1bf, 0xba0a_55e3, 0xb5be_f652, 3, 14, 24);
    assert Advanced32(s, 8) == Jsf32(0x79bb_1f3d, 0x0cc0_14d9, 0x83a5_a507, 0x47a1_cdf2, 3, 14, 24);
    assert Advanced32(s, 9) == Jsf32(0x6581_f430, 0x75ed_46d4, 0x5b5c_4667, 0x793c_6ca5, 3, 14, 24);
  }

  /** Advances 11 to 20 of the same warm-up. */
  lemma IntendedWarmUpSecondHalf()
    ensures Advanced32(Jsf32(0x6474_9003, 0x00d5_82d3, 0x2f54_2a32, 0x1a8c_4d90, 3, 14, 24), 10)
         == Jsf32(0xe157_7b0c, 0x105f_613f, 0x647c_a2b4, 0xfa9c_b2e7, 3, 14, 24)
  {
    var s := Jsf32(0x6474_9003, 0x00d5_82d3, 0x2f54_2a32, 0x1a8c_4d90, 3, 14, 24);
    assert Advanced32(s, 1) == Jsf32(0x0a59_0906, 0xbf6e_b67f, 0x7854_c6fb, 0x6821_8271, 3, 14, 24);
    assert Advanced32(s, 2) == Jsf32(0x8ed0_686a, 0xe9bc_e87d, 0x7704_d77a, 0x9db3_bd73, 3, 14, 24);
    assert Advanced32(s, 3) == Jsf32(0xdc62_75bc, 0xeaa2_8b37, 0xde9c_e1ee, 0x1d4b_9a37, 3, 14, 24);
    assert Advanced32(s, 4) == Jsf32(0xd2d9_3c90, 0x15ba_2d88, 0xa499_b634, 0x5a27_588d, 3, 14, 24);
    assert Advanced32(s, 5) == Jsf32(0x7837_04ae, 0x31f3_dd8c, 0x7f2f_28dd, 0x9d3e_d4fe, 3, 14, 24);
    assert Advanced32(s, 6) == Jsf32(0xfbc4_8247, 0x7dcc_67b1, 0x85d6_ed4b, 0xe45c_9a94, 3, 14, 24);
    assert Advanced32(s, 7) == Jsf32(0xc69e_86c4, 0x1abb_49e5, 0xf1bd_df50, 0xd3ff_cb80, 3, 14, 24);
    assert Advanced32(s, 8) == Jsf32(0x6d6f_758a, 0x7291_df1b, 0xc4c4_031c, 0x5e33_ad26, 3, 14, 24);
    assert Advanced32(s, 9) == Jsf32(0x7256_ee2a, 0xeb22_36c9, 0x3714_29d5, 0x4b37_6ad9, 3, 14, 24);
  }

  /** The whole warm-up from seed word 0x60b119bf with the amounts of row 0. */
  lemma IntendedWarmUp()
    ensures Advanced32(Jsf32(0xf1ea_5eed, 0x60b1_19bf, 0x60b1_19bf, 0x60b1_19bf, 3, 14, 24), WarmUp)
         == Jsf32(0xe157_7b0c, 0x105f_613f, 0x647c_a2b4, 0xfa9c_b2e7, 3, 14, 24)
  {
    Advanced32Add(Jsf32(0xf1ea_5eed, 0x60b1_19bf, 0x60b1_19bf, 0x60b1_19bf, 3, 14, 24), 10, 10);
    IntendedWarmUpFirstHalf();
    IntendedWarmUpSecondHalf();
  }

  /** Advances 1 to 10 of the warm-up from seed word 0x60b119bf with the amounts (1, 1, 0). */
  lemma UnsetWarmUpFirstHalf()
    ensures Advanced32(Jsf32(0xf1ea_5eed, 0x60b1_19bf, 0x60b1_19bf, 0x60b1_19bf, 1, 1, 0), 10)
         == Jsf32(0x275d_c788, 0x1a62_48ee, 0x2100_c782, 0x6079_b8ff, 1, 1, 0)
  {
    var s := Jsf32(0xf1ea_5eed, 0x60b1_19bf, 0x60b1_19bf, 0x60b1_19bf, 1, 1, 0);
    assert Advanced32(s, 1) == Jsf32(0xa1d3_2ac1, 0xc162_337e, 0x9139_452e, 0xd25b_5630, 1, 1, 0);
    assert Advanced32(s, 2) == Jsf32(0xe310_b923, 0x6394_9b5e, 0xf16a_19f4, 0x021f_7ce7, 1, 1, 0);
    assert Advanced32(s, 3) == Jsf32(0x8140_a8b7, 0xf389_96db, 0x1e06_ff4e, 0x9d28_2b1e, 1, 1, 0);
    assert Advanced32(s, 4) == Jsf32(0xcf84_6847, 0xbb2f_2a6c, 0x3755_a61e, 0x69b1_e347, 1, 1, 0);
    assert Advanced32(s, 5) == Jsf32(0xd584_6650, 0xa107_8965, 0xc2d7_f6b5, 0x2eaa_79be, 1, 1, 0);
    assert Advanced32(s, 6) == Jsf32(0x24a8_640e, 0xf182_7073, 0xc21f_cd43, 0xb81d_b793, 1, 1, 0);
    assert Advanced32(s, 7) == Jsf32(0x75bd_eaf4, 0x7a3d_84d6, 0xf9c1_3aba, 0xb761_6e1b, 1, 1, 0);
    assert Advanced32(s, 8) == Jsf32(0x89bf_f1a3, 0xb122_a8d5, 0x38a4_4f63, 0x0b02_d2eb, 1, 1, 0);
    assert Advanced32(s, 9) == Jsf32(0xc06a_3613, 0x43a7_224e, 0x327d_72e3, 0xe7e4_d60b, 1, 1, 0);
  }

  /** Advances 11 to 20 of the same warm-up. */
  lemma UnsetWarmUpSecondHalf()
    ensures Advanced32(Jsf32(0x275d_c788, 0x1a62_48ee, 0x2100_c782, 0x6079_b8ff, 1, 1, 0), 10)
         == Jsf32(0x28d9_2bca, 0x599a_9d36, 0xf9e4_3368, 0x70f3_a821, 1, 1, 0)
  {
    var s := Jsf32(0x275d_c788, 0x1a62_48ee, 0x2100_c782, 0x6079_b8ff, 1, 1, 0);
    assert Advanced32(s, 1) == Jsf32(0x5863_c7ea, 0x817a_8081, 0x5312_eeab, 0x4afc_fd96, 1, 1, 0);
    assert Advanced32(s, 2) == Jsf32(0x275f_5dd7, 0x9e0f_ec41, 0xa06b_c47d, 0x7cce_24be, 1, 1, 0);
    assert Advanced32(s, 3) == Jsf32(0xded8_64ba, 0x1d39_e93b, 0x680d_aa12, 0xca17_ea0e, 1, 1, 0);
    assert Advanced32(s, 4) == Jsf32(0xcd22_bd1f, 0x3225_9420, 0x6e7c_7c52, 0x7187_4f63, 1, 1, 0);
    assert Advanced32(s, 5) == Jsf32(0xeedd_6c84, 0xe003_cbb5, 0xda5e_e442, 0x57b5_0163, 1, 1, 0);
    assert Advanced32(s, 6) == Jsf32(0x54be_0330, 0x3213_e5a5, 0x868a_d67c, 0x8393_d849, 1, 1, 0);
    assert Advanced32(s, 7) == Jsf32(0x3f06_495c, 0x0a1e_aec5, 0x742a_102f, 0x2f9c_8142, 1, 1, 0);
    assert Advanced32(s, 8) == Jsf32(0xe24a_8e9b, 0xa3c6_9171, 0x5a65_6d14, 0x0d13_7a6d, 1, 1, 0);
    assert Advanced32(s, 9) == Jsf32(0x170c_4b59, 0x6778_e781, 0xa7d0_e625, 0xb1c9_b711, 1, 1, 0);
  }

  /** The whole warm-up from seed word 0x60b119bf with the amounts (1, 1, 0). */
  lemma UnsetWarmUp()
    ensures Advanced32(Jsf32(0xf1ea_5eed, 0x60b1_19bf, 0x60b1_19bf, 0x60b1_19bf, 1, 1, 0), WarmUp)
         == Jsf32(0x28d9_2bca, 0x599a_9d36, 0xf9e4_3368, 0x70f3_a821, 1, 1, 0)
  {
    Advanced32Add(Jsf32(0xf1ea_5eed, 0x60b1_19bf, 0x60b1_19bf, 0x60b1_19bf, 1, 1, 0), 10, 10);
    UnsetWarmUpFirstHalf();
    UnsetWarmUpSecondHalf();
  }

  /** Word a of the first engine built as intended from the entropy words (0, 0). */
  lemma IntendedFirstEngine()
    ensures Constructed32(1, 0, 0).a == 0xe157_7b0c
  {
    SeedWord32Zero();
    assert Params32For(1) == Params32(3, 14, 24);
    var seed := SeedWord32(0, 0);
    assert Jsf32(InitialA32, seed, seed, seed, 3, 14, 24) == Jsf32(0xf1ea_5eed, 0x60b1_19bf, 0x60b1_19bf, 0x60b1_19bf, 3, 14, 24);
    IntendedWarmUp();
  }

  /** Word a of the same engine built as written, when p, q and r held (1, 1, 0) during `seed`. */
  lemma AsWrittenFirstEngine()
    ensures ConstructedAsWritten32(1, 0, 0, 1, 1, 0).a == 0x28d9_2bca
  {
    SeedWord32Zero();
    assert ParamIndexAsWritten(1) == 0;
    var seed := SeedWord32(0, 0);
    assert Jsf32(InitialA32, seed, seed, seed, 1, 1, 0) == Jsf32(0xf1ea_5eed, 0x60b1_19bf, 0x60b1_19bf, 0x60b1_19bf, 1, 1, 0);
    UnsetWarmUp();
  }

  /**
   * Finding: the first 32-bit engine seeded from the entropy words (0, 0)
   * ends its warm-up with other words when p, q and r still hold (1, 1, 0)
   * while `seed` runs than with its own row (3, 14, 24), so the engine
   * built as written depends on fields nothing has assigned.
   */
  lemma WarmUpUsesUnsetAmounts()
    ensures ConstructedAsWritten32(1, 0, 0, 1, 1, 0) != Constructed32(1, 0, 0)
  {
    IntendedFirstEngine();
    AsWrittenFirstEngine();
  }

  /** `jsf<uint32_t>`. */
  class JsfU32 {
    const threadNo: nat
    var a: bv32
    var b: bv32
    var c: bv32
    var d: bv32
    var p: Amount32
    var q: Amount32
    var r: Amount32OrZero

    function State(): Jsf32
      reads this
    {
      Jsf32(a, b, c, d, p, q, r)
    }

    /**
     * The constructor with the amounts of the engine's row stored before
     * `seed` runs the warm-up that uses them.
     */
    constructor (threadId: nat, created: nat, w0: bv32, w1: bv32)
      ensures threadNo == threadId
      ensures State() == Constructed32(created, w0, w1)
    {
      threadNo := threadId;
      a := InitialA32;
      var k := Params32For(created);
      p, q, r := k.p, k.q, k.r;
      new;
      SeedFrom(w0, w1);
    }

    /**
     * The constructor as written: `seed(seed_gen())` first, with p, q and
     * r still holding p0, q0 and r0, then the row of the table.
     */
    constructor AsWritten(threadId: nat, created: nat, w0: bv32, w1: bv32, p0: Amount32, q0: Amount32, r0: Amount32OrZero)
      ensures threadNo == threadId
      ensures State() == ConstructedAsWritten32(created, w0, w1, p0, q0, r0)
    {
      threadNo := threadId;
      a := InitialA32;
      p, q, r := p0, q0, r0;
      new;
      SeedFrom(w0, w1);
      ghost var w := State();
      var k := Table32(ParamIndexAsWritten(created));
      p, q, r := k.p, k.q, k.r;
      assert State() == w.(p := k.p, q := k.q, r := k.r);
    }

    /** `seed(seed_gen())` on a fresh seed generator over the entropy words. */
    method SeedFrom(w0: bv32, w1: bv32)
      modifies this
      ensures State() == Advanced32(Reseeded32(old(State()), SeedWord32(w0, w1)), WarmUp)
    {
      var seedGen := new GenSplitMix.SplitMixU32(w0, w1);
      var seedWord := seedGen.Call();
      Seed(seedWord);
    }

    /** `seed(seed)`: set b, c, d and run the 20 warm-up advances. */
    method Seed(seed: bv32)
      modifies this
      ensures State() == Advanced32(Reseeded32(old(State()), seed), WarmUp)
    {
      b := seed;
      c := seed;
      d := seed;
      ghost var start := State();
      assert start == Reseeded32(old(State()), seed);
      var i := 0;
      while i < 20
        invariant 0 <= i <= 20
        invariant State() == Advanced32(start, i)
      {
        Advance();
        i := i + 1;
      }
    }

    /** `advance()`. */
    method Advance()
      modifies this
      ensures State() == Advance32(old(State()))
    {
      var e := Sub32(a, Rotl32(b, p));
      a := X32(b, Rotl32(c, q));
      b := Add32(c, RotateOrKeep32(d, r));
      c := Add32(d, e);
      d := Add32(e, a);
    }

    /** `get_rand()`: one advance, returning the new d. */
    method GetRand() returns (x: bv32)
      modifies this
      ensures State() == Advance32(old(State()))
      ensures x == State().d
    {
      Advance();
      x := d;
    }

    /** `operator()`: the same draw as GetRand. */
    method Call() returns (x: bv32)
      modifies this
      ensures State() == Advance32(old(State()))
      ensures x == State().d
    {
      x := GetRand();
    }
  }

  // ----------------------------------------------------------------
  // 64-bit engines
  // ----------------------------------------------------------------

  /** `gen_64bit_constants`: the one row every 64-bit engine uses. */
  const Params64: (Amount64, Amount64, Amount64OrZero) := (7, 13, 37)

  /** `r ? rotate(d, r) : d` on 64-bit words. */
  function RotateOrKeep64(x: bv64, r: Amount64OrZero): bv64
  {
    if r != 0 then Rotl64(x, r) else x
  }

  /** `advance()` on 64-bit words. */
  function Advance64(s: Jsf64): Jsf64
  {
    var e := Sub64(s.a, Rotl64(s.b, s.p));
    var a := X64(s.b, Rotl64(s.c, s.q));
    var b := Add64(s.c, RotateOrKeep64(s.d, s.r));
    var c := Add64(s.d, e);
    var d := Add64(e, a);
    Jsf64(a, b, c, d, s.p, s.q, s.r)
  }

  /** The 64-bit advance undone. */
  function Unadvance64(s: Jsf64): Jsf64
  {
    var e := Sub64(s.d, s.a);
    var d := Sub64(s.c, e);
    var c := Sub64(s.b, RotateOrKeep64(d, s.r));
    var b := X64(s.a, Rotl64(c, s.q));
    var a := Add64(e, Rotl64(b, s.p));
    Jsf64(a, b, c, d, s.p, s.q, s.r)
  }

  /** Undoing a 64-bit advance gives back the state before it. */
  lemma Unadvance64Advance64(s: Jsf64)
    ensures Unadvance64(Advance64(s)) == s
  {
    var e := Sub64(s.a, Rotl64(s.b, s.p));
    var a := X64(s.b, Rotl64(s.c, s.q));
    SubAfterAdd64(e, a);
    SubAfterAdd64(s.d, e);
    SubAfterAdd64(s.c, RotateOrKeep64(s.d, s.r));
    XorTwice64(s.b, Rotl64(s.c, s.q));
    AddAfterSub64(s.a, Rotl64(s.b, s.p));
  }

  /** Advancing an undone 64-bit state gives back the state. */
  lemma Advance64Unadvance64(s: Jsf64)
    ensures Advance64(Unadvance64(s)) == s
  {
    var e := Sub64(s.d, s.a);
    var d := Sub64(s.c, e);
    var c := Sub64(s.b, RotateOrKeep64(d, s.r));
    var b := X64(s.a, Rotl64(c, s.q));
    SubAfterAdd64(e, Rotl64(b, s.p));
    XorTwice64(s.a, Rotl64(c, s.q));
    assert X64(b, Rotl64(c, s.q)) == s.a;
    AddAfterSub64(s.b, RotateOrKeep64(d, s.r));
    AddAfterSub64(s.c, e);
    AddAfterSub64(s.d, s.a);
  }

  /** A 64-bit advance keeps distinct states distinct. */
  lemma Advance64Injective(s: Jsf64, t: Jsf64)
    ensures Advance64(s) == Advance64(t) <==> s == t
  {
    Unadvance64Advance64(s);
    Unadvance64Advance64(t);
  }

  /** The 64-bit state after n advances. */
  function Advanced64(s: Jsf64, n: nat): Jsf64
  {
    if n == 0 then s else Advance64(Advanced64(s, n - 1))
  }

  /** Any number of 64-bit advances keeps distinct states distinct. */
  lemma {:induction false} Advanced64Injective(s: Jsf64, t: Jsf64, n: nat)
    ensures Advanced64(s, n) == Advanced64(t, n) <==> s == t
  {
    if n > 0 {
      Advanced64Injective(s, t, n - 1);
      Advance64Injective(Advanced64(s, n - 1), Advanced64(t, n - 1));
    }
  }

  /** Advancing never changes the rotation amounts of a 64-bit engine. */
  lemma {:induction false} Advanced64KeepsAmounts(s: Jsf64, n: nat)
    ensures Advanced64(s, n).p == s.p && Advanced64(s, n).q == s.q && Advanced64(s, n).r == s.r
  {
    if n > 0 {
      Advanced64KeepsAmounts(s, n - 1);
    }
  }

  /** `seed(seed)` on a 64-bit state. */
  function Reseeded64(s: Jsf64, seed: bv64): Jsf64
  {
    s.(b := seed, c := seed, d := seed)
  }

  /** Different seed words give different 64-bit engines after the warm-up. */
  lemma WarmUp64Injective(s: Jsf64, seed1: bv64, seed2: bv64)
    ensures Advanced64(Reseeded64(s, seed1), WarmUp) == Advanced64(Reseeded64(s, seed2), WarmUp)
        <==> seed1 == seed2
  {
    Advanced64Injective(Reseeded64(s, seed1), Reseeded64(s, seed2), WarmUp);
  }

  /** The seed word of a 64-bit engine: one draw of a splitmix64<uint64_t>. */
  function SeedWord64(w0: bv64, w1: bv64): bv64
  {
    SplitMix.Output(GenSplitMix.SeedOf64(w0, w1))
  }

  /** The 64-bit engine the constructor evidently intends: the warm-up already with (7, 13, 37). */
  function Constructed64(w0: bv64, w1: bv64): Jsf64
  {
    var seed := SeedWord64(w0, w1);
    Advanced64(Jsf64(InitialA64, seed, seed, seed, Params64.0, Params64.1, Params64.2), WarmUp)
  }

  /** The 64-bit engine as written: warm-up with the amounts p0, q0, r0, then (7, 13, 37) stored. */
  function ConstructedAsWritten64(w0: bv64, w1: bv64, p0: Amount64, q0: Amount64, r0: Amount64OrZero): Jsf64
  {
    var seed := SeedWord64(w0, w1);
    var w := Advanced64(Jsf64(InitialA64, seed, seed, seed, p0, q0, r0), WarmUp);
    w.(p := Params64.0, q := Params64.1, r := Params64.2)
  }

  /** A 64-bit engine whose unassigned fields happened to hold (7, 13, 37) is built as intended. */
  lemma AsWrittenAgreesWhenAmountsMatch64(w0: bv64, w1: bv64)
    ensures ConstructedAsWritten64(w0, w1, Params64.0, Params64.1, Params64.2) == Constructed64(w0, w1)
  {
    var seed := SeedWord64(w0, w1);
    Advanced64KeepsAmounts(Jsf64(InitialA64, seed, seed, seed, Params64.0, Params64.1, Params64.2), WarmUp);
  }

  /** `jsf<uint64_t>`. */
  class JsfU64 {
    const threadNo: nat
    var a: bv64
    var b: bv64
    var c: bv64
    var d: bv64
    var p: Amount64
    var q: Amount64
    var r: Amount64OrZero

    function State(): Jsf64
      reads this
    {
      Jsf64(a, b, c, d, p, q, r)
    }

    /** The constructor with (7, 13, 37) stored before the warm-up. */
    constructor (threadId: nat, w0: bv64, w1: bv64)
      ensures threadNo == threadId
      ensures State() == Constructed64(w0, w1)
    {
      threadNo := threadId;
      a := InitialA64;
      p, q, r := Params64.0, Params64.1, Params64.2;
      new;
      SeedFrom(w0, w1);
    }

    /** The constructor as written: the warm-up runs with p0, q0, r0, then (7, 13, 37) is stored. */
    constructor AsWritten(threadId: nat, w0: bv64, w1: bv64, p0: Amount64, q0: Amount64, r0: Amount64OrZero)
      ensures threadNo == threadId
      ensures State() == ConstructedAsWritten64(w0, w1, p0, q0, r0)
    {
      threadNo := threadId;
      a := InitialA64;
      p, q, r := p0, q0, r0;
      new;
      SeedFrom(w0, w1);
      ghost var w := State();
      p, q, r := Params64.0, Params64.1, Params64.2;
      assert State() == w.(p := Params64.0, q := Params64.1, r := Params64.2);
    }

    /** `seed(seed_gen())` on a fresh seed generator over the entropy words. */
    method SeedFrom(w0: bv64, w1: bv64)
      modifies this
      ensures State() == Advanced64(Reseeded64(old(State()), SeedWord64(w0, w1)), WarmUp)
    {
      var seedGen := new GenSplitMix.SplitMixU64(w0, w1);
      var seedWord := seedGen.Call();
      Seed(seedWord);
    }

    /** `seed(seed)`: set b, c, d and run the 20 warm-up advances. */
    method Seed(seed: bv64)
      modifies this
      ensures State() == Advanced64(Reseeded64(old(State()), seed), WarmUp)
    {
      b := seed;
      c := seed;
      d := seed;
      ghost var start := State();
      assert start == Reseeded64(old(State()), seed);
      var i := 0;
      while i < 20
        invariant 0 <= i <= 20
        invariant State() == Advanced64(start, i)
      {
        Advance();
        i := i + 1;
      }
    }

    /** `advance()`. */
    method Advance()
      modifies this
      ensures State() == Advance64(old(State()))
    {
      var e := Sub64(a, Rotl64(b, p));
      a := X64(b, Rotl64(c, q));
      b := Add64(c, RotateOrKeep64(d, r));
      c := Add64(d, e);
      d := Add64(e, a);
    }

    /** `get_rand()`: one advance, returning the new d. */
    method GetRand() returns (x: bv64)
      modifies this
      ensures State() == Advance64(old(State()))
      ensures x == State().d
    {
      Advance();
      x := d;
    }

    /** `operator()`: the same draw as GetRand. */
    method Call() returns (x: bv64)
      modifies this
      ensures State() == Advance64(old(State()))
      ensures x == State().d
    {
      x := GetRand();
    }
  }
}
