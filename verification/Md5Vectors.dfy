/** The digests of appendix A.5 of RFC 1321 for the empty message and for "abc", step by step. */
module Md5Vectors {
  import opened Common
  import opened Md5
  import opened Md5Body
  import opened Md5Stream

  /** The word at `k` of a block with a message of less than four bytes. */
  function Entry(k: nat, first: bv32, length: bv32): bv32 {
    if k == 0 then first else if k == 14 then length else 0
  }

  ghost predicate Holds(p: seq<byte>, first: bv32, length: bv32) {
    |p| == 64 && forall k | 0 <= k < 16 :: Word(p, k) == Entry(k, first, length)
  }

  /** What the steps from the i-th of a round on make of the registers. */
  type Steps = (Regs, nat, nat) -> Regs

  predicate TakesStep(g: Steps, first: bv32, length: bv32, round: nat, i: nat, r: Regs) {
    round < 4 && i < 16 ==>
      g(r, round, i) == g(Step(r, round, i, Entry(Index(round, i), first, length)), round, i + 1)
  }

  ghost predicate TakesSteps(g: Steps, first: bv32, length: bv32) {
    forall round, i, r :: TakesStep(g, first, length, round, i, r)
  }

  predicate NextRound(g: Steps, round: nat, r: Regs) {
    round < 4 ==> g(r, round, 16) == if round == 3 then r else g(r, round + 1, 0)
  }

  /** One step, with all that goes into it. */
  lemma Turn(g: Steps, first: bv32, length: bv32, round: nat, i: nat, i1: nat, r: Regs, j: nat, word: bv32, m: bv32,
             k: bv32, s: nat, x: Regs)
    requires TakesSteps(g, first, length) && round < 4 && i < 16 && i1 == i + 1
    requires Index(round, i) == j && Entry(j, first, length) == word && Mix(round, r.b, r.c, r.d) == m
    requires Constant(round, i) == k && Shift(round, i) == s && Turned(r, m, word, k, s) == x
    ensures g(r, round, i) == g(x, round, i1)
  {
    assert TakesStep(g, first, length, round, i, r);
  }

  lemma BlockStep(p: seq<byte>, first: bv32, length: bv32, round: nat, i: nat, n: nat, n1: nat, r: Regs)
    requires Holds(p, first, length) && round < 4 && i < 16 && n == 16 * round + i && n1 == n + 1
    ensures n1 <= 64
    ensures Md5Body.Steps(r, p, n) == Md5Body.Steps(Step(r, round, i, Entry(Index(round, i), first, length)), p, n1)
  {
    assert n / 16 == round && n % 16 == i;
    assert Word(p, Index(round, i)) == Entry(Index(round, i), first, length);
  }

  /** The steps on a block from one of a round on. */
  function Onward(p: seq<byte>, r: Regs, round: nat, i: nat): Regs
    requires |p| == 64
  {
    if 16 * round + i <= 64 then Md5Body.Steps(r, p, 16 * round + i) else r
  }

  lemma OnwardStep(p: seq<byte>, first: bv32, length: bv32, round: nat, i: nat, r: Regs)
    requires Holds(p, first, length) && round < 4 && i < 16
    ensures Onward(p, r, round, i) == Onward(p, Step(r, round, i, Entry(Index(round, i), first, length)), round, i + 1)
  {
    var x := Step(r, round, i, Entry(Index(round, i), first, length));
    BlockStep(p, first, length, round, i, 16 * round + i, 16 * round + (i + 1), r);
  }

  lemma OnwardRound(p: seq<byte>, round: nat, r: Regs)
    requires |p| == 64 && round < 4
    ensures Onward(p, r, round, 16) == if round == 3 then r else Onward(p, r, round + 1, 0)
  {
    assert 16 * round + 16 == 16 * (round + 1) + 0;
  }

  ghost predicate Lifts(g: Steps, p: seq<byte>)
    requires |p| == 64
  {
    forall r, round, i :: g(r, round, i) == Onward(p, r, round, i)
  }

  lemma LiftsStep(g: Steps, p: seq<byte>, first: bv32, length: bv32, round: nat, i: nat, r: Regs)
    requires Holds(p, first, length) && Lifts(g, p)
    ensures TakesStep(g, first, length, round, i, r)
  {
    if round < 4 && i < 16 {
      OnwardStep(p, first, length, round, i, r);
    }
  }

  lemma LiftsRound(g: Steps, p: seq<byte>, round: nat, r: Regs)
    requires |p| == 64 && Lifts(g, p)
    ensures NextRound(g, round, r)
  {
    if round < 4 {
      OnwardRound(p, round, r);
    }
  }

  lemma Lifted(p: seq<byte>) returns (g: Steps)
    requires |p| == 64
    ensures Lifts(g, p)
  {
    g := (r: Regs, round: nat, i: nat) => Onward(p, r, round, i);
  }

  lemma BlockSteps(p: seq<byte>, first: bv32, length: bv32) returns (g: Steps)
    requires Holds(p, first, length)
    ensures Lifts(g, p) && TakesSteps(g, first, length) && forall round, r :: NextRound(g, round, r)
  {
    g := Lifted(p);
    forall round: nat, i: nat, r
      ensures TakesStep(g, first, length, round, i, r)
    {
      LiftsStep(g, p, first, length, round, i, r);
    }
    forall round: nat, r
      ensures NextRound(g, round, r)
    {
      LiftsRound(g, p, round, r);
    }
  }

  /** All steps, if the registers after each round are known. */
  lemma AllRounds(g: Steps, r0: Regs, r1: Regs, r2: Regs, r3: Regs, r4: Regs)
    requires forall round, r :: NextRound(g, round, r)
    requires g(r0, 0, 0) == g(r1, 0, 16) && g(r1, 1, 0) == g(r2, 1, 16)
    requires g(r2, 2, 0) == g(r3, 2, 16) && g(r3, 3, 0) == g(r4, 3, 16)
    ensures g(r0, 0, 0) == r4
  {
    assert NextRound(g, 0, r1) && NextRound(g, 1, r2) && NextRound(g, 2, r3) && NextRound(g, 3, r4);
  }

  lemma LiftsStart(g: Steps, p: seq<byte>, r: Regs, zero: nat)
    requires |p| == 64 && Lifts(g, p) && zero == 0
    ensures g(r, zero, zero) == Md5Body.Steps(r, p, zero)
  {
    assert 16 * zero + zero == zero;
  }

  lemma WithSteps(p: seq<byte>, r: Regs, s: Regs, x: Regs)
    requires |p| == 64 && Md5Body.Steps(r, p, 0) == s && Added(s, r) == x
    ensures Compress(r, p) == x
  {
  }

  lemma Empty1(g: Steps)
    requires TakesSteps(g, 0x0000_0080, 0x0000_0000)
    ensures g(Regs(0x6745_2301, 0xefcd_ab89, 0x98ba_dcfe, 0x1032_5476), 0, 0)
         == g(Regs(0x3203_3344, 0x9bc1_3ce9, 0xf5b1_58db, 0x2f35_d494), 0, 8)
  {
    Turn(g, 0x0000_0080, 0x0000_0000, 0, 0, 1, Regs(0x6745_2301, 0xefcd_ab89, 0x98ba_dcfe, 0x1032_5476), 0, 0x0000_0080, 0x98ba_dcfe, 0xd76a_a478, 7,
         Regs(0x1032_5476, 0xa520_2774, 0xefcd_ab89, 0x98ba_dcfe));
    Turn(g, 0x0000_0080, 0x0000_0000, 0, 1, 2, Regs(0x1032_5476, 0xa520_2774, 0xefcd_ab89, 0x98ba_dcfe), 1, 0x0000_0000, 0xbd9a_fb8a, 0xe8c7_b756, 12,
         Regs(0x98ba_dcfe, 0xf595_92dd, 0xa520_2774, 0xefcd_ab89));
    Turn(g, 0x0000_0080, 0x0000_0000, 0, 2, 3, Regs(0x98ba_dcfe, 0xf595_92dd, 0xa520_2774, 0xefcd_ab89), 2, 0x0000_0000, 0xaf48_2b54, 0x2420_70db, 17,
         Regs(0xefcd_ab89, 0xe7f0_6b23, 0xf595_92dd, 0xa520_2774));
    Turn(g, 0x0000_0080, 0x0000_0000, 0, 3, 4, Regs(0xefcd_ab89, 0xe7f0_6b23, 0xf595_92dd, 0xa520_2774), 3, 0x0000_0000, 0xe590_0655, 0xc1bd_ceee, 22,
         Regs(0xa520_2774, 0x1b16_3203, 0xe7f0_6b23, 0xf595_92dd));
    Turn(g, 0x0000_0080, 0x0000_0000, 0, 4, 5, Regs(0xa520_2774, 0x1b16_3203, 0xe7f0_6b23, 0xf595_92dd), 4, 0x0000_0000, 0xe791_a2df, 0xf57c_0faf, 7,
         Regs(0xf595_92dd, 0x3203_3344, 0x1b16_3203, 0xe7f0_6b23));
    Turn(g, 0x0000_0080, 0x0000_0000, 0, 5, 6, Regs(0xf595_92dd, 0x3203_3344, 0x1b16_3203, 0xe7f0_6b23), 5, 0x0000_0000, 0xd7f2_7a23, 0x4787_c62a, 12,
         Regs(0xe7f0_6b23, 0x2f35_d494, 0x3203_3344, 0x1b16_3203));
    Turn(g, 0x0000_0080, 0x0000_0000, 0, 6, 7, Regs(0xe7f0_6b23, 0x2f35_d494, 0x3203_3344, 0x1b16_3203), 6, 0x0000_0000, 0x3203_3207, 0xa830_4613, 17,
         Regs(0x1b16_3203, 0xf5b1_58db, 0x2f35_d494, 0x3203_3344));
    Turn(g, 0x0000_0080, 0x0000_0000, 0, 7, 8, Regs(0x1b16_3203, 0xf5b1_58db, 0x2f35_d494, 0x3203_3344), 7, 0x0000_0000, 0x2733_7394, 0xfd46_9501, 22,
         Regs(0x3203_3344, 0x9bc1_3ce9, 0xf5b1_58db, 0x2f35_d494));
  }

  lemma Empty2(g: Steps)
    requires TakesSteps(g, 0x0000_0080, 0x0000_0000)
    ensures g(Regs(0x3203_3344, 0x9bc1_3ce9, 0xf5b1_58db, 0x2f35_d494), 0, 8)
         == g(Regs(0xf56c_7cf1, 0xd681_9c6a, 0x5aa5_3f75, 0x3749_43a7), 0, 16)
  {
    Turn(g, 0x0000_0080, 0x0000_0000, 0, 8, 9, Regs(0x3203_3344, 0x9bc1_3ce9, 0xf5b1_58db, 0x2f35_d494), 8, 0x0000_0000, 0xb5b5_d8dd, 0x6980_98d8, 7,
         Regs(0x2f35_d494, 0x3893_b991, 0x9bc1_3ce9, 0xf5b1_58db));
    Turn(g, 0x0000_0080, 0x0000_0000, 0, 9, 10, Regs(0x2f35_d494, 0x3893_b991, 0x9bc1_3ce9, 0xf5b1_58db), 9, 0x0000_0000, 0xdda1_78cb, 0x8b44_f7af, 12,
         Regs(0xf5b1_58db, 0xfce4_a312, 0x3893_b991, 0x9bc1_3ce9));
    Turn(g, 0x0000_0080, 0x0000_0000, 0, 10, 11, Regs(0xf5b1_58db, 0xfce4_a312, 0x3893_b991, 0x9bc1_3ce9), 10, 0x0000_0000, 0x3b81_bdf9, 0xffff_5bb1, 17,
         Regs(0x9bc1_3ce9, 0xe1ef_0576, 0xfce4_a312, 0x3893_b991));
    Turn(g, 0x0000_0080, 0x0000_0000, 0, 11, 12, Regs(0x9bc1_3ce9, 0xe1ef_0576, 0xfce4_a312, 0x3893_b991), 11, 0x0000_0000, 0xf8f4_b993, 0x895c_d7be, 22,
         Regs(0x3893_b991, 0x7076_8a29, 0xe1ef_0576, 0xfce4_a312));
    Turn(g, 0x0000_0080, 0x0000_0000, 0, 12, 13, Regs(0x3893_b991, 0x7076_8a29, 0xe1ef_0576, 0xfce4_a312), 12, 0x0000_0000, 0xece6_2132, 0x6b90_1122, 7,
         Regs(0xfce4_a312, 0xf56c_7cf1, 0x7076_8a29, 0xe1ef_0576));
    Turn(g, 0x0000_0080, 0x0000_0000, 0, 13, 14, Regs(0xfce4_a312, 0xf56c_7cf1, 0x7076_8a29, 0xe1ef_0576), 13, 0x0000_0000, 0x70e7_0927, 0xfd98_7193, 12,
         Regs(0xe1ef_0576, 0x3749_43a7, 0xf56c_7cf1, 0x7076_8a29));
    Turn(g, 0x0000_0080, 0x0000_0000, 0, 14, 15, Regs(0xe1ef_0576, 0x3749_43a7, 0xf56c_7cf1, 0x7076_8a29), 14, 0x0000_0000, 0x757e_c8a9, 0xa679_438e, 17,
         Regs(0x7076_8a29, 0x5aa5_3f75, 0x3749_43a7, 0xf56c_7cf1));
    Turn(g, 0x0000_0080, 0x0000_0000, 0, 15, 16, Regs(0x7076_8a29, 0x5aa5_3f75, 0x3749_43a7, 0xf56c_7cf1), 15, 0x0000_0000, 0xb749_43a5, 0x49b4_0821, 22,
         Regs(0xf56c_7cf1, 0xd681_9c6a, 0x5aa5_3f75, 0x3749_43a7));
  }

  lemma Empty3(g: Steps)
    requires TakesSteps(g, 0x0000_0080, 0x0000_0000)
    ensures g(Regs(0xf56c_7cf1, 0xd681_9c6a, 0x5aa5_3f75, 0x3749_43a7), 1, 0)
         == g(Regs(0x3d1e_3e6c, 0xe422_531a, 0xeb41_643e, 0x68b7_b3e3), 1, 8)
  {
    Turn(g, 0x0000_0080, 0x0000_0000, 1, 0, 1, Regs(0xf56c_7cf1, 0xd681_9c6a, 0x5aa5_3f75, 0x3749_43a7), 1, 0x0000_0000, 0x5ea5_3c72, 0xf61e_2562, 5,
         Regs(0x3749_43a7, 0x1c7d_7513, 0xd681_9c6a, 0x5aa5_3f75));
    Turn(g, 0x0000_0080, 0x0000_0000, 1, 1, 2, Regs(0x3749_43a7, 0x1c7d_7513, 0xd681_9c6a, 0x5aa5_3f75), 6, 0x0000_0000, 0x9c25_b51b, 0xc040_b340, 9,
         Regs(0x5aa5_3f75, 0x7bd5_7a3a, 0x1c7d_7513, 0xd681_9c6a));
    Turn(g, 0x0000_0080, 0x0000_0000, 1, 2, 3, Regs(0x5aa5_3f75, 0x7bd5_7a3a, 0x1c7d_7513, 0xd681_9c6a), 11, 0x0000_0000, 0x5afd_793b, 0x265e_5a51, 14,
         Regs(0xd681_9c6a, 0xc095_f13a, 0x7bd5_7a3a, 0x1c7d_7513));
    Turn(g, 0x0000_0080, 0x0000_0000, 1, 3, 4, Regs(0xd681_9c6a, 0xc095_f13a, 0x7bd5_7a3a, 0x1c7d_7513), 0, 0x0000_0080, 0x6395_7b3a, 0xe9b6_c7aa, 20,
         Regs(0x1c7d_7513, 0xbd78_2e17, 0xc095_f13a, 0x7bd5_7a3a));
    Turn(g, 0x0000_0080, 0x0000_0000, 1, 4, 5, Regs(0x1c7d_7513, 0xbd78_2e17, 0xc095_f13a, 0x7bd5_7a3a), 5, 0x0000_0000, 0xb950_ab12, 0xd62f_105d, 5,
         Regs(0x7bd5_7a3a, 0x3d1e_3e6c, 0xbd78_2e17, 0xc095_f13a));
    Turn(g, 0x0000_0080, 0x0000_0000, 1, 5, 6, Regs(0x7bd5_7a3a, 0x3d1e_3e6c, 0xbd78_2e17, 0xc095_f13a), 10, 0x0000_0000, 0x3d7c_3e2d, 0x0244_1453, 9,
         Regs(0xc095_f13a, 0x68b7_b3e3, 0x3d1e_3e6c, 0xbd78_2e17));
    Turn(g, 0x0000_0080, 0x0000_0000, 1, 6, 7, Regs(0xc095_f13a, 0x68b7_b3e3, 0x3d1e_3e6c, 0xbd78_2e17), 15, 0x0000_0000, 0x2836_326b, 0xd8a1_e681, 14,
         Regs(0xbd78_2e17, 0xeb41_643e, 0x68b7_b3e3, 0x3d1e_3e6c));
    Turn(g, 0x0000_0080, 0x0000_0000, 1, 7, 8, Regs(0xbd78_2e17, 0xeb41_643e, 0x68b7_b3e3, 0x3d1e_3e6c), 4, 0x0000_0000, 0x69a1_a5af, 0xe7d3_fbc8, 20,
         Regs(0x3d1e_3e6c, 0xe422_531a, 0xeb41_643e, 0x68b7_b3e3));
  }

  lemma Empty4(g: Steps)
    requires TakesSteps(g, 0x0000_0080, 0x0000_0000)
    ensures g(Regs(0x3d1e_3e6c, 0xe422_531a, 0xeb41_643e, 0x68b7_b3e3), 1, 8)
         == g(Regs(0x1370_7036, 0xa220_5f1f, 0x1c31_c384, 0xae78_13db), 1, 16)
  {
    Turn(g, 0x0000_0080, 0x0000_0000, 1, 8, 9, Regs(0x3d1e_3e6c, 0xe422_531a, 0xeb41_643e, 0x68b7_b3e3), 9, 0x0000_0000, 0xe362_571e, 0x21e1_cde6, 5,
         Regs(0x68b7_b3e3, 0x306e_c122, 0xe422_531a, 0xeb41_643e));
    Turn(g, 0x0000_0080, 0x0000_0000, 1, 9, 10, Regs(0x68b7_b3e3, 0x306e_c122, 0xe422_531a, 0xeb41_643e), 14, 0x0000_0000, 0x2462_5322, 0xc337_07d6, 9,
         Regs(0xeb41_643e, 0xd28c_77c2, 0x306e_c122, 0xe422_531a));
    Turn(g, 0x0000_0080, 0x0000_0000, 1, 10, 11, Regs(0xeb41_643e, 0xd28c_77c2, 0x306e_c122, 0xe422_531a), 3, 0x0000_0000, 0xd04c_d322, 0xf4d5_0d87, 14,
         Regs(0xe422_531a, 0xa3c6_63da, 0xd28c_77c2, 0x306e_c122));
    Turn(g, 0x0000_0080, 0x0000_0000, 1, 11, 12, Regs(0xe422_531a, 0xa3c6_63da, 0xd28c_77c2, 0x306e_c122), 8, 0x0000_0000, 0xe2c6_77c2, 0x455a_14ed, 20,
         Regs(0x306e_c122, 0xa057_2807, 0xa3c6_63da, 0xd28c_77c2));
    Turn(g, 0x0000_0080, 0x0000_0000, 1, 12, 13, Regs(0x306e_c122, 0xa057_2807, 0xa3c6_63da, 0xd28c_77c2), 13, 0x0000_0000, 0xa146_201a, 0xa9e3_e905, 5,
         Regs(0xd28c_77c2, 0x1370_7036, 0xa057_2807, 0xa3c6_63da));
    Turn(g, 0x0000_0080, 0x0000_0000, 1, 13, 14, Regs(0xd28c_77c2, 0x1370_7036, 0xa057_2807, 0xa3c6_63da), 2, 0x0000_0000, 0x0351_6817, 0xfcef_a3f8, 9,
         Regs(0xa3c6_63da, 0xae78_13db, 0x1370_7036, 0xa057_2807));
    Turn(g, 0x0000_0080, 0x0000_0000, 1, 14, 15, Regs(0xa3c6_63da, 0xae78_13db, 0x1370_7036, 0xa057_2807), 7, 0x0000_0000, 0xb370_5033, 0x676f_02d9, 14,
         Regs(0xa057_2807, 0x1c31_c384, 0xae78_13db, 0x1370_7036));
    Turn(g, 0x0000_0080, 0x0000_0000, 1, 15, 16, Regs(0xa057_2807, 0x1c31_c384, 0xae78_13db, 0x1370_7036), 12, 0x0000_0000, 0xbc38_43cd, 0x8d2a_4c8a, 20,
         Regs(0x1370_7036, 0xa220_5f1f, 0x1c31_c384, 0xae78_13db));
  }

  lemma Empty5(g: Steps)
    requires TakesSteps(g, 0x0000_0080, 0x0000_0000)
    ensures g(Regs(0x1370_7036, 0xa220_5f1f, 0x1c31_c384, 0xae78_13db), 2, 0)
         == g(Regs(0x5f7a_9b2e, 0xc5dc_8c15, 0x91ca_4cb7, 0xabc3_4e16), 2, 8)
  {
    Turn(g, 0x0000_0080, 0x0000_0000, 2, 0, 1, Regs(0x1370_7036, 0xa220_5f1f, 0x1c31_c384, 0xae78_13db), 5, 0x0000_0000, 0x1069_8f40, 0xfffa_3942, 4,
         Regs(0xae78_13db, 0xdf63_eaa1, 0xa220_5f1f, 0x1c31_c384));
    Turn(g, 0x0000_0080, 0x0000_0000, 2, 1, 2, Regs(0xae78_13db, 0xdf63_eaa1, 0xa220_5f1f, 0x1c31_c384), 8, 0x0000_0000, 0x6172_763a, 0x8771_f681, 11,
         Regs(0x1c31_c384, 0xc368_9f5b, 0xdf63_eaa1, 0xa220_5f1f));
    Turn(g, 0x0000_0080, 0x0000_0000, 2, 2, 3, Regs(0x1c31_c384, 0xc368_9f5b, 0xdf63_eaa1, 0xa220_5f1f), 11, 0x0000_0000, 0xbe2b_2ae5, 0x6d9d_6122, 16,
         Regs(0xa220_5f1f, 0x12f3_e755, 0xc368_9f5b, 0xdf63_eaa1));
    Turn(g, 0x0000_0080, 0x0000_0000, 2, 3, 4, Regs(0xa220_5f1f, 0x12f3_e755, 0xc368_9f5b, 0xdf63_eaa1), 14, 0x0000_0000, 0x0ef8_92af, 0xfde5_380c, 23,
         Regs(0xdf63_eaa1, 0x004b_6669, 0x12f3_e755, 0xc368_9f5b));
    Turn(g, 0x0000_0080, 0x0000_0000, 2, 4, 5, Regs(0xdf63_eaa1, 0x004b_6669, 0x12f3_e755, 0xc368_9f5b), 1, 0x0000_0000, 0xd1d0_1e67, 0xa4be_ea44, 4,
         Regs(0xc368_9f5b, 0x5f7a_9b2e, 0x004b_6669, 0x12f3_e755));
    Turn(g, 0x0000_0080, 0x0000_0000, 2, 5, 6, Regs(0xc368_9f5b, 0x5f7a_9b2e, 0x004b_6669, 0x12f3_e755), 4, 0x0000_0000, 0x4dc2_1a12, 0x4bde_cfa9, 11,
         Regs(0x12f3_e755, 0xabc3_4e16, 0x5f7a_9b2e, 0x004b_6669));
    Turn(g, 0x0000_0080, 0x0000_0000, 2, 6, 7, Regs(0x12f3_e755, 0xabc3_4e16, 0x5f7a_9b2e, 0x004b_6669), 7, 0x0000_0000, 0xf4f2_b351, 0xf6bb_4b60, 16,
         Regs(0x004b_6669, 0x91ca_4cb7, 0xabc3_4e16, 0x5f7a_9b2e));
    Turn(g, 0x0000_0080, 0x0000_0000, 2, 7, 8, Regs(0x004b_6669, 0x91ca_4cb7, 0xabc3_4e16, 0x5f7a_9b2e), 10, 0x0000_0000, 0x6573_998f, 0xbebf_bc70, 23,
         Regs(0x5f7a_9b2e, 0xc5dc_8c15, 0x91ca_4cb7, 0xabc3_4e16));
  }

  lemma Empty6(g: Steps)
    requires TakesSteps(g, 0x0000_0080, 0x0000_0000)
    ensures g(Regs(0x5f7a_9b2e, 0xc5dc_8c15, 0x91ca_4cb7, 0xabc3_4e16), 2, 8)
         == g(Regs(0x3f55_edfd, 0xca7d_2dbd, 0x68d8_4ea2, 0x22a3_1f54), 2, 16)
  {
    Turn(g, 0x0000_0080, 0x0000_0000, 2, 8, 9, Regs(0x5f7a_9b2e, 0xc5dc_8c15, 0x91ca_4cb7, 0xabc3_4e16), 13, 0x0000_0000, 0xffd5_8eb4, 0x289b_7ec6, 4,
         Regs(0xabc3_4e16, 0x4497_169d, 0xc5dc_8c15, 0x91ca_4cb7));
    Turn(g, 0x0000_0080, 0x0000_0000, 2, 9, 10, Regs(0xabc3_4e16, 0x4497_169d, 0xc5dc_8c15, 0x91ca_4cb7), 0, 0x0000_0080, 0x1081_d63f, 0xeaa1_27fa, 11,
         Regs(0x91ca_4cb7, 0x76fd_93d4, 0x4497_169d, 0xc5dc_8c15));
    Turn(g, 0x0000_0080, 0x0000_0000, 2, 10, 11, Regs(0x91ca_4cb7, 0x76fd_93d4, 0x4497_169d, 0xc5dc_8c15), 3, 0x0000_0000, 0xf7b6_095c, 0xd4ef_3085, 16,
         Regs(0xc5dc_8c15, 0xfd95_f243, 0x76fd_93d4, 0x4497_169d));
    Turn(g, 0x0000_0080, 0x0000_0000, 2, 11, 12, Regs(0xc5dc_8c15, 0xfd95_f243, 0x76fd_93d4, 0x4497_169d), 6, 0x0000_0000, 0xcfff_770a, 0x0488_1d05, 23,
         Regs(0x4497_169d, 0x0fe3_2453, 0xfd95_f243, 0x76fd_93d4));
    Turn(g, 0x0000_0080, 0x0000_0000, 2, 12, 13, Regs(0x4497_169d, 0x0fe3_2453, 0xfd95_f243, 0x76fd_93d4), 9, 0x0000_0000, 0x848b_45c4, 0xd9d4_d039, 4,
         Regs(0x76fd_93d4, 0x3f55_edfd, 0x0fe3_2453, 0xfd95_f243));
    Turn(g, 0x0000_0080, 0x0000_0000, 2, 13, 14, Regs(0x76fd_93d4, 0x3f55_edfd, 0x0fe3_2453, 0xfd95_f243), 12, 0x0000_0000, 0xcd23_3bed, 0xe6db_99e5, 11,
         Regs(0xfd95_f243, 0x22a3_1f54, 0x3f55_edfd, 0x0fe3_2453));
    Turn(g, 0x0000_0080, 0x0000_0000, 2, 14, 15, Regs(0xfd95_f243, 0x22a3_1f54, 0x3f55_edfd, 0x0fe3_2453), 15, 0x0000_0000, 0x1215_d6fa, 0x1fa2_7cf8, 16,
         Regs(0x0fe3_2453, 0x68d8_4ea2, 0x22a3_1f54, 0x3f55_edfd));
    Turn(g, 0x0000_0080, 0x0000_0000, 2, 15, 16, Regs(0x0fe3_2453, 0x68d8_4ea2, 0x22a3_1f54, 0x3f55_edfd), 2, 0x0000_0000, 0x752e_bc0b, 0xc4ac_5665, 23,
         Regs(0x3f55_edfd, 0xca7d_2dbd, 0x68d8_4ea2, 0x22a3_1f54));
  }

  lemma Empty7(g: Steps)
    requires TakesSteps(g, 0x0000_0080, 0x0000_0000)
    ensures g(Regs(0x3f55_edfd, 0xca7d_2dbd, 0x68d8_4ea2, 0x22a3_1f54), 3, 0)
         == g(Regs(0x5625_a114, 0x1e77_fa61, 0x392a_d0d0, 0x3450_f42b), 3, 8)
  {
    Turn(g, 0x0000_0080, 0x0000_0000, 3, 0, 1, Regs(0x3f55_edfd, 0xca7d_2dbd, 0x68d8_4ea2, 0x22a3_1f54), 0, 0x0000_0080, 0xb7a5_a31d, 0xf429_2244, 6,
         Regs(0x22a3_1f54, 0x93aa_2577, 0xca7d_2dbd, 0x68d8_4ea2));
    Turn(g, 0x0000_0080, 0x0000_0000, 3, 1, 2, Regs(0x22a3_1f54, 0x93aa_2577, 0xca7d_2dbd, 0x68d8_4ea2), 7, 0x0000_0000, 0x5dd2_98c2, 0x432a_ff97, 10,
         Regs(0x68d8_4ea2, 0x1688_dc85, 0x93aa_2577, 0xca7d_2dbd));
    Turn(g, 0x0000_0080, 0x0000_0000, 3, 2, 3, Regs(0x68d8_4ea2, 0x1688_dc85, 0x93aa_2577, 0xca7d_2dbd), 14, 0x0000_0000, 0xa420_fbb0, 0xab94_23a7, 15,
         Regs(0xca7d_2dbd, 0xcd85_b8cb, 0x1688_dc85, 0x93aa_2577));
    Turn(g, 0x0000_0080, 0x0000_0000, 3, 3, 4, Regs(0xca7d_2dbd, 0xcd85_b8cb, 0x1688_dc85, 0x93aa_2577), 5, 0x0000_0000, 0xfb5d_264e, 0xfc93_a039, 21,
         Regs(0x93aa_2577, 0x561e_0689, 0xcd85_b8cb, 0x1688_dc85));
    Turn(g, 0x0000_0080, 0x0000_0000, 3, 4, 5, Regs(0x93aa_2577, 0x561e_0689, 0xcd85_b8cb, 0x1688_dc85), 12, 0x0000_0000, 0x32fa_9f30, 0x655b_59c3, 6,
         Regs(0x1688_dc85, 0x5625_a114, 0x561e_0689, 0xcd85_b8cb));
    Turn(g, 0x0000_0080, 0x0000_0000, 3, 5, 6, Regs(0x1688_dc85, 0x5625_a114, 0x561e_0689, 0xcd85_b8cb), 3, 0x0000_0000, 0x2061_e1bd, 0x8f0c_cc92, 10,
         Regs(0xcd85_b8cb, 0x3450_f42b, 0x5625_a114, 0x561e_0689));
    Turn(g, 0x0000_0080, 0x0000_0000, 3, 6, 7, Regs(0xcd85_b8cb, 0x3450_f42b, 0x5625_a114, 0x561e_0689), 10, 0x0000_0000, 0xebd4_5c6b, 0xffef_f47d, 15,
         Regs(0x561e_0689, 0x392a_d0d0, 0x3450_f42b, 0x5625_a114));
    Turn(g, 0x0000_0080, 0x0000_0000, 3, 7, 8, Regs(0x561e_0689, 0x392a_d0d0, 0x3450_f42b, 0x5625_a114), 1, 0x0000_0000, 0x8daa_2ad0, 0x8584_5dd1, 21,
         Regs(0x5625_a114, 0x1e77_fa61, 0x392a_d0d0, 0x3450_f42b));
  }

  lemma Empty8(g: Steps)
    requires TakesSteps(g, 0x0000_0080, 0x0000_0000)
    ensures g(Regs(0x5625_a114, 0x1e77_fa61, 0x392a_d0d0, 0x3450_f42b), 3, 8)
         == g(Regs(0x7246_fad3, 0x14e4_5506, 0xff4e_a3eb, 0x6e10_a476), 3, 16)
  {
    Turn(g, 0x0000_0080, 0x0000_0000, 3, 8, 9, Regs(0x5625_a114, 0x1e77_fa61, 0x392a_d0d0, 0x3450_f42b), 8, 0x0000_0000, 0xe6d5_2b25, 0x6fa8_7e4f, 6,
         Regs(0x3450_f42b, 0x474a_9c8c, 0x1e77_fa61, 0x392a_d0d0));
    Turn(g, 0x0000_0080, 0x0000_0000, 3, 9, 10, Regs(0x3450_f42b, 0x474a_9c8c, 0x1e77_fa61, 0x392a_d0d0), 15, 0x0000_0000, 0xd9a8_45ce, 0xfe2c_e6e0, 10,
         Regs(0x392a_d0d0, 0xdfce_00bc, 0x474a_9c8c, 0x1e77_fa61));
    Turn(g, 0x0000_0080, 0x0000_0000, 3, 10, 11, Regs(0x392a_d0d0, 0xdfce_00bc, 0x474a_9c8c, 0x1e77_fa61), 6, 0x0000_0000, 0xb884_9932, 0xa301_4314, 15,
         Regs(0x1e77_fa61, 0x3659_4b14, 0xdfce_00bc, 0x474a_9c8c));
    Turn(g, 0x0000_0080, 0x0000_0000, 3, 11, 12, Regs(0x1e77_fa61, 0x3659_4b14, 0xdfce_00bc, 0x474a_9c8c), 13, 0x0000_0000, 0x6133_6bcb, 0x4e08_11a1, 21,
         Regs(0x474a_9c8c, 0x3013_0182, 0x3659_4b14, 0xdfce_00bc));
    Turn(g, 0x0000_0080, 0x0000_0000, 3, 12, 13, Regs(0x474a_9c8c, 0x3013_0182, 0x3659_4b14, 0xdfce_00bc), 4, 0x0000_0000, 0x066a_b4d7, 0xf753_7e82, 6,
         Regs(0xdfce_00bc, 0x7246_fad3, 0x3013_0182, 0x3659_4b14));
    Turn(g, 0x0000_0080, 0x0000_0000, 3, 13, 14, Regs(0xdfce_00bc, 0x7246_fad3, 0x3013_0182, 0x3659_4b14), 11, 0x0000_0000, 0xcbf5_ff79, 0xbd3a_f235, 10,
         Regs(0x3659_4b14, 0x6e10_a476, 0x7246_fad3, 0x3013_0182));
    Turn(g, 0x0000_0080, 0x0000_0000, 3, 14, 15, Regs(0x3659_4b14, 0x6e10_a476, 0x7246_fad3, 0x3013_0182), 2, 0x0000_0000, 0x9dba_04ac, 0x2ad7_d2bb, 15,
         Regs(0x3013_0182, 0xff4e_a3eb, 0x6e10_a476, 0x7246_fad3));
    Turn(g, 0x0000_0080, 0x0000_0000, 3, 15, 16, Regs(0x3013_0182, 0xff4e_a3eb, 0x6e10_a476, 0x7246_fad3), 9, 0x0000_0000, 0x91ef_0399, 0xeb86_d391, 21,
         Regs(0x7246_fad3, 0x14e4_5506, 0xff4e_a3eb, 0x6e10_a476));
  }

  lemma EmptyRounds(g: Steps)
    requires TakesSteps(g, 0x0000_0080, 0x0000_0000) && forall round, r :: NextRound(g, round, r)
    ensures g(Regs(0x6745_2301, 0xefcd_ab89, 0x98ba_dcfe, 0x1032_5476), 0, 0)
         == Regs(0x7246_fad3, 0x14e4_5506, 0xff4e_a3eb, 0x6e10_a476)
  {
    Empty1(g);
    Empty2(g);
    Empty3(g);
    Empty4(g);
    Empty5(g);
    Empty6(g);
    Empty7(g);
    Empty8(g);
    AllRounds(g, Regs(0x6745_2301, 0xefcd_ab89, 0x98ba_dcfe, 0x1032_5476),
              Regs(0xf56c_7cf1, 0xd681_9c6a, 0x5aa5_3f75, 0x3749_43a7),
              Regs(0x1370_7036, 0xa220_5f1f, 0x1c31_c384, 0xae78_13db),
              Regs(0x3f55_edfd, 0xca7d_2dbd, 0x68d8_4ea2, 0x22a3_1f54),
              Regs(0x7246_fad3, 0x14e4_5506, 0xff4e_a3eb, 0x6e10_a476));
  }

  lemma EmptyBlock(p: seq<byte>)
    requires Holds(p, 0x0000_0080, 0x0000_0000)
    ensures Compress(INITIAL, p) == Regs(0xd98c_1dd4, 0x04b2_008f, 0x9809_80e9, 0x7e42_f8ec)
  {
    var g := BlockSteps(p, 0x0000_0080, 0x0000_0000);
    EmptyRounds(g);
    LiftsStart(g, p, INITIAL, 0);
    WithSteps(p, INITIAL, Regs(0x7246_fad3, 0x14e4_5506, 0xff4e_a3eb, 0x6e10_a476),
              Regs(0xd98c_1dd4, 0x04b2_008f, 0x9809_80e9, 0x7e42_f8ec));
  }

  lemma EmptyBytes()
    ensures RegsBytes(Regs(0xd98c_1dd4, 0x04b2_008f, 0x9809_80e9, 0x7e42_f8ec))
         == [0xd4, 0x1d, 0x8c, 0xd9, 0x8f, 0x00, 0xb2, 0x04, 0xe9, 0x80, 0x09, 0x98, 0xec, 0xf8, 0x42, 0x7e]
  {
  }

  lemma Abc1(g: Steps)
    requires TakesSteps(g, 0x8063_6261, 0x0000_0018)
    ensures g(Regs(0x6745_2301, 0xefcd_ab89, 0x98ba_dcfe, 0x1032_5476), 0, 0)
         == g(Regs(0xc737_41ef, 0x928d_99f6, 0x207d_c67b, 0x8bac_3051), 0, 8)
  {
    Turn(g, 0x8063_6261, 0x0000_0018, 0, 0, 1, Regs(0x6745_2301, 0xefcd_ab89, 0x98ba_dcfe, 0x1032_5476), 0, 0x8063_6261, 0x98ba_dcfe, 0xd76a_a478, 7,
         Regs(0x1032_5476, 0xd6d1_17b4, 0xefcd_ab89, 0x98ba_dcfe));
    Turn(g, 0x8063_6261, 0x0000_0018, 0, 1, 2, Regs(0x1032_5476, 0xd6d1_17b4, 0xefcd_ab89, 0x98ba_dcfe), 1, 0x0000_0000, 0xceeb_cbca, 0xe8c7_b756, 12,
         Regs(0x98ba_dcfe, 0x344a_8432, 0xd6d1_17b4, 0xefcd_ab89));
    Turn(g, 0x8063_6261, 0x0000_0018, 0, 2, 3, Regs(0x98ba_dcfe, 0x344a_8432, 0xd6d1_17b4, 0xefcd_ab89), 2, 0x0000_0000, 0xdfc5_2fb9, 0x2420_70db, 17,
         Regs(0xefcd_ab89, 0x2f6f_bd72, 0x344a_8432, 0xd6d1_17b4));
    Turn(g, 0x8063_6261, 0x0000_0018, 0, 3, 4, Regs(0xefcd_ab89, 0x2f6f_bd72, 0x344a_8432, 0xd6d1_17b4), 3, 0x0000_0000, 0xf4da_86b6, 0xc1bd_ceee, 22,
         Regs(0xd6d1_17b4, 0x7ad9_56f2, 0x2f6f_bd72, 0x344a_8432));
    Turn(g, 0x8063_6261, 0x0000_0018, 0, 4, 5, Regs(0xd6d1_17b4, 0x7ad9_56f2, 0x2f6f_bd72, 0x344a_8432), 4, 0x0000_0000, 0x2e4b_9472, 0xf57c_0faf, 7,
         Regs(0x344a_8432, 0xc737_41ef, 0x7ad9_56f2, 0x2f6f_bd72));
    Turn(g, 0x8063_6261, 0x0000_0018, 0, 5, 6, Regs(0x344a_8432, 0xc737_41ef, 0x7ad9_56f2, 0x2f6f_bd72), 5, 0x0000_0000, 0x6a59_fcf2, 0x4787_c62a, 12,
         Regs(0x2f6f_bd72, 0x8bac_3051, 0xc737_41ef, 0x7ad9_56f2));
    Turn(g, 0x8063_6261, 0x0000_0018, 0, 6, 7, Regs(0x2f6f_bd72, 0x8bac_3051, 0xc737_41ef, 0x7ad9_56f2), 6, 0x0000_0000, 0xf375_46e3, 0xa830_4613, 17,
         Regs(0x7ad9_56f2, 0x207d_c67b, 0x8bac_3051, 0xc737_41ef));
    Turn(g, 0x8063_6261, 0x0000_0018, 0, 7, 8, Regs(0x7ad9_56f2, 0x207d_c67b, 0x8bac_3051, 0xc737_41ef), 7, 0x0000_0000, 0xc72e_01d5, 0xfd46_9501, 22,
         Regs(0xc737_41ef, 0x928d_99f6, 0x207d_c67b, 0x8bac_3051));
  }

  lemma Abc2(g: Steps)
    requires TakesSteps(g, 0x8063_6261, 0x0000_0018)
    ensures g(Regs(0xc737_41ef, 0x928d_99f6, 0x207d_c67b, 0x8bac_3051), 0, 8)
         == g(Regs(0xdda9_b9a6, 0x72af_f2e0, 0xe396_856b, 0xa105_1895), 0, 16)
  {
    Turn(g, 0x8063_6261, 0x0000_0018, 0, 8, 9, Regs(0xc737_41ef, 0x928d_99f6, 0x207d_c67b, 0x8bac_3051), 8, 0x0000_0000, 0x092d_a073, 0x6980_98d8, 7,
         Regs(0x8bac_3051, 0x854b_3712, 0x928d_99f6, 0x207d_c67b));
    Turn(g, 0x8063_6261, 0x0000_0018, 0, 9, 10, Regs(0x8bac_3051, 0x854b_3712, 0x928d_99f6, 0x207d_c67b), 9, 0x0000_0000, 0xa03d_d17b, 0x8b44_f7af, 12,
         Regs(0x207d_c67b, 0x74e2_f284, 0x854b_3712, 0x928d_99f6));
    Turn(g, 0x8063_6261, 0x0000_0018, 0, 10, 11, Regs(0x207d_c67b, 0x74e2_f284, 0x854b_3712, 0x928d_99f6), 10, 0x0000_0000, 0x864f_3b72, 0xffff_5bb1, 17,
         Regs(0x928d_99f6, 0x3020_401c, 0x74e2_f284, 0x854b_3712));
    Turn(g, 0x8063_6261, 0x0000_0018, 0, 11, 12, Regs(0x928d_99f6, 0x3020_401c, 0x74e2_f284, 0x854b_3712), 11, 0x0000_0000, 0xb56b_7706, 0x895c_d7be, 22,
         Regs(0x854b_3712, 0x5ed4_9596, 0x3020_401c, 0x74e2_f284));
    Turn(g, 0x8063_6261, 0x0000_0018, 0, 12, 13, Regs(0x854b_3712, 0x5ed4_9596, 0x3020_401c, 0x74e2_f284), 12, 0x0000_0000, 0x3022_6214, 0x6b90_1122, 7,
         Regs(0x74e2_f284, 0xdda9_b9a6, 0x5ed4_9596, 0x3020_401c));
    Turn(g, 0x8063_6261, 0x0000_0018, 0, 13, 14, Regs(0x74e2_f284, 0xdda9_b9a6, 0x5ed4_9596, 0x3020_401c), 13, 0x0000_0000, 0x7c80_d19e, 0xfd98_7193, 12,
         Regs(0x3020_401c, 0xa105_1895, 0xdda9_b9a6, 0x5ed4_9596));
    Turn(g, 0x8063_6261, 0x0000_0018, 0, 14, 15, Regs(0x3020_401c, 0xa105_1895, 0xdda9_b9a6, 0x5ed4_9596), 14, 0x0000_0018, 0xdfd1_9d86, 0xa679_438e, 17,
         Regs(0x5ed4_9596, 0xe396_856b, 0xa105_1895, 0xdda9_b9a6));
    Turn(g, 0x8063_6261, 0x0000_0018, 0, 15, 16, Regs(0x5ed4_9596, 0xe396_856b, 0xa105_1895, 0xdda9_b9a6), 15, 0x0000_0000, 0xbd2d_3885, 0x49b4_0821, 22,
         Regs(0xdda9_b9a6, 0x72af_f2e0, 0xe396_856b, 0xa105_1895));
  }

  lemma Abc3(g: Steps)
    requires TakesSteps(g, 0x8063_6261, 0x0000_0018)
    ensures g(Regs(0xdda9_b9a6, 0x72af_f2e0, 0xe396_856b, 0xa105_1895), 1, 0)
         == g(Regs(0x59a8_ffda, 0x4709_2c07, 0xabfc_7920, 0x6d00_2f1e), 1, 8)
  {
    Turn(g, 0x8063_6261, 0x0000_0018, 1, 0, 1, Regs(0xdda9_b9a6, 0x72af_f2e0, 0xe396_856b, 0xa105_1895), 1, 0x0000_0000, 0x6297_95ea, 0xf61e_2562, 5,
         Regs(0xa105_1895, 0x3e9e_9126, 0x72af_f2e0, 0xe396_856b));
    Turn(g, 0x8063_6261, 0x0000_0018, 1, 1, 2, Regs(0xa105_1895, 0x3e9e_9126, 0x72af_f2e0, 0xe396_856b), 6, 0x0000_0000, 0x32bf_f3a2, 0xc040_b340, 9,
         Regs(0xe396_856b, 0x4a1d_804e, 0x3e9e_9126, 0x72af_f2e0));
    Turn(g, 0x8063_6261, 0x0000_0018, 1, 2, 3, Regs(0xe396_856b, 0x4a1d_804e, 0x3e9e_9126, 0x72af_f2e0), 11, 0x0000_0000, 0x4e1d_8146, 0x265e_5a51, 14,
         Regs(0x72af_f2e0, 0xe25e_1652, 0x4a1d_804e, 0x3e9e_9126));
    Turn(g, 0x8063_6261, 0x0000_0018, 1, 3, 4, Regs(0x72af_f2e0, 0xe25e_1652, 0x4a1d_804e, 0x3e9e_9126), 0, 0x8063_6261, 0x621f_104a, 0xe9b6_c7aa, 20,
         Regs(0x3e9e_9126, 0xb5b2_04e4, 0xe25e_1652, 0x4a1d_804e));
    Turn(g, 0x8063_6261, 0x0000_0018, 1, 4, 5, Regs(0x3e9e_9126, 0xb5b2_04e4, 0xe25e_1652, 0x4a1d_804e), 5, 0x0000_0000, 0xa052_1654, 0xd62f_105d, 5,
         Regs(0x4a1d_804e, 0x59a8_ffda, 0xb5b2_04e4, 0xe25e_1652));
    Turn(g, 0x8063_6261, 0x0000_0018, 1, 5, 6, Regs(0x4a1d_804e, 0x59a8_ffda, 0xb5b2_04e4, 0xe25e_1652), 10, 0x0000_0000, 0x55a8_16f6, 0x0244_1453, 9,
         Regs(0xe25e_1652, 0x6d00_2f1e, 0x59a8_ffda, 0xb5b2_04e4));
    Turn(g, 0x8063_6261, 0x0000_0018, 1, 6, 7, Regs(0xe25e_1652, 0x6d00_2f1e, 0x59a8_ffda, 0xb5b2_04e4), 15, 0x0000_0000, 0x6d08_ff1e, 0xd8a1_e681, 14,
         Regs(0xb5b2_04e4, 0xabfc_7920, 0x6d00_2f1e, 0x59a8_ffda));
    Turn(g, 0x8063_6261, 0x0000_0018, 1, 7, 8, Regs(0xb5b2_04e4, 0xabfc_7920, 0x6d00_2f1e, 0x59a8_ffda), 4, 0x0000_0000, 0x2da8_7904, 0xe7d3_fbc8, 20,
         Regs(0x59a8_ffda, 0x4709_2c07, 0xabfc_7920, 0x6d00_2f1e));
  }

  lemma Abc4(g: Steps)
    requires TakesSteps(g, 0x8063_6261, 0x0000_0018)
    ensures g(Regs(0x59a8_ffda, 0x4709_2c07, 0xabfc_7920, 0x6d00_2f1e), 1, 8)
         == g(Regs(0x790a_77fb, 0x7263_42d3, 0xa628_84aa, 0x9f47_e4f8), 1, 16)
  {
    Turn(g, 0x8063_6261, 0x0000_0018, 1, 8, 9, Regs(0x59a8_ffda, 0x4709_2c07, 0xabfc_7920, 0x6d00_2f1e), 9, 0x0000_0000, 0xc7fc_7c26, 0x21e1_cde6, 5,
         Regs(0x6d00_2f1e, 0xb7f2_68cf, 0x4709_2c07, 0xabfc_7920));
    Turn(g, 0x8063_6261, 0x0000_0018, 1, 9, 10, Regs(0x6d00_2f1e, 0xb7f2_68cf, 0x4709_2c07, 0xabfc_7920), 14, 0x0000_0018, 0xe7f1_6c07, 0xc337_07d6, 9,
         Regs(0xabfc_7920, 0x0938_8eff, 0xb7f2_68cf, 0x4709_2c07));
    Turn(g, 0x8063_6261, 0x0000_0018, 1, 10, 11, Regs(0xabfc_7920, 0x0938_8eff, 0xb7f2_68cf, 0x4709_2c07), 3, 0x0000_0000, 0xb1fa_4ccf, 0xf4d5_0d87, 14,
         Regs(0x4709_2c07, 0xfe16_23b1, 0x0938_8eff, 0xb7f2_68cf));
    Turn(g, 0x8063_6261, 0x0000_0018, 1, 11, 12, Regs(0x4709_2c07, 0xfe16_23b1, 0x0938_8eff, 0xb7f2_68cf), 8, 0x0000_0000, 0xbe1a_a6b1, 0x455a_14ed, 20,
         Regs(0xb7f2_68cf, 0x786a_cb8f, 0xfe16_23b1, 0x0938_8eff));
    Turn(g, 0x8063_6261, 0x0000_0018, 1, 12, 13, Regs(0xb7f2_68cf, 0x786a_cb8f, 0xfe16_23b1, 0x0938_8eff), 13, 0x0000_0000, 0xfe2e_ab8f, 0xa9e3_e905, 5,
         Regs(0x0938_8eff, 0x790a_77fb, 0x786a_cb8f, 0xfe16_23b1));
    Turn(g, 0x8063_6261, 0x0000_0018, 1, 13, 14, Regs(0x0938_8eff, 0x790a_77fb, 0x786a_cb8f, 0xfe16_23b1), 2, 0x0000_0000, 0x786a_ebbf, 0xfcef_a3f8, 9,
         Regs(0xfe16_23b1, 0x9f47_e4f8, 0x790a_77fb, 0x786a_cb8f));
    Turn(g, 0x8063_6261, 0x0000_0018, 1, 14, 15, Regs(0xfe16_23b1, 0x9f47_e4f8, 0x790a_77fb, 0x786a_cb8f), 7, 0x0000_0000, 0x1942_f4f8, 0x676f_02d9, 14,
         Regs(0x786a_cb8f, 0xa628_84aa, 0x9f47_e4f8, 0x790a_77fb));
    Turn(g, 0x8063_6261, 0x0000_0018, 1, 15, 16, Regs(0x786a_cb8f, 0xa628_84aa, 0x9f47_e4f8, 0x790a_77fb), 12, 0x0000_0000, 0xa64d_84aa, 0x8d2a_4c8a, 20,
         Regs(0x790a_77fb, 0x7263_42d3, 0xa628_84aa, 0x9f47_e4f8));
  }

  lemma Abc5(g: Steps)
    requires TakesSteps(g, 0x8063_6261, 0x0000_0018)
    ensures g(Regs(0x790a_77fb, 0x7263_42d3, 0xa628_84aa, 0x9f47_e4f8), 2, 0)
         == g(Regs(0x21b1_17b9, 0x5a2f_5ea5, 0x3575_227e, 0x6e74_29d5), 2, 8)
  {
    Turn(g, 0x8063_6261, 0x0000_0018, 2, 0, 1, Regs(0x790a_77fb, 0x7263_42d3, 0xa628_84aa, 0x9f47_e4f8), 5, 0x0000_0000, 0x4b0c_2281, 0xfffa_3942, 4,
         Regs(0x9f47_e4f8, 0xb370_7ebf, 0x7263_42d3, 0xa628_84aa));
    Turn(g, 0x8063_6261, 0x0000_0018, 2, 1, 2, Regs(0x9f47_e4f8, 0xb370_7ebf, 0x7263_42d3, 0xa628_84aa), 8, 0x0000_0000, 0x673b_b8c6, 0x8771_f681, 11,
         Regs(0xa628_84aa, 0x6012_7b2e, 0xb370_7ebf, 0x7263_42d3));
    Turn(g, 0x8063_6261, 0x0000_0018, 2, 2, 3, Regs(0xa628_84aa, 0x6012_7b2e, 0xb370_7ebf, 0x7263_42d3), 11, 0x0000_0000, 0xa101_4742, 0x6d9d_6122, 16,
         Regs(0x7263_42d3, 0x8d21_2ff5, 0x6012_7b2e, 0xb370_7ebf));
    Turn(g, 0x8063_6261, 0x0000_0018, 2, 3, 4, Regs(0x7263_42d3, 0x8d21_2ff5, 0x6012_7b2e, 0xb370_7ebf), 14, 0x0000_0018, 0x5e43_2a64, 0xfde5_380c, 23,
         Regs(0xb370_7ebf, 0x3b08_75c7, 0x8d21_2ff5, 0x6012_7b2e));
    Turn(g, 0x8063_6261, 0x0000_0018, 2, 4, 5, Regs(0xb370_7ebf, 0x3b08_75c7, 0x8d21_2ff5, 0x6012_7b2e), 1, 0x0000_0000, 0xd63b_211c, 0xa4be_ea44, 4,
         Regs(0x6012_7b2e, 0x21b1_17b9, 0x3b08_75c7, 0x8d21_2ff5));
    Turn(g, 0x8063_6261, 0x0000_0018, 2, 5, 6, Regs(0x6012_7b2e, 0x21b1_17b9, 0x3b08_75c7, 0x8d21_2ff5), 4, 0x0000_0000, 0x9798_4d8b, 0x4bde_cfa9, 11,
         Regs(0x8d21_2ff5, 0x6e74_29d5, 0x21b1_17b9, 0x3b08_75c7));
    Turn(g, 0x8063_6261, 0x0000_0018, 2, 6, 7, Regs(0x8d21_2ff5, 0x6e74_29d5, 0x21b1_17b9, 0x3b08_75c7), 7, 0x0000_0000, 0x74cd_4bab, 0xf6bb_4b60, 16,
         Regs(0x3b08_75c7, 0x3575_227e, 0x6e74_29d5, 0x21b1_17b9));
    Turn(g, 0x8063_6261, 0x0000_0018, 2, 7, 8, Regs(0x3b08_75c7, 0x3575_227e, 0x6e74_29d5, 0x21b1_17b9), 10, 0x0000_0000, 0x7ab0_1c12, 0xbebf_bc70, 23,
         Regs(0x21b1_17b9, 0x5a2f_5ea5, 0x3575_227e, 0x6e74_29d5));
  }

  lemma Abc6(g: Steps)
    requires TakesSteps(g, 0x8063_6261, 0x0000_0018)
    ensures g(Regs(0x21b1_17b9, 0x5a2f_5ea5, 0x3575_227e, 0x6e74_29d5), 2, 8)
         == g(Regs(0x7f2e_507b, 0x7beb_9700, 0x8fae_6399, 0x99d9_679d), 2, 16)
  {
    Turn(g, 0x8063_6261, 0x0000_0018, 2, 8, 9, Regs(0x21b1_17b9, 0x5a2f_5ea5, 0x3575_227e, 0x6e74_29d5), 13, 0x0000_0000, 0x012e_550e, 0x289b_7ec6, 4,
         Regs(0x6e74_29d5, 0x11de_1779, 0x5a2f_5ea5, 0x3575_227e));
    Turn(g, 0x8063_6261, 0x0000_0018, 2, 9, 10, Regs(0x6e74_29d5, 0x11de_1779, 0x5a2f_5ea5, 0x3575_227e), 0, 0x8063_6261, 0x7e84_6ba2, 0xeaa1_27fa, 11,
         Regs(0x3575_227e, 0xfadc_aa38, 0x11de_1779, 0x5a2f_5ea5));
    Turn(g, 0x8063_6261, 0x0000_0018, 2, 10, 11, Regs(0x3575_227e, 0xfadc_aa38, 0x11de_1779, 0x5a2f_5ea5), 3, 0x0000_0000, 0xb12d_e3e4, 0xd4ef_3085, 16,
         Regs(0x5a2f_5ea5, 0x31c4_65ca, 0xfadc_aa38, 0x11de_1779));
    Turn(g, 0x8063_6261, 0x0000_0018, 2, 11, 12, Regs(0x5a2f_5ea5, 0x31c4_65ca, 0xfadc_aa38, 0x11de_1779), 6, 0x0000_0000, 0xdac6_d88b, 0x0488_1d05, 23,
         Regs(0x11de_1779, 0x4c61_24f4, 0x31c4_65ca, 0xfadc_aa38));
    Turn(g, 0x8063_6261, 0x0000_0018, 2, 12, 13, Regs(0x11de_1779, 0x4c61_24f4, 0x31c4_65ca, 0xfadc_aa38), 9, 0x0000_0000, 0x8779_eb06, 0xd9d4_d039, 4,
         Regs(0xfadc_aa38, 0x7f2e_507b, 0x4c61_24f4, 0x31c4_65ca));
    Turn(g, 0x8063_6261, 0x0000_0018, 2, 13, 14, Regs(0xfadc_aa38, 0x7f2e_507b, 0x4c61_24f4, 0x31c4_65ca), 12, 0x0000_0000, 0x028b_1145, 0xe6db_99e5, 11,
         Regs(0x31c4_65ca, 0x99d9_679d, 0x7f2e_507b, 0x4c61_24f4));
    Turn(g, 0x8063_6261, 0x0000_0018, 2, 14, 15, Regs(0x31c4_65ca, 0x99d9_679d, 0x7f2e_507b, 0x4c61_24f4), 15, 0x0000_0000, 0xaa96_1312, 0x1fa2_7cf8, 16,
         Regs(0x4c61_24f4, 0x8fae_6399, 0x99d9_679d, 0x7f2e_507b));
    Turn(g, 0x8063_6261, 0x0000_0018, 2, 15, 16, Regs(0x4c61_24f4, 0x8fae_6399, 0x99d9_679d, 0x7f2e_507b), 2, 0x0000_0000, 0x6959_547f, 0xc4ac_5665, 23,
         Regs(0x7f2e_507b, 0x7beb_9700, 0x8fae_6399, 0x99d9_679d));
  }

  lemma Abc7(g: Steps)
    requires TakesSteps(g, 0x8063_6261, 0x0000_0018)
    ensures g(Regs(0x7f2e_507b, 0x7beb_9700, 0x8fae_6399, 0x99d9_679d), 3, 0)
         == g(Regs(0x06cc_5e8a, 0x3bfa_2c27, 0x7d63_2dd0, 0x5b0d_97aa), 3, 8)
  {
    Turn(g, 0x8063_6261, 0x0000_0018, 3, 0, 1, Regs(0x7f2e_507b, 0x7beb_9700, 0x8fae_6399, 0x99d9_679d), 0, 0x8063_6261, 0xf041_fcfb, 0xf429_2244, 6,
         Regs(0x99d9_679d, 0x7b20_1df8, 0x7beb_9700, 0x8fae_6399));
    Turn(g, 0x8063_6261, 0x0000_0018, 3, 1, 2, Regs(0x99d9_679d, 0x7b20_1df8, 0x7beb_9700, 0x8fae_6399), 7, 0x0000_0000, 0x009a_0afe, 0x432a_ff97, 10,
         Regs(0x8fae_6399, 0xf4e8_e96e, 0x7b20_1df8, 0x7beb_9700));
    Turn(g, 0x8063_6261, 0x0000_0018, 3, 2, 3, Regs(0x8fae_6399, 0xf4e8_e96e, 0x7b20_1df8, 0x7beb_9700), 14, 0x0000_0018, 0x8fdc_f407, 0xab94_23a7, 15,
         Regs(0x7beb_9700, 0xb298_cefd, 0xf4e8_e96e, 0x7b20_1df8));
    Turn(g, 0x8063_6261, 0x0000_0018, 3, 3, 4, Regs(0x7beb_9700, 0xb298_cefd, 0xf4e8_e96e, 0x7b20_1df8), 5, 0x0000_0000, 0x4237_0791, 0xfc93_a039, 21,
         Regs(0x7b20_1df8, 0x8bf0_25c4, 0xb298_cefd, 0xf4e8_e96e));
    Turn(g, 0x8063_6261, 0x0000_0018, 3, 4, 5, Regs(0x7b20_1df8, 0x8bf0_25c4, 0xb298_cefd, 0xf4e8_e96e), 12, 0x0000_0000, 0x396f_f928, 0x655b_59c3, 6,
         Regs(0xf4e8_e96e, 0x06cc_5e8a, 0x8bf0_25c4, 0xb298_cefd));
    Turn(g, 0x8063_6261, 0x0000_0018, 3, 5, 6, Regs(0xf4e8_e96e, 0x06cc_5e8a, 0x8bf0_25c4, 0xb298_cefd), 3, 0x0000_0000, 0xc41f_5a4e, 0x8f0c_cc92, 10,
         Regs(0xb298_cefd, 0x5b0d_97aa, 0x06cc_5e8a, 0x8bf0_25c4));
    Turn(g, 0x8063_6261, 0x0000_0018, 3, 6, 7, Regs(0xb298_cefd, 0x5b0d_97aa, 0x06cc_5e8a, 0x8bf0_25c4), 10, 0x0000_0000, 0x79c3_8131, 0xffef_f47d, 15,
         Regs(0x8bf0_25c4, 0x7d63_2dd0, 0x5b0d_97aa, 0x06cc_5e8a));
    Turn(g, 0x8063_6261, 0x0000_0018, 3, 7, 8, Regs(0x8bf0_25c4, 0x7d63_2dd0, 0x5b0d_97aa, 0x06cc_5e8a), 1, 0x0000_0000, 0xa67e_3a5f, 0x8584_5dd1, 21,
         Regs(0x06cc_5e8a, 0x3bfa_2c27, 0x7d63_2dd0, 0x5b0d_97aa));
  }

  lemma Abc8(g: Steps)
    requires TakesSteps(g, 0x8063_6261, 0x0000_0018)
    ensures g(Regs(0x06cc_5e8a, 0x3bfa_2c27, 0x7d63_2dd0, 0x5b0d_97aa), 3, 8)
         == g(Regs(0x310a_de8f, 0xc082_26b3, 0xe484_b9d8, 0x624d_8cb2), 3, 16)
  {
    Turn(g, 0x8063_6261, 0x0000_0018, 3, 8, 9, Regs(0x06cc_5e8a, 0x3bfa_2c27, 0x7d63_2dd0, 0x5b0d_97aa), 8, 0x0000_0000, 0xc299_41a7, 0x6fa8_7e4f, 6,
         Regs(0x5b0d_97aa, 0x7f81_cc35, 0x3bfa_2c27, 0x7d63_2dd0));
    Turn(g, 0x8063_6261, 0x0000_0018, 3, 9, 10, Regs(0x5b0d_97aa, 0x7f81_cc35, 0x3bfa_2c27, 0x7d63_2dd0), 15, 0x0000_0000, 0xc467_f218, 0xfe2c_e6e0, 10,
         Regs(0x7d63_2dd0, 0x0944_54ab, 0x7f81_cc35, 0x3bfa_2c27));
    Turn(g, 0x8063_6261, 0x0000_0018, 3, 10, 11, Regs(0x7d63_2dd0, 0x0944_54ab, 0x7f81_cc35, 0x3bfa_2c27), 6, 0x0000_0000, 0xb2c4_1bce, 0xa301_4314, 15,
         Regs(0x3bfa_2c27, 0x4f9d_be3f, 0x0944_54ab, 0x7f81_cc35));
    Turn(g, 0x8063_6261, 0x0000_0018, 3, 11, 12, Regs(0x3bfa_2c27, 0x4f9d_be3f, 0x0944_54ab, 0x7f81_cc35), 13, 0x0000_0000, 0xc6bb_eb54, 0x4e08_11a1, 21,
         Regs(0x7f81_cc35, 0x7327_d604, 0x4f9d_be3f, 0x0944_54ab));
    Turn(g, 0x8063_6261, 0x0000_0018, 3, 12, 13, Regs(0x7f81_cc35, 0x7327_d604, 0x4f9d_be3f, 0x0944_54ab), 4, 0x0000_0000, 0xb822_416b, 0xf753_7e82, 6,
         Regs(0x0944_54ab, 0x310a_de8f, 0x7327_d604, 0x4f9d_be3f));
    Turn(g, 0x8063_6261, 0x0000_0018, 3, 13, 14, Regs(0x0944_54ab, 0x310a_de8f, 0x7327_d604, 0x4f9d_be3f), 11, 0x0000_0000, 0xc24d_09cb, 0xbd3a_f235, 10,
         Regs(0x4f9d_be3f, 0x624d_8cb2, 0x310a_de8f, 0x7327_d604));
    Turn(g, 0x8063_6261, 0x0000_0018, 3, 14, 15, Regs(0x4f9d_be3f, 0x624d_8cb2, 0x310a_de8f, 0x7327_d604), 2, 0x0000_0000, 0xdfd7_7374, 0x2ad7_d2bb, 15,
         Regs(0x7327_d604, 0xe484_b9d8, 0x624d_8cb2, 0x310a_de8f));
    Turn(g, 0x8063_6261, 0x0000_0018, 3, 15, 16, Regs(0x7327_d604, 0xe484_b9d8, 0x624d_8cb2, 0x310a_de8f), 9, 0x0000_0000, 0x8cb8_354a, 0xeb86_d391, 21,
         Regs(0x310a_de8f, 0xc082_26b3, 0xe484_b9d8, 0x624d_8cb2));
  }

  lemma AbcRounds(g: Steps)
    requires TakesSteps(g, 0x8063_6261, 0x0000_0018) && forall round, r :: NextRound(g, round, r)
    ensures g(Regs(0x6745_2301, 0xefcd_ab89, 0x98ba_dcfe, 0x1032_5476), 0, 0)
         == Regs(0x310a_de8f, 0xc082_26b3, 0xe484_b9d8, 0x624d_8cb2)
  {
    Abc1(g);
    Abc2(g);
    Abc3(g);
    Abc4(g);
    Abc5(g);
    Abc6(g);
    Abc7(g);
    Abc8(g);
    AllRounds(g, Regs(0x6745_2301, 0xefcd_ab89, 0x98ba_dcfe, 0x1032_5476),
              Regs(0xdda9_b9a6, 0x72af_f2e0, 0xe396_856b, 0xa105_1895),
              Regs(0x790a_77fb, 0x7263_42d3, 0xa628_84aa, 0x9f47_e4f8),
              Regs(0x7f2e_507b, 0x7beb_9700, 0x8fae_6399, 0x99d9_679d),
              Regs(0x310a_de8f, 0xc082_26b3, 0xe484_b9d8, 0x624d_8cb2));
  }

  lemma AbcBlock(p: seq<byte>)
    requires Holds(p, 0x8063_6261, 0x0000_0018)
    ensures Compress(INITIAL, p) == Regs(0x9850_0190, 0xb04f_d23c, 0x7d3f_96d6, 0x727f_e128)
  {
    var g := BlockSteps(p, 0x8063_6261, 0x0000_0018);
    AbcRounds(g);
    LiftsStart(g, p, INITIAL, 0);
    WithSteps(p, INITIAL, Regs(0x310a_de8f, 0xc082_26b3, 0xe484_b9d8, 0x624d_8cb2),
              Regs(0x9850_0190, 0xb04f_d23c, 0x7d3f_96d6, 0x727f_e128));
  }

  lemma AbcBytes()
    ensures RegsBytes(Regs(0x9850_0190, 0xb04f_d23c, 0x7d3f_96d6, 0x727f_e128))
         == [0x90, 0x01, 0x50, 0x98, 0x3c, 0xd2, 0x4f, 0xb0, 0xd6, 0x96, 0x3f, 0x7d, 0x28, 0xe1, 0x7f, 0x72]
  {
  }

  lemma NoBytes(p: seq<byte>, k: nat)
    requires |p| == 64 && k < 16 && p[4 * k] == 0 && p[4 * k + 1] == 0 && p[4 * k + 2] == 0 && p[4 * k + 3] == 0
    ensures Word(p, k) == 0
  {
  }

  /** A block that is zero but for its first word and its fifteenth. */
  lemma SmallBlock(p: seq<byte>, first: bv32, length: bv32)
    requires |p| == 64 && forall j | 4 <= j < 64 && (j < 56 || 60 <= j) :: p[j] == 0
    requires Word(p, 0) == first && Word(p, 14) == length
    ensures Holds(p, first, length)
  {
    forall k | 0 <= k < 16
      ensures Word(p, k) == Entry(k, first, length)
    {
      if k != 0 && k != 14 {
        NoBytes(p, k);
      }
    }
  }

  lemma EmptyWords(p: seq<byte>)
    requires |p| == 64 && p[0] == 0x80 && p[1] == 0 && p[2] == 0 && p[3] == 0
    ensures Word(p, 0) == 0x80
  {
  }

  lemma SmallPadded(m: seq<byte>)
    requires |m| < 4
    ensures var p := Padded(m);
            |p| == 64 && p[..|m|] == m && p[|m|] == 0x80 && (forall j | |m| < j < 56 :: p[j] == 0)
            && (p[56] == 8 * |m| as byte) && forall j | 57 <= j < 64 :: p[j] == 0
  {
    SmallLength(8 * |m|);
    SmallCount(|m|);
    SmallParts(m, Zeros(55 - |m|), EightBytes(8 * |m|), Padded(m));
  }

  lemma SmallCount(n: nat)
    requires n < 56
    ensures ZeroCount(n) == 55 - n && 8 * n % WORD == 8 * n
  {
  }

  lemma SmallParts(m: seq<byte>, zeros: seq<byte>, length: seq<byte>, p: seq<byte>)
    requires p == m + [0x80] + zeros + length && |m| + |zeros| == 55 && |length| == 8
    requires forall j | 0 <= j < |zeros| :: zeros[j] == 0
    ensures |p| == 64 && p[..|m|] == m && p[|m|] == 0x80 && (forall j | |m| < j < 56 :: p[j] == 0)
    ensures forall j | 56 <= j < 64 :: p[j] == length[j - 56]
  {
  }

  lemma SmallLength(n: nat)
    requires n < 0x100
    ensures EightBytes(n) == [n, 0, 0, 0, 0, 0, 0, 0]
  {
  }

  lemma EmptyPadded()
    ensures Holds(Padded([]), 0x0000_0080, 0x0000_0000)
  {
    var p := Padded([]);
    SmallPadded([]);
    EmptyWords(p);
    NoBytes(p, 14);
    SmallBlock(p, 0x80, 0);
  }

  lemma AbcWords(p: seq<byte>)
    requires |p| == 64 && p[0] == 0x61 && p[1] == 0x62 && p[2] == 0x63 && p[3] == 0x80
    ensures Word(p, 0) == 0x8063_6261
  {
    Back(0x61, p[0]);
    Back(0x62, p[1]);
    Back(0x63, p[2]);
    Back(0x80, p[3]);
  }

  lemma AbcLength(p: seq<byte>)
    requires |p| == 64 && p[56] == 24 && p[57] == 0 && p[58] == 0 && p[59] == 0
    ensures Word(p, 14) == 24
  {
    Back(24, p[56]);
  }

  lemma AbcPadded()
    ensures Holds(Padded([0x61, 0x62, 0x63]), 0x8063_6261, 0x0000_0018)
  {
    var m: seq<byte> := [0x61, 0x62, 0x63];
    var p := Padded(m);
    SmallPadded(m);
    assert p[0] == m[0] && p[1] == m[1] && p[2] == m[2] by {
      assert forall j | 0 <= j < 3 :: p[j] == p[..3][j];
    }
    AbcWords(p);
    AbcLength(p);
    SmallBlock(p, 0x8063_6261, 24);
  }

  lemma EmptyMessage()
    ensures Digest(OneBlock, []) == [0xd4, 0x1d, 0x8c, 0xd9, 0x8f, 0x00, 0xb2, 0x04, 0xe9, 0x80, 0x09, 0x98, 0xec, 0xf8, 0x42, 0x7e]
  {
    EmptyPadded();
    var p := Padded([]);
    EmptyBlock(p);
    SingleBlock(OneBlock, INITIAL, p);
    EmptyBytes();
  }

  lemma AbcMessage()
    ensures Digest(OneBlock, [0x61, 0x62, 0x63]) == [0x90, 0x01, 0x50, 0x98, 0x3c, 0xd2, 0x4f, 0xb0, 0xd6, 0x96, 0x3f, 0x7d, 0x28, 0xe1, 0x7f, 0x72]
  {
    AbcPadded();
    var p := Padded([0x61, 0x62, 0x63]);
    AbcBlock(p);
    SingleBlock(OneBlock, INITIAL, p);
    AbcBytes();
  }
}
