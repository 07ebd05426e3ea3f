/** The MD5 transformation: the four round functions and the 64 steps on a block. */
module Md5Body {
  import opened Common

  datatype Regs = Regs(a: bv32, b: bv32, c: bv32, d: bv32)

  function F(x: bv32, y: bv32, z: bv32): bv32 { z ^ (x & (y ^ z)) }

  function G(x: bv32, y: bv32, z: bv32): bv32 { y ^ (z & (x ^ y)) }

  function H(x: bv32, y: bv32, z: bv32): bv32 { x ^ y ^ z }

  function I(x: bv32, y: bv32, z: bv32): bv32 { y ^ (x | !z) }

  function Constant1(i: nat): bv32 {
    if i < 4 then (if i == 0 then 0xd76a_a478 else if i == 1 then 0xe8c7_b756 else if i == 2 then 0x2420_70db else 0xc1bd_ceee)
    else if i < 8 then (if i == 4 then 0xf57c_0faf else if i == 5 then 0x4787_c62a else if i == 6 then 0xa830_4613 else 0xfd46_9501)
    else if i < 12 then (if i == 8 then 0x6980_98d8 else if i == 9 then 0x8b44_f7af else if i == 10 then 0xffff_5bb1 else 0x895c_d7be)
    else if i == 12 then 0x6b90_1122 else if i == 13 then 0xfd98_7193 else if i == 14 then 0xa679_438e else 0x49b4_0821
  }

  function Constant2(i: nat): bv32 {
    if i < 4 then (if i == 0 then 0xf61e_2562 else if i == 1 then 0xc040_b340 else if i == 2 then 0x265e_5a51 else 0xe9b6_c7aa)
    else if i < 8 then (if i == 4 then 0xd62f_105d else if i == 5 then 0x0244_1453 else if i == 6 then 0xd8a1_e681 else 0xe7d3_fbc8)
    else if i < 12 then (if i == 8 then 0x21e1_cde6 else if i == 9 then 0xc337_07d6 else if i == 10 then 0xf4d5_0d87 else 0x455a_14ed)
    else if i == 12 then 0xa9e3_e905 else if i == 13 then 0xfcef_a3f8 else if i == 14 then 0x676f_02d9 else 0x8d2a_4c8a
  }

  function Constant3(i: nat): bv32 {
    if i < 4 then (if i == 0 then 0xfffa_3942 else if i == 1 then 0x8771_f681 else if i == 2 then 0x6d9d_6122 else 0xfde5_380c)
    else if i < 8 then (if i == 4 then 0xa4be_ea44 else if i == 5 then 0x4bde_cfa9 else if i == 6 then 0xf6bb_4b60 else 0xbebf_bc70)
    else if i < 12 then (if i == 8 then 0x289b_7ec6 else if i == 9 then 0xeaa1_27fa else if i == 10 then 0xd4ef_3085 else 0x0488_1d05)
    else if i == 12 then 0xd9d4_d039 else if i == 13 then 0xe6db_99e5 else if i == 14 then 0x1fa2_7cf8 else 0xc4ac_5665
  }

  function Constant4(i: nat): bv32 {
    if i < 4 then (if i == 0 then 0xf429_2244 else if i == 1 then 0x432a_ff97 else if i == 2 then 0xab94_23a7 else 0xfc93_a039)
    else if i < 8 then (if i == 4 then 0x655b_59c3 else if i == 5 then 0x8f0c_cc92 else if i == 6 then 0xffef_f47d else 0x8584_5dd1)
    else if i < 12 then (if i == 8 then 0x6fa8_7e4f else if i == 9 then 0xfe2c_e6e0 else if i == 10 then 0xa301_4314 else 0x4e08_11a1)
    else if i == 12 then 0xf753_7e82 else if i == 13 then 0xbd3a_f235 else if i == 14 then 0x2ad7_d2bb else 0xeb86_d391
  }

  function Constant(round: nat, i: nat): bv32 {
    if round == 0 then Constant1(i) else if round == 1 then Constant2(i) else if round == 2 then Constant3(i) else Constant4(i)
  }

  // Which word of the block a step takes.

  function Index2(i: nat): (k: nat)
    ensures k < 16
  {
    if i < 4 then (if i == 0 then 1 else if i == 1 then 6 else if i == 2 then 11 else 0)
    else if i < 8 then (if i == 4 then 5 else if i == 5 then 10 else if i == 6 then 15 else 4)
    else if i < 12 then (if i == 8 then 9 else if i == 9 then 14 else if i == 10 then 3 else 8)
    else if i == 12 then 13 else if i == 13 then 2 else if i == 14 then 7 else 12
  }

  function Index3(i: nat): (k: nat)
    ensures k < 16
  {
    if i < 4 then (if i == 0 then 5 else if i == 1 then 8 else if i == 2 then 11 else 14)
    else if i < 8 then (if i == 4 then 1 else if i == 5 then 4 else if i == 6 then 7 else 10)
    else if i < 12 then (if i == 8 then 13 else if i == 9 then 0 else if i == 10 then 3 else 6)
    else if i == 12 then 9 else if i == 13 then 12 else if i == 14 then 15 else 2
  }

  function Index4(i: nat): (k: nat)
    ensures k < 16
  {
    if i < 4 then (if i == 0 then 0 else if i == 1 then 7 else if i == 2 then 14 else 5)
    else if i < 8 then (if i == 4 then 12 else if i == 5 then 3 else if i == 6 then 10 else 1)
    else if i < 12 then (if i == 8 then 8 else if i == 9 then 15 else if i == 10 then 6 else 13)
    else if i == 12 then 4 else if i == 13 then 11 else if i == 14 then 2 else 9
  }

  function Index(round: nat, i: nat): (k: nat)
    requires i < 16
    ensures k < 16
  {
    if round == 0 then i else if round == 1 then Index2(i) else if round == 2 then Index3(i) else Index4(i)
  }

  function Shift(round: nat, i: nat): (s: nat)
    ensures 0 < s < 32
  {
    var k := i % 4;
    if round == 0 then (if k == 0 then 7 else if k == 1 then 12 else if k == 2 then 17 else 22)
    else if round == 1 then (if k == 0 then 5 else if k == 1 then 9 else if k == 2 then 14 else 20)
    else if round == 2 then (if k == 0 then 4 else if k == 1 then 11 else if k == 2 then 16 else 23)
    else (if k == 0 then 6 else if k == 1 then 10 else if k == 2 then 15 else 21)
  }

  function Mix(round: nat, x: bv32, y: bv32, z: bv32): bv32 {
    if round == 0 then F(x, y, z) else if round == 1 then G(x, y, z) else if round == 2 then H(x, y, z) else I(x, y, z)
  }

  function Rotated(x: bv32, s: nat): bv32
    requires 0 < s < 32
  {
    (x << s) | (x >> (32 - s))
  }

  /** The sum is turned and added; the registers move on by one place, as the arguments of the steps do. */
  function Turned(r: Regs, m: bv32, word: bv32, k: bv32, s: nat): Regs
    requires 0 < s < 32
  {
    Regs(r.d, Rotated(r.a + m + word + k, s) + r.b, r.b, r.c)
  }

  function Step(r: Regs, round: nat, i: nat, word: bv32): Regs {
    Turned(r, Mix(round, r.b, r.c, r.d), word, Constant(round, i), Shift(round, i))
  }

  // ---- The steps as section 3.4 of RFC 1321 writes them ----

  function RfcFunction(round: nat, x: bv32, y: bv32, z: bv32): bv32 {
    if round == 0 then (x & y) | (!x & z) else if round == 1 then (x & z) | (y & !z)
    else if round == 2 then (x ^ y) ^ z else y ^ (x | !z)
  }

  lemma RoundFunctions(x: bv32, y: bv32, z: bv32)
    ensures F(x, y, z) == (x & y) | (!x & z)
    ensures G(x, y, z) == (x & z) | (y & !z)
    ensures H(x, y, z) == (x ^ y) ^ z && I(x, y, z) == y ^ (x | !z)
  {
  }

  lemma SameFunction(round: nat, x: bv32, y: bv32, z: bv32)
    ensures Mix(round, x, y, z) == RfcFunction(round, x, y, z)
  {
    RoundFunctions(x, y, z);
  }

  lemma StepIs(r: Regs, round: nat, i: nat, word: bv32)
    ensures Step(r, round, i, word)
         == Turned(r, RfcFunction(round, r.b, r.c, r.d), word, Constant(round, i), Shift(round, i))
  {
    SameFunction(round, r.b, r.c, r.d);
  }

  /** The words a round takes are all sixteen, each once, and in the order of the RFC's tables. */
  lemma IndexIs(round: nat, i: nat)
    requires round < 4 && i < 16
    ensures Index(round, i) == (if round == 0 then i else if round == 1 then 5 * i + 1 else if round == 2 then 3 * i + 5 else 7 * i) % 16
    ensures forall j | 0 <= j < 16 && j != i :: Index(round, j) != Index(round, i)
  {
  }

  /** Four bytes as a word, the lowest one first. */
  function Word(p: seq<byte>, n: nat): bv32
    requires 4 * n + 3 < |p|
  {
    (p[4 * n + 3] as bv32 << 24) | (p[4 * n + 2] as bv32 << 16) | (p[4 * n + 1] as bv32 << 8) | p[4 * n] as bv32
  }

  /** The steps from the i-th on. */
  function Steps(r: Regs, p: seq<byte>, i: nat): Regs
    requires |p| == 64 && i <= 64
    decreases 64 - i
  {
    if i == 64 then r else Steps(Step(r, i / 16, i % 16, Word(p, Index(i / 16, i % 16))), p, i + 1)
  }

  function Added(r: Regs, s: Regs): Regs {
    Regs(r.a + s.a, r.b + s.b, r.c + s.c, r.d + s.d)
  }

  /** The registers after one block. */
  function Compress(r: Regs, p: seq<byte>): Regs
    requires |p| == 64
  {
    Added(Steps(r, p, 0), r)
  }
}
