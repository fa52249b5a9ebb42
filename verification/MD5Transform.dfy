/** The block function of RFC 1321, with the tables of the source. */
module MD5Transform {
  import opened Bytes
  import opened MachineWords

  datatype State = State(a: bv32, b: bv32, c: bv32, d: bv32)

  function F(x: bv32, y: bv32, z: bv32): bv32 { (x & y) | (!x & z) }

  function G(x: bv32, y: bv32, z: bv32): bv32 { (x & z) | (y & !z) }

  function H(x: bv32, y: bv32, z: bv32): bv32 { x ^ y ^ z }

  function I(x: bv32, y: bv32, z: bv32): bv32 { y ^ (x | !z) }

  function RotateLeft(x: bv32, n: nat): bv32
    requires n <= 32
  {
    (x << n) | (x >> (32 - n))
  }

  // The shift amounts and the additive constants of the 64 steps, by round.
  const SHIFT1: seq<nat> := [7, 12, 17, 22]
  const SHIFT2: seq<nat> := [5, 9, 14, 20]
  const SHIFT3: seq<nat> := [4, 11, 16, 23]
  const SHIFT4: seq<nat> := [6, 10, 15, 21]
  const T1: seq<bv32> := [
    0xd76a_a478, 0xe8c7_b756, 0x2420_70db, 0xc1bd_ceee, 0xf57c_0faf, 0x4787_c62a, 0xa830_4613, 0xfd46_9501,
    0x6980_98d8, 0x8b44_f7af, 0xffff_5bb1, 0x895c_d7be, 0x6b90_1122, 0xfd98_7193, 0xa679_438e, 0x49b4_0821]
  const T2: seq<bv32> := [
    0xf61e_2562, 0xc040_b340, 0x265e_5a51, 0xe9b6_c7aa, 0xd62f_105d, 0x0244_1453, 0xd8a1_e681, 0xe7d3_fbc8,
    0x21e1_cde6, 0xc337_07d6, 0xf4d5_0d87, 0x455a_14ed, 0xa9e3_e905, 0xfcef_a3f8, 0x676f_02d9, 0x8d2a_4c8a]
  const T3: seq<bv32> := [
    0xfffa_3942, 0x8771_f681, 0x6d9d_6122, 0xfde5_380c, 0xa4be_ea44, 0x4bde_cfa9, 0xf6bb_4b60, 0xbebf_bc70,
    0x289b_7ec6, 0xeaa1_27fa, 0xd4ef_3085, 0x0488_1d05, 0xd9d4_d039, 0xe6db_99e5, 0x1fa2_7cf8, 0xc4ac_5665]
  const T4: seq<bv32> := [
    0xf429_2244, 0x432a_ff97, 0xab94_23a7, 0xfc93_a039, 0x655b_59c3, 0x8f0c_cc92, 0xffef_f47d, 0x8584_5dd1,
    0x6fa8_7e4f, 0xfe2c_e6e0, 0xa301_4314, 0x4e08_11a1, 0xf753_7e82, 0xbd3a_f235, 0x2ad7_d2bb, 0xeb86_d391]

  // One step: the registers turn, and the first one takes a new value.
  function Step(s: State, f: bv32, word: bv32, shift: nat, t: bv32): State
    requires shift <= 32
  {
    State(s.d, s.b + RotateLeft(s.a + f + word + t, shift), s.b, s.c)
  }

  // Section 3.4 of RFC 1321: step j of a round.
  function Next(s: State, x: seq<bv32>, round: nat, j: nat): State
    requires |x| == 16 && 1 <= round <= 4 && j < 16
  {
    if round == 1 then Step(s, F(s.b, s.c, s.d), x[j], SHIFT1[j % 4], T1[j])
    else if round == 2 then Step(s, G(s.b, s.c, s.d), x[(1 + 5 * j) % 16], SHIFT2[j % 4], T2[j])
    else if round == 3 then Step(s, H(s.b, s.c, s.d), x[(5 + 3 * j) % 16], SHIFT3[j % 4], T3[j])
    else Step(s, I(s.b, s.c, s.d), x[7 * j % 16], SHIFT4[j % 4], T4[j])
  }

  // Steps j to 15 of a round.
  function Round(s: State, x: seq<bv32>, round: nat, j: nat): State
    requires |x| == 16 && 1 <= round <= 4 && j <= 16
    decreases 16 - j
  {
    if j == 16 then s else Round(Next(s, x, round, j), x, round, j + 1)
  }

  // Decode: sixteen little-endian words.
  function Words(block: seq<Byte>): (x: seq<bv32>)
    requires |block| == 64
    ensures |x| == 16
  {
    seq(16, i requires 0 <= i < 16 => (Number(block[4 * i..4 * i + 4]) % TWO32) as bv32)
  }

  function Transform(s: State, block: seq<Byte>): State
    requires |block| == 64
  {
    var x := Words(block);
    var r := Round(Round(Round(Round(s, x, 1, 0), x, 2, 0), x, 3, 0), x, 4, 0);
    State(s.a + r.a, s.b + r.b, s.c + r.c, s.d + r.d)
  }

  const INITIAL: State := State(0x6745_2301, 0xefcd_ab89, 0x98ba_dcfe, 0x1032_5476)
}
