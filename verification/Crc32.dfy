/**
  The CRC-32 of the archive writer: a table of 256 words, against the bit-by-bit
  division by the reflected polynomial 0xEDB88320.
*/
module Crc32Bits {

  function Xor(x: bv32, y: bv32): bv32 {
    x ^ y
  }

  predicate Odd(x: bv32) {
    x & 1 == 1
  }

  function Half(x: bv32): bv32 {
    x >> 1
  }

  const POLYNOMIAL: bv32 := 0xEDB8_8320

  // One bit of the division.
  function Step(x: bv32): bv32 {
    if Odd(x) then Xor(Half(x), POLYNOMIAL) else Half(x)
  }

  function TwoSteps(x: bv32): bv32 {
    Step(Step(x))
  }

  function FourSteps(x: bv32): bv32 {
    TwoSteps(TwoSteps(x))
  }

  function EightSteps(x: bv32): bv32 {
    FourSteps(FourSteps(x))
  }

  // ----- The step is linear -----

  lemma HalfLinear(a: bv32, b: bv32)
    ensures Half(Xor(a, b)) == Xor(Half(a), Half(b))
  {
  }

  lemma OddLinear(a: bv32, b: bv32)
    ensures Odd(Xor(a, b)) <==> Odd(a) != Odd(b)
  {
    var x, y := a & 1, b & 1;
    assert (a ^ b) & 1 == x ^ y;
    assert (x == 0 || x == 1) && (y == 0 || y == 1);
  }

  lemma XorAssociative(x: bv32, y: bv32, p: bv32)
    ensures Xor(x, Xor(y, p)) == Xor(Xor(x, y), p)
  {
  }

  lemma XorCommutative(x: bv32, y: bv32)
    ensures Xor(x, y) == Xor(y, x)
    ensures Xor(x, x) == 0 && Xor(x, 0) == x
  {
  }

  lemma XorLaws(x: bv32, y: bv32, p: bv32)
    ensures Xor(Xor(x, p), Xor(y, p)) == Xor(x, y)
    ensures Xor(Xor(x, p), y) == Xor(Xor(x, y), p) == Xor(x, Xor(y, p))
  {
    hide Xor;
    XorAssociative(x, y, p);
    XorAssociative(x, p, y);
    XorCommutative(y, p);
    XorAssociative(Xor(x, y), p, p);
    XorAssociative(Xor(x, p), y, p);
    XorCommutative(p, p);
    XorCommutative(Xor(x, y), 0);
  }

  lemma StepLinear(a: bv32, b: bv32)
    ensures Step(Xor(a, b)) == Xor(Step(a), Step(b))
  {
    hide Xor, Odd, Half;
    HalfLinear(a, b);
    OddLinear(a, b);
    XorLaws(Half(a), Half(b), POLYNOMIAL);
  }

  lemma TwoStepsLinear(a: bv32, b: bv32)
    ensures TwoSteps(Xor(a, b)) == Xor(TwoSteps(a), TwoSteps(b))
  {
    hide Step, Xor;
    StepLinear(a, b);
    StepLinear(Step(a), Step(b));
  }

  lemma FourStepsLinear(a: bv32, b: bv32)
    ensures FourSteps(Xor(a, b)) == Xor(FourSteps(a), FourSteps(b))
  {
    hide TwoSteps, Xor;
    TwoStepsLinear(a, b);
    TwoStepsLinear(TwoSteps(a), TwoSteps(b));
  }

  lemma EightStepsLinear(a: bv32, b: bv32)
    ensures EightSteps(Xor(a, b)) == Xor(EightSteps(a), EightSteps(b))
  {
    hide FourSteps, Xor;
    FourStepsLinear(a, b);
    FourStepsLinear(FourSteps(a), FourSteps(b));
  }

  // Eight steps only shift a word whose low byte is clear.
  lemma HighBytesShift(x: bv32)
    requires x & 0xFF == 0
    ensures EightSteps(x) == x >> 8
  {
  }
}

module Crc32Table {
  import opened Crc32Bits

  // ----- The table, in sixteen rows -----

  const ROW_0: seq<bv32> := [
    0x0000_0000, 0x7707_3096, 0xee0e_612c, 0x9909_51ba, 0x076d_c419, 0x706a_f48f, 0xe963_a535, 0x9e64_95a3,
    0x0edb_8832, 0x79dc_b8a4, 0xe0d5_e91e, 0x97d2_d988, 0x09b6_4c2b, 0x7eb1_7cbd, 0xe7b8_2d07, 0x90bf_1d91]
  const ROW_1: seq<bv32> := [
    0x1db7_1064, 0x6ab0_20f2, 0xf3b9_7148, 0x84be_41de, 0x1ada_d47d, 0x6ddd_e4eb, 0xf4d4_b551, 0x83d3_85c7,
    0x136c_9856, 0x646b_a8c0, 0xfd62_f97a, 0x8a65_c9ec, 0x1401_5c4f, 0x6306_6cd9, 0xfa0f_3d63, 0x8d08_0df5]
  const ROW_2: seq<bv32> := [
    0x3b6e_20c8, 0x4c69_105e, 0xd560_41e4, 0xa267_7172, 0x3c03_e4d1, 0x4b04_d447, 0xd20d_85fd, 0xa50a_b56b,
    0x35b5_a8fa, 0x42b2_986c, 0xdbbb_c9d6, 0xacbc_f940, 0x32d8_6ce3, 0x45df_5c75, 0xdcd6_0dcf, 0xabd1_3d59]
  const ROW_3: seq<bv32> := [
    0x26d9_30ac, 0x51de_003a, 0xc8d7_5180, 0xbfd0_6116, 0x21b4_f4b5, 0x56b3_c423, 0xcfba_9599, 0xb8bd_a50f,
    0x2802_b89e, 0x5f05_8808, 0xc60c_d9b2, 0xb10b_e924, 0x2f6f_7c87, 0x5868_4c11, 0xc161_1dab, 0xb666_2d3d]
  const ROW_4: seq<bv32> := [
    0x76dc_4190, 0x01db_7106, 0x98d2_20bc, 0xefd5_102a, 0x71b1_8589, 0x06b6_b51f, 0x9fbf_e4a5, 0xe8b8_d433,
    0x7807_c9a2, 0x0f00_f934, 0x9609_a88e, 0xe10e_9818, 0x7f6a_0dbb, 0x086d_3d2d, 0x9164_6c97, 0xe663_5c01]
  const ROW_5: seq<bv32> := [
    0x6b6b_51f4, 0x1c6c_6162, 0x8565_30d8, 0xf262_004e, 0x6c06_95ed, 0x1b01_a57b, 0x8208_f4c1, 0xf50f_c457,
    0x65b0_d9c6, 0x12b7_e950, 0x8bbe_b8ea, 0xfcb9_887c, 0x62dd_1ddf, 0x15da_2d49, 0x8cd3_7cf3, 0xfbd4_4c65]
  const ROW_6: seq<bv32> := [
    0x4db2_6158, 0x3ab5_51ce, 0xa3bc_0074, 0xd4bb_30e2, 0x4adf_a541, 0x3dd8_95d7, 0xa4d1_c46d, 0xd3d6_f4fb,
    0x4369_e96a, 0x346e_d9fc, 0xad67_8846, 0xda60_b8d0, 0x4404_2d73, 0x3303_1de5, 0xaa0a_4c5f, 0xdd0d_7cc9]
  const ROW_7: seq<bv32> := [
    0x5005_713c, 0x2702_41aa, 0xbe0b_1010, 0xc90c_2086, 0x5768_b525, 0x206f_85b3, 0xb966_d409, 0xce61_e49f,
    0x5ede_f90e, 0x29d9_c998, 0xb0d0_9822, 0xc7d7_a8b4, 0x59b3_3d17, 0x2eb4_0d81, 0xb7bd_5c3b, 0xc0ba_6cad]
  const ROW_8: seq<bv32> := [
    0xedb8_8320, 0x9abf_b3b6, 0x03b6_e20c, 0x74b1_d29a, 0xead5_4739, 0x9dd2_77af, 0x04db_2615, 0x73dc_1683,
    0xe363_0b12, 0x9464_3b84, 0x0d6d_6a3e, 0x7a6a_5aa8, 0xe40e_cf0b, 0x9309_ff9d, 0x0a00_ae27, 0x7d07_9eb1]
  const ROW_9: seq<bv32> := [
    0xf00f_9344, 0x8708_a3d2, 0x1e01_f268, 0x6906_c2fe, 0xf762_575d, 0x8065_67cb, 0x196c_3671, 0x6e6b_06e7,
    0xfed4_1b76, 0x89d3_2be0, 0x10da_7a5a, 0x67dd_4acc, 0xf9b9_df6f, 0x8ebe_eff9, 0x17b7_be43, 0x60b0_8ed5]
  const ROW_A: seq<bv32> := [
    0xd6d6_a3e8, 0xa1d1_937e, 0x38d8_c2c4, 0x4fdf_f252, 0xd1bb_67f1, 0xa6bc_5767, 0x3fb5_06dd, 0x48b2_364b,
    0xd80d_2bda, 0xaf0a_1b4c, 0x3603_4af6, 0x4104_7a60, 0xdf60_efc3, 0xa867_df55, 0x316e_8eef, 0x4669_be79]
  const ROW_B: seq<bv32> := [
    0xcb61_b38c, 0xbc66_831a, 0x256f_d2a0, 0x5268_e236, 0xcc0c_7795, 0xbb0b_4703, 0x2202_16b9, 0x5505_262f,
    0xc5ba_3bbe, 0xb2bd_0b28, 0x2bb4_5a92, 0x5cb3_6a04, 0xc2d7_ffa7, 0xb5d0_cf31, 0x2cd9_9e8b, 0x5bde_ae1d]
  const ROW_C: seq<bv32> := [
    0x9b64_c2b0, 0xec63_f226, 0x756a_a39c, 0x026d_930a, 0x9c09_06a9, 0xeb0e_363f, 0x7207_6785, 0x0500_5713,
    0x95bf_4a82, 0xe2b8_7a14, 0x7bb1_2bae, 0x0cb6_1b38, 0x92d2_8e9b, 0xe5d5_be0d, 0x7cdc_efb7, 0x0bdb_df21]
  const ROW_D: seq<bv32> := [
    0x86d3_d2d4, 0xf1d4_e242, 0x68dd_b3f8, 0x1fda_836e, 0x81be_16cd, 0xf6b9_265b, 0x6fb0_77e1, 0x18b7_4777,
    0x8808_5ae6, 0xff0f_6a70, 0x6606_3bca, 0x1101_0b5c, 0x8f65_9eff, 0xf862_ae69, 0x616b_ffd3, 0x166c_cf45]
  const ROW_E: seq<bv32> := [
    0xa00a_e278, 0xd70d_d2ee, 0x4e04_8354, 0x3903_b3c2, 0xa767_2661, 0xd060_16f7, 0x4969_474d, 0x3e6e_77db,
    0xaed1_6a4a, 0xd9d6_5adc, 0x40df_0b66, 0x37d8_3bf0, 0xa9bc_ae53, 0xdebb_9ec5, 0x47b2_cf7f, 0x30b5_ffe9]
  const ROW_F: seq<bv32> := [
    0xbdbd_f21c, 0xcaba_c28a, 0x53b3_9330, 0x24b4_a3a6, 0xbad0_3605, 0xcdd7_0693, 0x54de_5729, 0x23d9_67bf,
    0xb366_7a2e, 0xc461_4ab8, 0x5d68_1b02, 0x2a6f_2b94, 0xb40b_be37, 0xc30c_8ea1, 0x5a05_df1b, 0x2d02_ef8d]

  function Row(high: bv32): (r: seq<bv32>)
    requires high < 16
    ensures |r| == 16
  {
    if high == 0 then ROW_0
    else if high == 1 then ROW_1
    else if high == 2 then ROW_2
    else if high == 3 then ROW_3
    else if high == 4 then ROW_4
    else if high == 5 then ROW_5
    else if high == 6 then ROW_6
    else if high == 7 then ROW_7
    else if high == 8 then ROW_8
    else if high == 9 then ROW_9
    else if high == 10 then ROW_A
    else if high == 11 then ROW_B
    else if high == 12 then ROW_C
    else if high == 13 then ROW_D
    else if high == 14 then ROW_E
    else ROW_F
  }

  function Column(r: seq<bv32>, low: bv32): bv32
    requires |r| == 16 && low < 16
  {
    if low == 0 then r[0]
    else if low == 1 then r[1]
    else if low == 2 then r[2]
    else if low == 3 then r[3]
    else if low == 4 then r[4]
    else if low == 5 then r[5]
    else if low == 6 then r[6]
    else if low == 7 then r[7]
    else if low == 8 then r[8]
    else if low == 9 then r[9]
    else if low == 10 then r[10]
    else if low == 11 then r[11]
    else if low == 12 then r[12]
    else if low == 13 then r[13]
    else if low == 14 then r[14]
    else r[15]
  }

  function Table(i: bv32): bv32
    requires i < 256
  {
    Column(Row(i >> 4), i & 0xF)
  }

  // ----- The table holds the images of the 256 bytes -----

  lemma FirstSteps(low: bv32)
    requires low < 4
    ensures Column(ROW_0, low) == EightSteps(low)
  {
    if low == 0 { assert EightSteps(0) == 0x0000_0000; }
    else if low == 1 { assert EightSteps(1) == 0x7707_3096; }
    else if low == 2 { assert EightSteps(2) == 0xee0e_612c; }
    else if low == 3 { assert EightSteps(3) == 0x9909_51ba; }
  }

  lemma SecondSteps(low: bv32)
    requires 4 <= low < 8
    ensures Column(ROW_0, low) == EightSteps(low)
  {
    if low == 4 { assert EightSteps(4) == 0x076d_c419; }
    else if low == 5 { assert EightSteps(5) == 0x706a_f48f; }
    else if low == 6 { assert EightSteps(6) == 0xe963_a535; }
    else if low == 7 { assert EightSteps(7) == 0x9e64_95a3; }
  }

  lemma ThirdSteps(low: bv32)
    requires 8 <= low < 12
    ensures Column(ROW_0, low) == EightSteps(low)
  {
    if low == 8 { assert EightSteps(8) == 0x0edb_8832; }
    else if low == 9 { assert EightSteps(9) == 0x79dc_b8a4; }
    else if low == 10 { assert EightSteps(10) == 0xe0d5_e91e; }
    else if low == 11 { assert EightSteps(11) == 0x97d2_d988; }
  }

  lemma FourthSteps(low: bv32)
    requires 12 <= low < 16
    ensures Column(ROW_0, low) == EightSteps(low)
  {
    if low == 12 { assert EightSteps(12) == 0x09b6_4c2b; }
    else if low == 13 { assert EightSteps(13) == 0x7eb1_7cbd; }
    else if low == 14 { assert EightSteps(14) == 0xe7b8_2d07; }
    else if low == 15 { assert EightSteps(15) == 0x90bf_1d91; }
  }

  lemma FirstRow(low: bv32)
    requires low < 16
    ensures Column(ROW_0, low) == EightSteps(low)
  {
    hide Column, EightSteps;
    if low < 4 { FirstSteps(low); }
    else if low < 8 { SecondSteps(low); }
    else if low < 12 { ThirdSteps(low); }
    else { FourthSteps(low); }
  }

  lemma HeadOfRow(high: bv32)
    requires high < 16
    ensures Column(Row(high), 0) == EightSteps(high << 4)
  {
  }

  // Entry by entry, r is the first row, shifted by its own first entry.
  predicate FirstShift(r: seq<bv32>)
    requires |r| == 16
  {
    && r[1] == Xor(r[0], ROW_0[1])
    && r[2] == Xor(r[0], ROW_0[2])
    && r[3] == Xor(r[0], ROW_0[3])
  }

  predicate SecondShift(r: seq<bv32>)
    requires |r| == 16
  {
    && r[4] == Xor(r[0], ROW_0[4])
    && r[5] == Xor(r[0], ROW_0[5])
    && r[6] == Xor(r[0], ROW_0[6])
    && r[7] == Xor(r[0], ROW_0[7])
  }

  predicate ThirdShift(r: seq<bv32>)
    requires |r| == 16
  {
    && r[8] == Xor(r[0], ROW_0[8])
    && r[9] == Xor(r[0], ROW_0[9])
    && r[10] == Xor(r[0], ROW_0[10])
    && r[11] == Xor(r[0], ROW_0[11])
  }

  predicate FourthShift(r: seq<bv32>)
    requires |r| == 16
  {
    && r[12] == Xor(r[0], ROW_0[12])
    && r[13] == Xor(r[0], ROW_0[13])
    && r[14] == Xor(r[0], ROW_0[14])
    && r[15] == Xor(r[0], ROW_0[15])
  }

  predicate IsShift(r: seq<bv32>)
    requires |r| == 16
  {
    FirstShift(r) && SecondShift(r) && ThirdShift(r) && FourthShift(r)
  }

  lemma FirstColumn(r: seq<bv32>, low: bv32)
    requires |r| == 16 && FirstShift(r) && 0 < low < 4
    ensures Column(r, low) == Xor(Column(r, 0), Column(ROW_0, low))
  {
    hide Xor;
  }

  lemma SecondColumn(r: seq<bv32>, low: bv32)
    requires |r| == 16 && SecondShift(r) && 4 <= low < 8
    ensures Column(r, low) == Xor(Column(r, 0), Column(ROW_0, low))
  {
    hide Xor;
  }

  lemma ThirdColumn(r: seq<bv32>, low: bv32)
    requires |r| == 16 && ThirdShift(r) && 8 <= low < 12
    ensures Column(r, low) == Xor(Column(r, 0), Column(ROW_0, low))
  {
    hide Xor;
  }

  lemma FourthColumn(r: seq<bv32>, low: bv32)
    requires |r| == 16 && FourthShift(r) && 12 <= low < 16
    ensures Column(r, low) == Xor(Column(r, 0), Column(ROW_0, low))
  {
    hide Xor;
  }

  lemma ShiftEverywhere(r: seq<bv32>, low: bv32)
    requires |r| == 16 && IsShift(r) && 0 < low < 16
    ensures Column(r, low) == Xor(Column(r, 0), Column(ROW_0, low))
  {
    hide Column, Xor, FirstShift, SecondShift, ThirdShift, FourthShift;
    if low < 4 { FirstColumn(r, low); }
    else if low < 8 { SecondColumn(r, low); }
    else if low < 12 { ThirdColumn(r, low); }
    else { FourthColumn(r, low); }
  }

  lemma Row1()
    ensures IsShift(ROW_1)
  {
  }

  lemma Row2()
    ensures IsShift(ROW_2)
  {
  }

  lemma Row3()
    ensures IsShift(ROW_3)
  {
  }

  lemma Row4()
    ensures IsShift(ROW_4)
  {
  }

  lemma Row5()
    ensures IsShift(ROW_5)
  {
  }

  lemma Row6()
    ensures IsShift(ROW_6)
  {
  }

  lemma Row7()
    ensures IsShift(ROW_7)
  {
  }

  lemma Row8()
    ensures IsShift(ROW_8)
  {
  }

  lemma Row9()
    ensures IsShift(ROW_9)
  {
  }

  lemma RowA()
    ensures IsShift(ROW_A)
  {
  }

  lemma RowB()
    ensures IsShift(ROW_B)
  {
  }

  lemma RowC()
    ensures IsShift(ROW_C)
  {
  }

  lemma RowD()
    ensures IsShift(ROW_D)
  {
  }

  lemma RowE()
    ensures IsShift(ROW_E)
  {
  }

  lemma RowF()
    ensures IsShift(ROW_F)
  {
  }

  // Each row is the first one, shifted by its own first entry.
  lemma RowsAreShifts(high: bv32, low: bv32)
    requires high < 16 && low < 16
    ensures Column(Row(high), low) == Xor(Column(Row(high), 0), Column(ROW_0, low))
  {
    hide Column, Xor, IsShift;
    if high == 0 || low == 0 {
      NoShift(Row(high), low);
    } else {
      RowIsShift(high);
      ShiftEverywhere(Row(high), low);
    }
  }

  lemma NoShift(r: seq<bv32>, low: bv32)
    requires |r| == 16 && low < 16 && (low == 0 || r == ROW_0)
    ensures Column(r, low) == Xor(Column(r, 0), Column(ROW_0, low))
  {
    assert ROW_0[0] == 0;
  }

  lemma RowIsShift(high: bv32)
    requires 0 < high < 16
    ensures IsShift(Row(high))
  {
    hide IsShift;
    if high == 1 { Row1(); }
    else if high == 2 { Row2(); }
    else if high == 3 { Row3(); }
    else if high == 4 { Row4(); }
    else if high == 5 { Row5(); }
    else if high == 6 { Row6(); }
    else if high == 7 { Row7(); }
    else if high == 8 { Row8(); }
    else if high == 9 { Row9(); }
    else if high == 10 { RowA(); }
    else if high == 11 { RowB(); }
    else if high == 12 { RowC(); }
    else if high == 13 { RowD(); }
    else if high == 14 { RowE(); }
    else if high == 15 { RowF(); }
  }

  lemma Nibbles(i: bv32)
    requires i < 256
    ensures i >> 4 < 16 && i & 0xF < 16 && Xor((i >> 4) << 4, i & 0xF) == i
  {
  }

  lemma TableIsEightSteps(i: bv32)
    requires i < 256
    ensures Table(i) == EightSteps(i)
  {
    hide EightSteps, Row, Column, Xor;
    var high, low := i >> 4, i & 0xF;
    Nibbles(i);
    FirstRow(low);
    HeadOfRow(high);
    RowsAreShifts(high, low);
    EightStepsLinear(high << 4, low);
  }
}

module Crc32 {
  import opened Crc32Bits
  import opened Crc32Table

  // A byte enters the low bits, then eight steps.
  function BitwiseUpdate(x: bv32, c: bv8): bv32 {
    EightSteps(Xor(x, c as bv32))
  }

  function Bitwise(x: bv32, buf: seq<bv8>): bv32
  {
    if buf == [] then x else BitwiseUpdate(Bitwise(x, buf[..|buf| - 1]), buf[|buf| - 1])
  }

  // Section 4.4.7 of PKWARE APPNOTE: all ones before, and the complement after.
  function Checksum(buf: seq<bv8>): bv32 {
    !Bitwise(0xFFFF_FFFF, buf)
  }

  function TableUpdate(x: bv32, c: bv8): bv32 {
    Xor(Table((x ^ (c as bv32)) & 0xFF), x >> 8)
  }

  lemma LowByte(x: bv32, c: bv8)
    ensures var y, high := x ^ (c as bv32), (x >> 8) << 8;
            high & 0xFF == 0 && Xor(y & 0xFF, high) == y && high >> 8 == x >> 8 && y & 0xFF < 256
  {
  }

  // One look-up is eight steps of the division.
  lemma TableStep(x: bv32, c: bv8)
    ensures TableUpdate(x, c) == BitwiseUpdate(x, c)
  {
    hide EightSteps, Table;
    var y, high := x ^ (c as bv32), (x >> 8) << 8;
    LowByte(x, c);
    TableIsEightSteps(y & 0xFF);
    EightStepsLinear(y & 0xFF, high);
    HighBytesShift(high);
  }

  method ComputeCRC32(buf: seq<bv8>) returns (r: bv32)
    ensures r == Checksum(buf)
  {
    hide BitwiseUpdate, TableUpdate;
    var x: bv32 := 0xFFFF_FFFF;
    var i := 0;
    while i < |buf|
      invariant 0 <= i <= |buf|
      invariant x == Bitwise(0xFFFF_FFFF, buf[..i])
    {
      var c := buf[i];
      TableStep(x, c);
      assert buf[..i + 1][..i] == buf[..i];
      x := TableUpdate(x, c);
      i := i + 1;
    }
    assert buf[..i] == buf;
    r := !x;
  }
}
