/** The step of the display signature: a 32-bit CRC register that takes 24 data bits at a time. */
module DcicStep {
  import opened Octets
  import opened WordBits

  // The terms of the generator of IEEE 802.3 section 3.2.9 below x^32.
  predicate InPoly(i: nat) {
    i == 26 || i == 23 || i == 22 || i == 16 || i == 12 || i == 11 || i == 10 || i == 8
    || i == 7 || i == 5 || i == 4 || i == 2 || i == 1 || i == 0
  }

  /** ---- The hand-unrolled step ---- */

  // The bit positions that one row of the unrolled matrix adds up.
  datatype Taps = E | T(bit: bv5, rest: Taps)

  // One output bit: the taps into the data word and the taps into the old register.
  datatype Row = Row(data: Taps, register: Taps)

  predicate XorTaps(x: Word, taps: Taps)
    decreases taps
  {
    taps.T? && x[taps.bit as nat] != XorTaps(x, taps.rest)
  }

  function RowOf(i: nat): Row {
    if i < 16 then
      if i < 8 then if i < 4 then RowOf0(i) else RowOf4(i)
      else if i < 12 then RowOf8(i) else RowOf12(i)
    else
      if i < 24 then if i < 20 then RowOf16(i) else RowOf20(i)
      else if i < 28 then RowOf24(i) else RowOf28(i)
  }

  function RowOf0(i: nat): Row {
    if i == 0 then
      Row(T(16, T(12, T(10, T(9, T(6, T(0, E)))))),
          T(8, T(14, T(17, T(18, T(20, T(24, E)))))))
    else if i == 1 then
      Row(T(17, T(16, T(13, T(12, T(11, T(9, T(7, T(6, T(1, T(0, E)))))))))),
          T(8, T(9, T(14, T(15, T(17, T(19, T(20, T(21, T(24, T(25, E)))))))))))
    else if i == 2 then
      Row(T(18, T(17, T(16, T(14, T(13, T(9, T(8, T(7, T(6, T(2, T(1, T(0, E)))))))))))),
          T(8, T(9, T(10, T(14, T(15, T(16, T(17, T(21, T(22, T(24, T(25, T(26, E)))))))))))))
    else
      Row(T(19, T(18, T(17, T(15, T(14, T(10, T(9, T(8, T(7, T(3, T(2, T(1, E)))))))))))),
          T(9, T(10, T(11, T(15, T(16, T(17, T(18, T(22, T(23, T(25, T(26, T(27, E)))))))))))))
  }

  function RowOf4(i: nat): Row {
    if i == 4 then
      Row(T(20, T(19, T(18, T(15, T(12, T(11, T(8, T(6, T(4, T(3, T(2, T(0, E)))))))))))),
          T(8, T(10, T(11, T(12, T(14, T(16, T(19, T(20, T(23, T(26, T(27, T(28, E)))))))))))))
    else if i == 5 then
      Row(T(21, T(20, T(19, T(13, T(10, T(7, T(6, T(5, T(4, T(3, T(1, T(0, E)))))))))))),
          T(8, T(9, T(11, T(12, T(13, T(14, T(15, T(18, T(21, T(27, T(28, T(29, E)))))))))))))
    else if i == 6 then
      Row(T(22, T(21, T(20, T(14, T(11, T(8, T(7, T(6, T(5, T(4, T(2, T(1, E)))))))))))),
          T(9, T(10, T(12, T(13, T(14, T(15, T(16, T(19, T(22, T(28, T(29, T(30, E)))))))))))))
    else
      Row(T(23, T(22, T(21, T(16, T(15, T(10, T(8, T(7, T(5, T(3, T(2, T(0, E)))))))))))),
          T(8, T(10, T(11, T(13, T(15, T(16, T(18, T(23, T(24, T(29, T(30, T(31, E)))))))))))))
  }

  function RowOf8(i: nat): Row {
    if i == 8 then
      Row(T(23, T(22, T(17, T(12, T(11, T(10, T(8, T(4, T(3, T(1, T(0, E))))))))))),
          T(8, T(9, T(11, T(12, T(16, T(18, T(19, T(20, T(25, T(30, T(31, E))))))))))))
    else if i == 9 then
      Row(T(23, T(18, T(13, T(12, T(11, T(9, T(5, T(4, T(2, T(1, E)))))))))),
          T(9, T(10, T(12, T(13, T(17, T(19, T(20, T(21, T(26, T(31, E)))))))))))
    else if i == 10 then
      Row(T(19, T(16, T(14, T(13, T(9, T(5, T(3, T(2, T(0, E))))))))),
          T(8, T(10, T(11, T(13, T(17, T(21, T(22, T(24, T(27, E))))))))))
    else
      Row(T(20, T(17, T(16, T(15, T(14, T(12, T(9, T(4, T(3, T(1, T(0, E))))))))))),
          T(8, T(9, T(11, T(12, T(17, T(20, T(22, T(23, T(24, T(25, T(28, E))))))))))))
  }

  function RowOf12(i: nat): Row {
    if i == 12 then
      Row(T(21, T(18, T(17, T(15, T(13, T(12, T(9, T(6, T(5, T(4, T(2, T(1, T(0, E))))))))))))),
          T(8, T(9, T(10, T(12, T(13, T(14, T(17, T(20, T(21, T(23, T(25, T(26, T(29, E))))))))))))))
    else if i == 13 then
      Row(T(22, T(19, T(18, T(16, T(14, T(13, T(10, T(7, T(6, T(5, T(3, T(2, T(1, E))))))))))))),
          T(9, T(10, T(11, T(13, T(14, T(15, T(18, T(21, T(22, T(24, T(26, T(27, T(30, E))))))))))))))
    else if i == 14 then
      Row(T(23, T(20, T(19, T(17, T(15, T(14, T(11, T(8, T(7, T(6, T(4, T(3, T(2, E))))))))))))),
          T(10, T(11, T(12, T(14, T(15, T(16, T(19, T(22, T(23, T(25, T(27, T(28, T(31, E))))))))))))))
    else
      Row(T(21, T(20, T(18, T(16, T(15, T(12, T(9, T(8, T(7, T(5, T(4, T(3, E)))))))))))),
          T(11, T(12, T(13, T(15, T(16, T(17, T(20, T(23, T(24, T(26, T(28, T(29, E)))))))))))))
  }

  function RowOf16(i: nat): Row {
    if i == 16 then
      Row(T(22, T(21, T(19, T(17, T(13, T(12, T(8, T(5, T(4, T(0, E)))))))))),
          T(8, T(12, T(13, T(16, T(20, T(21, T(25, T(27, T(29, T(30, E)))))))))))
    else if i == 17 then
      Row(T(23, T(22, T(20, T(18, T(14, T(13, T(9, T(6, T(5, T(1, E)))))))))),
          T(9, T(13, T(14, T(17, T(21, T(22, T(26, T(28, T(30, T(31, E)))))))))))
    else if i == 18 then
      Row(T(23, T(21, T(19, T(15, T(14, T(10, T(7, T(6, T(2, E))))))))),
          T(10, T(14, T(15, T(18, T(22, T(23, T(27, T(29, T(31, E))))))))))
    else
      Row(T(22, T(20, T(16, T(15, T(11, T(8, T(7, T(3, E)))))))),
          T(11, T(15, T(16, T(19, T(23, T(24, T(28, T(30, E)))))))))
  }

  function RowOf20(i: nat): Row {
    if i == 20 then
      Row(T(23, T(21, T(17, T(16, T(12, T(9, T(8, T(4, E)))))))),
          T(12, T(16, T(17, T(20, T(24, T(25, T(29, T(31, E)))))))))
    else if i == 21 then
      Row(T(22, T(18, T(17, T(13, T(10, T(9, T(5, E))))))),
          T(13, T(17, T(18, T(21, T(25, T(26, T(30, E))))))))
    else if i == 22 then
      Row(T(23, T(19, T(18, T(16, T(14, T(12, T(11, T(9, T(0, E))))))))),
          T(8, T(17, T(19, T(20, T(22, T(24, T(26, T(27, T(31, E))))))))))
    else
      Row(T(20, T(19, T(17, T(16, T(15, T(13, T(9, T(6, T(1, T(0, E)))))))))),
          T(8, T(9, T(14, T(17, T(21, T(23, T(24, T(25, T(27, T(28, E)))))))))))
  }

  function RowOf24(i: nat): Row {
    if i == 24 then
      Row(T(21, T(20, T(18, T(17, T(16, T(14, T(10, T(7, T(2, T(1, E)))))))))),
          T(0, T(9, T(10, T(15, T(18, T(22, T(24, T(25, T(26, T(28, T(29, E))))))))))))
    else if i == 25 then
      Row(T(22, T(21, T(19, T(18, T(17, T(15, T(11, T(8, T(3, T(2, E)))))))))),
          T(1, T(10, T(11, T(16, T(19, T(23, T(25, T(26, T(27, T(29, T(30, E))))))))))))
    else if i == 26 then
      Row(T(23, T(22, T(20, T(19, T(18, T(10, T(6, T(4, T(3, T(0, E)))))))))),
          T(2, T(8, T(11, T(12, T(14, T(18, T(26, T(27, T(28, T(30, T(31, E))))))))))))
    else
      Row(T(23, T(21, T(20, T(19, T(11, T(7, T(5, T(4, T(1, E))))))))),
          T(3, T(9, T(12, T(13, T(15, T(19, T(27, T(28, T(29, T(31, E)))))))))))
  }

  function RowOf28(i: nat): Row {
    if i == 28 then
      Row(T(22, T(21, T(20, T(12, T(8, T(6, T(5, T(2, E)))))))),
          T(4, T(10, T(13, T(14, T(16, T(20, T(28, T(29, T(30, E))))))))))
    else if i == 29 then
      Row(T(23, T(22, T(21, T(13, T(9, T(7, T(6, T(3, E)))))))),
          T(5, T(11, T(14, T(15, T(17, T(21, T(29, T(30, T(31, E))))))))))
    else if i == 30 then
      Row(T(23, T(22, T(14, T(10, T(8, T(7, T(4, E))))))),
          T(6, T(12, T(15, T(16, T(18, T(22, T(30, T(31, E)))))))))
    else
      Row(T(23, T(15, T(11, T(9, T(8, T(5, E)))))),
          T(7, T(13, T(16, T(17, T(19, T(23, T(31, E))))))))
  }

  // Bit i of the result is the sum of the taps of row i.
  function CalcSingle24(crcIn: Word, dataIn: Word): Word {
    seq(32, i requires 0 <= i < 32 => XorTaps(dataIn, RowOf(i).data) != XorTaps(crcIn, RowOf(i).register))
  }

  /** ---- The bit-serial register ---- */

  function Feedback(b: bool): Word {
    seq(32, i requires 0 <= i < 32 => b && InPoly(i))
  }

  // One clock of the register: shift out the top bit, add it to the incoming bit, feed back the generator.
  function Clock(crc: Word, bit: bool): Word {
    Xor(Shl(crc, 1), Feedback(crc[31] != bit))
  }

  // Clock in the bits n-1, ..., 0 of data, most significant first.
  function Serial(crc: Word, data: Word, n: nat): Word
    requires n <= 32
    decreases n
  {
    if n == 0 then crc else Serial(Clock(crc, data[n - 1]), data, n - 1)
  }

  // n clocks with zeros coming in.
  function Advance(r: Word, n: nat): Word
    decreases n
  {
    if n == 0 then r else Advance(Clock(r, false), n - 1)
  }

  /** ---- The data enter through the top of the register ---- */

  // The register with the n pending data bits added into its top.
  function Merge(crc: Word, data: Word, n: nat): Word
    requires n <= 32
  {
    Xor(crc, Shl(data, 32 - n))
  }

  lemma MergeTop(crc: Word, data: Word, n: nat)
    requires 0 < n <= 32
    ensures Merge(Clock(crc, data[n - 1]), data, n - 1) == Clock(Merge(crc, data, n), false)
  {}

  lemma MergeNothing(crc: Word, data: Word)
    ensures Merge(crc, data, 0) == crc
  {}

  lemma {:induction false} SerialIsAdvance(crc: Word, data: Word, n: nat)
    requires n <= 32
    ensures Serial(crc, data, n) == Advance(Merge(crc, data, n), n)
    decreases n
  {
    hide Clock, Merge;
    if n == 0 {
      MergeNothing(crc, data);
    } else {
      MergeTop(crc, data, n);
      SerialIsAdvance(Clock(crc, data[n - 1]), data, n - 1);
    }
  }

  /** ---- Adjoint masks: which register bits an output bit depends on ---- */

  predicate PolyHigh(m: bv32) {
    ((m >> 26) ^ (m >> 23) ^ (m >> 22) ^ (m >> 16)) & 1 == 1
  }

  predicate PolyUpper(m: bv32) {
    ((m >> 12) ^ (m >> 11) ^ (m >> 10) ^ (m >> 8)) & 1 == 1
  }

  predicate PolyLower(m: bv32) {
    ((m >> 7) ^ (m >> 5) ^ (m >> 4)) & 1 == 1
  }

  predicate PolyLow(m: bv32) {
    ((m >> 2) ^ (m >> 1) ^ m) & 1 == 1
  }

  // The parity of the bits of m at the terms of the generator.
  predicate PolyDot(m: bv32) {
    PolyHigh(m) != (PolyUpper(m) != (PolyLower(m) != PolyLow(m)))
  }

  function Adjoint(m: bv32): bv32 {
    (m >> 1) ^ (if PolyDot(m) then 0x8000_0000 else 0)
  }

  function Adjoint8(m: bv32): bv32 {
    Adjoint(Adjoint(Adjoint(Adjoint(Adjoint(Adjoint(Adjoint(Adjoint(m))))))))
  }

  function Adjoint24(m: bv32): bv32 {
    Adjoint8(Adjoint8(Adjoint8(m)))
  }

  function Mask(taps: Taps): bv32 {
    if taps.E? then 0 else (1 << taps.bit) ^ Mask(taps.rest)
  }

  lemma MaskStep(taps: Taps)
    requires taps.T?
    ensures Bits(Mask(taps)) == Xor(Hot(taps.bit as nat), Bits(Mask(taps.rest)))
  {
    hide Bits;
    BitsHot(taps.bit);
    BitsXor(1 << taps.bit, Mask(taps.rest));
  }

  lemma {:induction false} TapsAreMask(x: Word, taps: Taps)
    ensures XorTaps(x, taps) == Dot(x, Bits(Mask(taps)))
  {
    hide Bits;
    if taps.E? {
      BitsZero();
      DotLowZero(x, 32);
    } else {
      hide Mask;
      MaskStep(taps);
      TapsAreMask(x, taps.rest);
      DotLowHot(x, taps.bit as nat, 32);
      DotLowXor(x, Hot(taps.bit as nat), Bits(Mask(taps.rest)), 32);
    }
  }

  /** ---- Row by row, the taps of the matrix are the adjoint masks ---- */

  function OneBit(i: nat): bv32
    requires i < 32
  {
    1 << (i as bv5)
  }

  lemma BitsOneBit(i: nat)
    requires i < 32
    ensures Bits(OneBit(i)) == Hot(i)
  {
    hide Bits;
    BitsHot(i as bv5);
  }

  predicate RowMatches(i: nat)
    requires i < 32
  {
    Mask(RowOf(i).register) == Adjoint24(OneBit(i)) && Mask(RowOf(i).data) == DropByte(Mask(RowOf(i).register))
  }

  lemma RowsMatch0()
    ensures RowMatches(0) && RowMatches(1)
  {
    assert Mask(RowOf(0).register) == 0x0116_4100 && Mask(RowOf(0).data) == 0x0001_1641 && Adjoint24(0x0000_0001) == 0x0116_4100;
    assert Mask(RowOf(1).register) == 0x033A_C300 && Mask(RowOf(1).data) == 0x0003_3AC3 && Adjoint24(0x0000_0002) == 0x033A_C300;
  }

  lemma RowsMatch1()
    ensures RowMatches(2) && RowMatches(3)
  {
    assert Mask(RowOf(2).register) == 0x0763_C700 && Mask(RowOf(2).data) == 0x0007_63C7 && Adjoint24(0x0000_0004) == 0x0763_C700;
    assert Mask(RowOf(3).register) == 0x0EC7_8E00 && Mask(RowOf(3).data) == 0x000E_C78E && Adjoint24(0x0000_0008) == 0x0EC7_8E00;
  }

  lemma RowsMatch2()
    ensures RowMatches(4) && RowMatches(5)
  {
    assert Mask(RowOf(4).register) == 0x1C99_5D00 && Mask(RowOf(4).data) == 0x001C_995D && Adjoint24(0x0000_0010) == 0x1C99_5D00;
    assert Mask(RowOf(5).register) == 0x3824_FB00 && Mask(RowOf(5).data) == 0x0038_24FB && Adjoint24(0x0000_0020) == 0x3824_FB00;
  }

  lemma RowsMatch3()
    ensures RowMatches(6) && RowMatches(7)
  {
    assert Mask(RowOf(6).register) == 0x7049_F600 && Mask(RowOf(6).data) == 0x0070_49F6 && Adjoint24(0x0000_0040) == 0x7049_F600;
    assert Mask(RowOf(7).register) == 0xE185_AD00 && Mask(RowOf(7).data) == 0x00E1_85AD && Adjoint24(0x0000_0080) == 0xE185_AD00;
  }

  lemma RowsMatch4()
    ensures RowMatches(8) && RowMatches(9)
  {
    assert Mask(RowOf(8).register) == 0xC21D_1B00 && Mask(RowOf(8).data) == 0x00C2_1D1B && Adjoint24(0x0000_0100) == 0xC21D_1B00;
    assert Mask(RowOf(9).register) == 0x843A_3600 && Mask(RowOf(9).data) == 0x0084_3A36 && Adjoint24(0x0000_0200) == 0x843A_3600;
  }

  lemma RowsMatch5()
    ensures RowMatches(10) && RowMatches(11)
  {
    assert Mask(RowOf(10).register) == 0x0962_2D00 && Mask(RowOf(10).data) == 0x0009_622D && Adjoint24(0x0000_0400) == 0x0962_2D00;
    assert Mask(RowOf(11).register) == 0x13D2_1B00 && Mask(RowOf(11).data) == 0x0013_D21B && Adjoint24(0x0000_0800) == 0x13D2_1B00;
  }

  lemma RowsMatch6()
    ensures RowMatches(12) && RowMatches(13)
  {
    assert Mask(RowOf(12).register) == 0x26B2_7700 && Mask(RowOf(12).data) == 0x0026_B277 && Adjoint24(0x0000_1000) == 0x26B2_7700;
    assert Mask(RowOf(13).register) == 0x4D64_EE00 && Mask(RowOf(13).data) == 0x004D_64EE && Adjoint24(0x0000_2000) == 0x4D64_EE00;
  }

  lemma RowsMatch7()
    ensures RowMatches(14) && RowMatches(15)
  {
    assert Mask(RowOf(14).register) == 0x9AC9_DC00 && Mask(RowOf(14).data) == 0x009A_C9DC && Adjoint24(0x0000_4000) == 0x9AC9_DC00;
    assert Mask(RowOf(15).register) == 0x3593_B800 && Mask(RowOf(15).data) == 0x0035_93B8 && Adjoint24(0x0000_8000) == 0x3593_B800;
  }

  lemma RowsMatch8()
    ensures RowMatches(16) && RowMatches(17)
  {
    assert Mask(RowOf(16).register) == 0x6A31_3100 && Mask(RowOf(16).data) == 0x006A_3131 && Adjoint24(0x0001_0000) == 0x6A31_3100;
    assert Mask(RowOf(17).register) == 0xD462_6200 && Mask(RowOf(17).data) == 0x00D4_6262 && Adjoint24(0x0002_0000) == 0xD462_6200;
  }

  lemma RowsMatch9()
    ensures RowMatches(18) && RowMatches(19)
  {
    assert Mask(RowOf(18).register) == 0xA8C4_C400 && Mask(RowOf(18).data) == 0x00A8_C4C4 && Adjoint24(0x0004_0000) == 0xA8C4_C400;
    assert Mask(RowOf(19).register) == 0x5189_8800 && Mask(RowOf(19).data) == 0x0051_8988 && Adjoint24(0x0008_0000) == 0x5189_8800;
  }

  lemma RowsMatch10()
    ensures RowMatches(20) && RowMatches(21)
  {
    assert Mask(RowOf(20).register) == 0xA313_1000 && Mask(RowOf(20).data) == 0x00A3_1310 && Adjoint24(0x0010_0000) == 0xA313_1000;
    assert Mask(RowOf(21).register) == 0x4626_2000 && Mask(RowOf(21).data) == 0x0046_2620 && Adjoint24(0x0020_0000) == 0x4626_2000;
  }

  lemma RowsMatch11()
    ensures RowMatches(22) && RowMatches(23)
  {
    assert Mask(RowOf(22).register) == 0x8D5A_0100 && Mask(RowOf(22).data) == 0x008D_5A01 && Adjoint24(0x0040_0000) == 0x8D5A_0100;
    assert Mask(RowOf(23).register) == 0x1BA2_4300 && Mask(RowOf(23).data) == 0x001B_A243 && Adjoint24(0x0080_0000) == 0x1BA2_4300;
  }

  lemma RowsMatch12()
    ensures RowMatches(24) && RowMatches(25)
  {
    assert Mask(RowOf(24).register) == 0x3744_8601 && Mask(RowOf(24).data) == 0x0037_4486 && Adjoint24(0x0100_0000) == 0x3744_8601;
    assert Mask(RowOf(25).register) == 0x6E89_0C02 && Mask(RowOf(25).data) == 0x006E_890C && Adjoint24(0x0200_0000) == 0x6E89_0C02;
  }

  lemma RowsMatch13()
    ensures RowMatches(26) && RowMatches(27)
  {
    assert Mask(RowOf(26).register) == 0xDC04_5904 && Mask(RowOf(26).data) == 0x00DC_0459 && Adjoint24(0x0400_0000) == 0xDC04_5904;
    assert Mask(RowOf(27).register) == 0xB808_B208 && Mask(RowOf(27).data) == 0x00B8_08B2 && Adjoint24(0x0800_0000) == 0xB808_B208;
  }

  lemma RowsMatch14()
    ensures RowMatches(28) && RowMatches(29)
  {
    assert Mask(RowOf(28).register) == 0x7011_6410 && Mask(RowOf(28).data) == 0x0070_1164 && Adjoint24(0x1000_0000) == 0x7011_6410;
    assert Mask(RowOf(29).register) == 0xE022_C820 && Mask(RowOf(29).data) == 0x00E0_22C8 && Adjoint24(0x2000_0000) == 0xE022_C820;
  }

  lemma RowsMatch15()
    ensures RowMatches(30) && RowMatches(31)
  {
    assert Mask(RowOf(30).register) == 0xC045_9040 && Mask(RowOf(30).data) == 0x00C0_4590 && Adjoint24(0x4000_0000) == 0xC045_9040;
    assert Mask(RowOf(31).register) == 0x808B_2080 && Mask(RowOf(31).data) == 0x0080_8B20 && Adjoint24(0x8000_0000) == 0x808B_2080;
  }

  lemma LowRowMatches(i: nat)
    requires 0 <= i < 16
    ensures RowMatches(i)
  {
    hide RowMatches;
    RowsMatch0(); RowsMatch1(); RowsMatch2(); RowsMatch3();
    RowsMatch4(); RowsMatch5(); RowsMatch6(); RowsMatch7();
  }

  lemma HighRowMatches(i: nat)
    requires 16 <= i < 32
    ensures RowMatches(i)
  {
    hide RowMatches;
    RowsMatch8(); RowsMatch9(); RowsMatch10(); RowsMatch11();
    RowsMatch12(); RowsMatch13(); RowsMatch14(); RowsMatch15();
  }

  /** ---- A clock and its adjoint ---- */

  lemma {:induction false} DotSkip(x: Word, y: Word, lo: nat, hi: nat)
    requires lo <= hi <= 32
    requires forall i | lo <= i < hi :: !x[i]
    ensures DotLow(x, y, hi) == DotLow(x, y, lo)
    decreases hi
  {
    if lo < hi { DotSkip(x, y, lo, hi - 1); }
  }

  lemma FeedbackDot(y: Word)
    ensures Dot(Feedback(true), y) == (y[26] != (y[23] != (y[22] != (y[16] != (y[12] != (y[11] != (y[10] != (y[8] !=
      (y[7] != (y[5] != (y[4] != (y[2] != (y[1] != y[0])))))))))))))
  {
    var x := Feedback(true);
    DotSkip(x, y, 27, 32);
    assert DotLow(x, y, 27) == (y[26] != DotLow(x, y, 26));
    DotSkip(x, y, 24, 26);
    assert DotLow(x, y, 24) == (y[23] != (y[22] != DotLow(x, y, 22)));
    DotSkip(x, y, 17, 22);
    assert DotLow(x, y, 17) == (y[16] != DotLow(x, y, 16));
    DotSkip(x, y, 13, 16);
    FeedbackDotLow(x, y);
  }

  lemma FeedbackDotLow(x: Word, y: Word)
    requires x == Feedback(true)
    ensures DotLow(x, y, 13) == (y[12] != (y[11] != (y[10] != (y[8] != (y[7] != (y[5] != (y[4] != (y[2] != (y[1] != y[0])))))))))
  {
    assert DotLow(x, y, 13) == (y[12] != (y[11] != DotLow(x, y, 11)));
    assert DotLow(x, y, 11) == (y[10] != DotLow(x, y, 10)) && DotLow(x, y, 10) == DotLow(x, y, 9);
    assert DotLow(x, y, 9) == (y[8] != (y[7] != DotLow(x, y, 7)));
    assert DotLow(x, y, 7) == DotLow(x, y, 6) && DotLow(x, y, 6) == (y[5] != (y[4] != DotLow(x, y, 4)));
    assert DotLow(x, y, 4) == DotLow(x, y, 3) && DotLow(x, y, 3) == (y[2] != (y[1] != DotLow(x, y, 1)));
    assert DotLow(x, y, 1) == y[0];
  }

  lemma PolyBits(m: bv32)
    ensures PolyHigh(m) == (Bit(m, 26) != (Bit(m, 23) != (Bit(m, 22) != Bit(m, 16))))
    ensures PolyUpper(m) == (Bit(m, 12) != (Bit(m, 11) != (Bit(m, 10) != Bit(m, 8))))
    ensures PolyLower(m) == (Bit(m, 7) != (Bit(m, 5) != Bit(m, 4)))
    ensures PolyLow(m) == (Bit(m, 2) != (Bit(m, 1) != Bit(m, 0)))
  {}

  lemma PolyTaps(m: bv32)
    ensures PolyDot(m) == Dot(Feedback(true), Bits(m))
  {
    hide Bit, PolyHigh, PolyUpper, PolyLower, PolyLow, Dot;
    FeedbackDot(Bits(m));
    PolyBits(m);
  }

  lemma AdjointParts(m: bv32)
    ensures PolyDot(m) ==> Adjoint(m) == XorBits(Half(m), 0x8000_0000)
    ensures !PolyDot(m) ==> Adjoint(m) == Half(m)
  {
    hide PolyDot;
    NoFlip(m >> 1);
  }

  lemma NoFlip(x: bv32)
    ensures x ^ 0 == x
  {}

  lemma AdjointBits(m: bv32)
    ensures Bits(Adjoint(m)) == if PolyDot(m) then Xor(Shr(Bits(m), 1), Hot(31)) else Shr(Bits(m), 1)
  {
    hide Bits, PolyDot, Half, XorBits, Adjoint;
    AdjointParts(m);
    BitsHalf(m);
    BitsTop();
    BitsXor(Half(m), 0x8000_0000);
  }

  lemma BitsTop()
    ensures Bits(0x8000_0000) == Hot(31)
  {
    BitsHot(31);
  }

  lemma ClockDual(r: Word, m: bv32)
    ensures Dot(Clock(r, false), Bits(m)) == Dot(r, Bits(Adjoint(m)))
  {
    hide Bits, PolyDot;
    var y := Bits(m);
    DotXor(Shl(r, 1), Feedback(r[31]), y);
    DotShift(r, y, 1);
    AdjointBits(m);
    DotLowXor(r, Shr(y, 1), Hot(31), 32);
    PolyTaps(m);
    DotLowHot(r, 31, 32);
    if !r[31] {
      assert Feedback(r[31]) == Zero();
      DotLowZero(y, 32);
      DotLowSymmetric(y, Zero(), 32);
    }
  }

  function AdjointN(m: bv32, n: nat): bv32 {
    if n == 0 then m else Adjoint(AdjointN(m, n - 1))
  }

  lemma {:induction false} AdvanceDual(r: Word, m: bv32, n: nat)
    ensures Dot(Advance(r, n), Bits(m)) == Dot(r, Bits(AdjointN(m, n)))
    decreases n
  {
    hide Dot, Clock, Adjoint, Bits;
    if n != 0 {
      AdvanceDual(Clock(r, false), m, n - 1);
      ClockDual(r, AdjointN(m, n - 1));
    }
  }

  lemma AdjointEight(m: bv32, n: nat)
    ensures AdjointN(m, n + 8) == Adjoint8(AdjointN(m, n))
  {
    hide Adjoint;
    assert AdjointN(m, n + 2) == Adjoint(Adjoint(AdjointN(m, n)));
    assert AdjointN(m, n + 4) == Adjoint(Adjoint(AdjointN(m, n + 2)));
    assert AdjointN(m, n + 6) == Adjoint(Adjoint(AdjointN(m, n + 4)));
  }

  lemma AdjointTwentyFour(m: bv32)
    ensures AdjointN(m, 24) == Adjoint24(m)
  {
    hide Adjoint8;
    AdjointEight(m, 0);
    AdjointEight(m, 8);
    AdjointEight(m, 16);
  }

  /** ---- The unrolled step is 24 clocks ---- */

  lemma DataTaps(dataIn: Word, m: bv32)
    ensures Dot(dataIn, Bits(DropByte(m))) == Dot(Shl(dataIn, 8), Bits(m))
  {
    hide Bits, Dot, DropByte;
    BitsDropByte(m);
    DotShift(dataIn, Bits(m), 8);
  }

  lemma RowDot(crcIn: Word, dataIn: Word, row: Row)
    requires Mask(row.data) == DropByte(Mask(row.register))
    ensures (XorTaps(dataIn, row.data) != XorTaps(crcIn, row.register)) == Dot(Merge(crcIn, dataIn, 24), Bits(Mask(row.register)))
  {
    hide Dot, Bits, Mask, XorTaps, DropByte;
    TapsAreMask(dataIn, row.data);
    TapsAreMask(crcIn, row.register);
    DataTaps(dataIn, Mask(row.register));
    DotXor(crcIn, Shl(dataIn, 8), Bits(Mask(row.register)));
  }

  lemma BitOfAdvance(r: Word, i: nat)
    requires i < 32
    ensures Advance(r, 24)[i] == Dot(r, Bits(Adjoint24(OneBit(i))))
  {
    hide Dot, Bits, Adjoint24, Advance, OneBit;
    AdvanceDual(r, OneBit(i), 24);
    AdjointTwentyFour(OneBit(i));
    BitsOneBit(i);
    DotHot(Advance(r, 24), i);
  }

  lemma RowIsAdvance(crcIn: Word, dataIn: Word, i: nat)
    requires i < 32
    ensures CalcSingle24(crcIn, dataIn)[i] == Advance(Merge(crcIn, dataIn, 24), 24)[i]
  {
    hide Dot, Bits, Adjoint24, Mask, RowOf, Advance, XorTaps, OneBit, Merge, DropByte;
    if i < 16 { LowRowMatches(i); } else { HighRowMatches(i); }
    RowDot(crcIn, dataIn, RowOf(i));
    BitOfAdvance(Merge(crcIn, dataIn, 24), i);
  }

  lemma StepIsAdvance(crcIn: Word, dataIn: Word)
    ensures CalcSingle24(crcIn, dataIn) == Advance(Merge(crcIn, dataIn, 24), 24)
  {
    hide CalcSingle24, Advance, Merge;
    forall i | 0 <= i < 32
      ensures CalcSingle24(crcIn, dataIn)[i] == Advance(Merge(crcIn, dataIn, 24), 24)[i]
    {
      RowIsAdvance(crcIn, dataIn, i);
    }
  }

  // For every register and every word: the XOR matrix is 24 clocks of the bit-serial register.
  lemma UnrolledIsSerial(crcIn: Word, dataIn: Word)
    ensures CalcSingle24(crcIn, dataIn) == Serial(crcIn, dataIn, 24)
  {
    StepIsAdvance(crcIn, dataIn);
    SerialIsAdvance(crcIn, dataIn, 24);
  }

  // The top byte of the data word never matters.
  lemma TopByteIgnored(crcIn: Word, dataIn: Word, dataIn': Word)
    requires dataIn[..24] == dataIn'[..24]
    ensures CalcSingle24(crcIn, dataIn) == CalcSingle24(crcIn, dataIn')
  {
    hide CalcSingle24, Advance;
    StepIsAdvance(crcIn, dataIn);
    StepIsAdvance(crcIn, dataIn');
    forall i | 0 <= i < 24
      ensures dataIn[i] == dataIn'[i]
    {
      assert dataIn[i] == dataIn[..24][i];
    }
    assert Merge(crcIn, dataIn, 24) == Merge(crcIn, dataIn', 24);
  }

  /** ---- Linearity and reversibility of one step ---- */

  lemma {:induction false} AdvanceLinear(a: Word, b: Word, n: nat)
    ensures Advance(Xor(a, b), n) == Xor(Advance(a, n), Advance(b, n))
    decreases n
  {
    if n != 0 {
      assert Clock(Xor(a, b), false) == Xor(Clock(a, false), Clock(b, false));
      AdvanceLinear(Clock(a, false), Clock(b, false), n - 1);
    }
  }

  // One step is linear: the step of a sum is the sum of the steps.
  lemma StepLinear(crc: Word, crc': Word, data: Word, data': Word)
    ensures CalcSingle24(Xor(crc, crc'), Xor(data, data')) == Xor(CalcSingle24(crc, data), CalcSingle24(crc', data'))
  {
    hide CalcSingle24, Advance;
    StepIsAdvance(Xor(crc, crc'), Xor(data, data'));
    StepIsAdvance(crc, data);
    StepIsAdvance(crc', data');
    assert Merge(Xor(crc, crc'), Xor(data, data'), 24) == Xor(Merge(crc, data, 24), Merge(crc', data', 24));
    AdvanceLinear(Merge(crc, data, 24), Merge(crc', data', 24), 24);
  }

  // The register one clock earlier, when a zero came in: bit 0 tells whether the generator was fed back.
  function Unclock(r: Word): Word {
    if r[0] then Xor(Shr(Xor(r, Feedback(true)), 1), Hot(31)) else Shr(r, 1)
  }

  function Rewind(r: Word, n: nat): Word {
    if n == 0 then r else Unclock(Rewind(r, n - 1))
  }

  lemma ClockBack(r: Word)
    ensures Unclock(Clock(r, false)) == r
  {}

  lemma ClockForth(r: Word)
    ensures Clock(Unclock(r), false) == r
  {}

  lemma FirstAndLast(r: Word, n: nat)
    requires 0 < n
    ensures Advance(r, n) == Advance(Clock(r, false), n - 1) && Rewind(r, n) == Unclock(Rewind(r, n - 1))
    ensures Advance(r, 0) == r && Rewind(r, 0) == r
  {
    hide Clock, Unclock;
  }

  lemma {:induction false} AdvanceReversible(r: Word, n: nat)
    ensures Rewind(Advance(r, n), n) == r && Advance(Rewind(r, n), n) == r
    decreases n
  {
    hide Clock, Unclock, Advance, Rewind;
    FirstAndLast(r, if n == 0 then 1 else n);
    if n != 0 {
      var back := Rewind(r, n - 1);
      FirstAndLast(Advance(r, n), n);
      FirstAndLast(Unclock(back), n);
      ClockBack(r);
      ClockForth(back);
      AdvanceReversible(Clock(r, false), n - 1);
      AdvanceReversible(r, n - 1);
    }
  }

  // For a given data word the step is a bijection of the register: this is the register before it.
  function UndoStep(crcOut: Word, dataIn: Word): Word {
    Merge(Rewind(crcOut, 24), dataIn, 24)
  }

  lemma StepReversible(crc: Word, dataIn: Word)
    ensures UndoStep(CalcSingle24(crc, dataIn), dataIn) == crc
    ensures CalcSingle24(UndoStep(crc, dataIn), dataIn) == crc
  {
    hide CalcSingle24, Advance, Rewind;
    StepIsAdvance(crc, dataIn);
    AdvanceReversible(Merge(crc, dataIn, 24), 24);
    assert Merge(Merge(crc, dataIn, 24), dataIn, 24) == crc;
    StepIsAdvance(UndoStep(crc, dataIn), dataIn);
    AdvanceReversible(crc, 24);
    assert Merge(UndoStep(crc, dataIn), dataIn, 24) == Rewind(crc, 24);
  }

  // For a given register the step is injective in the 24 data bits.
  lemma StepInjectiveInData(crc: Word, dataIn: Word, dataIn': Word)
    ensures CalcSingle24(crc, dataIn) == CalcSingle24(crc, dataIn') <==> dataIn[..24] == dataIn'[..24]
  {
    hide CalcSingle24, Rewind, Advance;
    if dataIn[..24] == dataIn'[..24] {
      TopByteIgnored(crc, dataIn, dataIn');
    }
    if CalcSingle24(crc, dataIn) == CalcSingle24(crc, dataIn') {
      StepReversible(crc, dataIn);
      StepReversible(crc, dataIn');
      var rewound := Rewind(CalcSingle24(crc, dataIn), 24);
      forall i | 0 <= i < 24
        ensures dataIn[i] == dataIn'[i]
      {
        assert Merge(rewound, dataIn, 24)[i + 8] == Merge(rewound, dataIn', 24)[i + 8];
      }
    }
  }
}
