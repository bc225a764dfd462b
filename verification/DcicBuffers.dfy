/** Signatures of whole pixel buffers, for the four pairings of pixel format and display bus width. */
module DcicBuffers {
  import opened Octets
  import opened WordBits
  import opened DcicStep

  // The register after all the words of data, first word first.
  function Signature(crc: Word, data: seq<Word>): Word {
    if data == [] then crc else CalcSingle24(Signature(crc, data[..|data| - 1]), data[|data| - 1])
  }

  lemma SignatureSnoc(crc: Word, data: seq<Word>, w: Word)
    ensures Signature(crc, data + [w]) == CalcSingle24(Signature(crc, data), w)
  {
    hide CalcSingle24;
    assert (data + [w])[..|data|] == data;
  }

  // The signature composes over concatenation.
  lemma {:induction false} SignatureConcat(crc: Word, a: seq<Word>, b: seq<Word>)
    ensures Signature(crc, a + b) == Signature(Signature(crc, a), b)
    decreases |b|
  {
    hide CalcSingle24;
    if b == [] {
      assert a + b == a;
    } else {
      var front, w := b[..|b| - 1], b[|b| - 1];
      assert a + b == (a + front) + [w];
      SignatureConcat(crc, a, front);
      SignatureSnoc(crc, a + front, w);
    }
  }

  function XorAll(a: seq<Word>, b: seq<Word>): (c: seq<Word>)
    requires |a| == |b|
    ensures |c| == |a|
  {
    seq(|a|, i requires 0 <= i < |a| => Xor(a[i], b[i]))
  }

  // The signature is linear in the register and the buffer together.
  lemma {:induction false} SignatureLinear(crc: Word, crc': Word, a: seq<Word>, b: seq<Word>)
    requires |a| == |b|
    ensures Signature(Xor(crc, crc'), XorAll(a, b)) == Xor(Signature(crc, a), Signature(crc', b))
    decreases |a|
  {
    hide CalcSingle24, Xor;
    if a != [] {
      var n := |a| - 1;
      SignatureLinear(crc, crc', a[..n], b[..n]);
      assert XorAll(a, b)[..n] == XorAll(a[..n], b[..n]);
      StepLinear(Signature(crc, a[..n]), Signature(crc', b[..n]), a[n], b[n]);
    }
  }

  // For a given buffer the signature determines the register it started from.
  lemma {:induction false} SignatureInjectiveInRegister(crc: Word, crc': Word, data: seq<Word>)
    ensures Signature(crc, data) == Signature(crc', data) <==> crc == crc'
    decreases |data|
  {
    hide CalcSingle24, UndoStep;
    if data != [] {
      var n := |data| - 1;
      SignatureInjectiveInRegister(crc, crc', data[..n]);
      StepReversible(Signature(crc, data[..n]), data[n]);
      StepReversible(Signature(crc', data[..n]), data[n]);
    }
  }

  // Only the low 24 bits of each word matter.
  lemma {:induction false} SignatureOfLowBits(crc: Word, a: seq<Word>, b: seq<Word>)
    requires |a| == |b|
    requires forall i | 0 <= i < |a| :: a[i][..24] == b[i][..24]
    ensures Signature(crc, a) == Signature(crc, b)
    decreases |a|
  {
    hide CalcSingle24;
    if a != [] {
      var n := |a| - 1;
      SignatureOfLowBits(crc, a[..n], b[..n]);
      TopByteIgnored(Signature(crc, a[..n]), a[n], b[n]);
    }
  }

  // Two buffers of one length that agree everywhere except at word k have the same
  // signature exactly when that word agrees too: every error in one pixel is seen.
  lemma SingleWordError(crc: Word, a: seq<Word>, b: seq<Word>, k: nat)
    requires |a| == |b| && k < |a|
    requires forall i | 0 <= i < |a| && i != k :: a[i][..24] == b[i][..24]
    ensures Signature(crc, a) == Signature(crc, b) <==> a[k][..24] == b[k][..24]
  {
    hide CalcSingle24;
    var a0, a1 := a[..k], a[k + 1..];
    var b0, b1 := b[..k], b[k + 1..];
    assert a == a0 + [a[k]] + a1 && b == b0 + [b[k]] + b1;
    SignatureConcat(crc, a0 + [a[k]], a1);
    SignatureConcat(crc, b0 + [b[k]], b1);
    SignatureSnoc(crc, a0, a[k]);
    SignatureSnoc(crc, b0, b[k]);
    SignatureOfLowBits(crc, a0, b0);
    SignatureOfLowBits(Signature(crc, b0 + [b[k]]), a1, b1);
    SignatureInjectiveInRegister(Signature(crc, a0 + [a[k]]), Signature(crc, b0 + [b[k]]), a1);
    StepInjectiveInData(Signature(crc, a0), a[k], b[k]);
  }

  /** ---- Pixel formats ---- */

  // The bits lo..hi-1 of x, moved up by the given distance (down if negative): a mask and a shift.
  function Move(x: Word, lo: nat, hi: nat, up: int): Word
    requires hi <= 32
  {
    seq(32, i requires 0 <= i < 32 => lo <= i - up < hi && x[i - up])
  }

  // A 16-bit pixel read into an unsigned int.
  function Extend(p: HalfWord): Word {
    p + seq(16, i => false)
  }

  // 24 bits per pixel on an 18-bit bus: the masks FC0000, FC00 and FC, moved together.
  function Narrow18(d: Word): Word {
    Or(Move(d, 18, 24, -6), Or(Move(d, 10, 16, -4), Move(d, 2, 8, -2)))
  }

  // 16 bits per pixel on a 24-bit bus: the masks F800 and E000, 7E0 and 600, 1F and 1C.
  function Widen24(d: Word): Word {
    Or(Or(Move(d, 11, 16, 8), Move(d, 13, 16, 3)),
       Or(Or(Move(d, 5, 11, 5), Move(d, 9, 11, -1)),
          Or(Move(d, 0, 5, 3), Move(d, 2, 5, -2))))
  }

  // 16 bits per pixel on an 18-bit bus: the masks F800 and 8000, 7E0, 1F and 10.
  function Widen18(d: Word): Word {
    Or(Or(Move(d, 11, 16, 2), Move(d, 15, 16, -3)),
       Or(Move(d, 5, 11, 1),
          Or(Move(d, 0, 5, 1), Move(d, 4, 5, -4))))
  }

  // A component of a pixel stretched to eight bits by repeating its upper bits below it.
  function Stretched(c: seq<bool>): (s: seq<bool>)
    requires 4 <= |c| <= 8
    ensures |s| == 8
  {
    c[2 * |c| - 8..] + c
  }

  // Widening stretches blue, green and red (5, 6 and 5 bits, lowest first) and clears the top byte.
  lemma WidenReplicates(p: HalfWord)
    ensures Widen24(Extend(p)) == Stretched(p[..5]) + Stretched(p[5..11]) + Stretched(p[11..]) + seq(8, i => false)
  {}

  // The narrow bus takes the top six bits of blue, green and red.
  lemma NarrowTakesTopSix(d: Word)
    ensures Narrow18(d) == d[2..8] + d[10..16] + d[18..24] + seq(14, i => false)
  {}

  // As a number: a quarter of each colour, side by side.
  lemma NarrowValue(d: Word)
    ensures ToNat(Narrow18(d)) == ToNat(d[..8]) / 4 + 64 * (ToNat(d[8..16]) / 4) + 4096 * (ToNat(d[16..24]) / 4)
  {
    hide Narrow18, ToNat, Pow2;
    NarrowTakesTopSix(d);
    SixPowers();
    var blue, green, red := d[2..8], d[10..16], d[18..24];
    assert Narrow18(d) == blue + (green + (red + Zeros(14)));
    ToNatJoin(blue, green + (red + Zeros(14)));
    ToNatJoin(green, red + Zeros(14));
    ToNatJoin(red, Zeros(14));
    ZerosAreNothing(14);
    CutValue(d[..8], 2);
    CutValue(d[8..16], 2);
    CutValue(d[16..24], 2);
    assert d[..8][2..] == blue && d[8..16][2..] == green && d[16..24][2..] == red;
  }

  lemma SixPowers()
    ensures Pow2(2) == 4 && Pow2(6) == 64
  {}

  // Blue and red of a 16-bit pixel get a sixth bit, a copy of their highest, below; green has six.
  lemma WidenToSix(p: HalfWord)
    ensures Widen18(Extend(p)) == [p[4]] + p[..5] + p[5..11] + [p[15]] + p[11..] + seq(14, i => false)
  {}

  lemma WidenThenNarrow(d: Word)
    ensures Narrow18(Widen24(d)) == Widen18(d)
  {}

  /** ---- What each buffer routine feeds into the register ---- */

  function Fed18(data: seq<Word>): (w: seq<Word>)
    ensures |w| == |data|
  {
    seq(|data|, i requires 0 <= i < |data| => Narrow18(data[i]))
  }

  // The pixels of a 16-bit buffer with every component stretched to eight bits.
  function Fed24of16(data: seq<HalfWord>): (w: seq<Word>)
    ensures |w| == |data|
  {
    seq(|data|, i requires 0 <= i < |data| => Widen24(Extend(data[i])))
  }

  function Fed18of16(data: seq<HalfWord>): (w: seq<Word>)
    ensures |w| == |data|
  {
    seq(|data|, i requires 0 <= i < |data| => Widen18(Extend(data[i])))
  }

  // The 18-bit signature of 16-bit pixels is the 18-bit signature of the expanded pixels.
  lemma SixteenBitOnNarrowBus(crc: Word, data: seq<HalfWord>)
    ensures Signature(crc, Fed18of16(data)) == Signature(crc, Fed18(Fed24of16(data)))
  {
    hide Widen24, Widen18, Narrow18, Signature;
    forall i | 0 <= i < |data|
      ensures Fed18of16(data)[i] == Fed18(Fed24of16(data))[i]
    {
      WidenThenNarrow(Extend(data[i]));
    }
    assert Fed18of16(data) == Fed18(Fed24of16(data));
  }

  /** ---- The buffer routines ---- */

  // The routines read one word even when the count says zero.
  function Taken(count: nat): nat {
    if count == 0 then 1 else count
  }

  lemma NextWord(crc: Word, fed: seq<Word>, i: nat)
    requires i < |fed|
    ensures Signature(crc, fed[..i + 1]) == CalcSingle24(if i == 0 then crc else Signature(crc, fed[..i]), fed[i])
  {
    hide CalcSingle24;
    SignatureSnoc(crc, fed[..i], fed[i]);
    assert fed[..i + 1] == fed[..i] + [fed[i]];
  }

  method Calc24(crcInit: Word, data: array<Word>, count: nat) returns (crc: Word)
    requires 0 < data.Length && count <= data.Length
    ensures crc == Signature(crcInit, data[..Taken(count)])
  {
    hide Signature, CalcSingle24;
    ghost var fed := data[..Taken(count)];
    crc := CalcSingle24(crcInit, data[0]);
    NextWord(crcInit, fed, 0);
    if 1 < count {
      for i := 1 to count
        invariant crc == Signature(crcInit, fed[..i])
      {
        crc := CalcSingle24(crc, data[i]);
        NextWord(crcInit, fed, i);
      }
    }
    assert fed[..Taken(count)] == fed;
  }

  method Calc18of24(crcInit: Word, data: array<Word>, count: nat) returns (crc: Word)
    requires 0 < data.Length && count <= data.Length
    ensures crc == Signature(crcInit, Fed18(data[..Taken(count)]))
  {
    hide Signature, CalcSingle24, Narrow18;
    ghost var fed := Fed18(data[..Taken(count)]);
    crc := CalcSingle24(crcInit, Narrow18(data[0]));
    NextWord(crcInit, fed, 0);
    if 1 < count {
      for i := 1 to count
        invariant crc == Signature(crcInit, fed[..i])
      {
        crc := CalcSingle24(crc, Narrow18(data[i]));
        NextWord(crcInit, fed, i);
      }
    }
    assert fed[..Taken(count)] == fed;
  }

  method Calc24of16(crcInit: Word, data: array<HalfWord>, count: nat) returns (crc: Word)
    requires 0 < data.Length && count <= data.Length
    ensures crc == Signature(crcInit, Fed24of16(data[..Taken(count)]))
  {
    hide Signature, CalcSingle24, Widen24;
    ghost var fed := Fed24of16(data[..Taken(count)]);
    crc := CalcSingle24(crcInit, Widen24(Extend(data[0])));
    NextWord(crcInit, fed, 0);
    if 1 < count {
      for i := 1 to count
        invariant crc == Signature(crcInit, fed[..i])
      {
        crc := CalcSingle24(crc, Widen24(Extend(data[i])));
        NextWord(crcInit, fed, i);
      }
    }
    assert fed[..Taken(count)] == fed;
  }

  method Calc18of16(crcInit: Word, data: array<HalfWord>, count: nat) returns (crc: Word)
    requires 0 < data.Length && count <= data.Length
    ensures crc == Signature(crcInit, Fed18of16(data[..Taken(count)]))
  {
    hide Signature, CalcSingle24, Widen18;
    ghost var fed := Fed18of16(data[..Taken(count)]);
    crc := CalcSingle24(crcInit, Widen18(Extend(data[0])));
    NextWord(crcInit, fed, 0);
    if 1 < count {
      for i := 1 to count
        invariant crc == Signature(crcInit, fed[..i])
      {
        crc := CalcSingle24(crc, Widen18(Extend(data[i])));
        NextWord(crcInit, fed, i);
      }
    }
    assert fed[..Taken(count)] == fed;
  }
}
