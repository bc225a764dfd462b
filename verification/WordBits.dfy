/** 32-bit words as sequences of bits, bit i at index i, and parities over GF(2). */
module WordBits {
  import opened Octets

  function Zero(): Word {
    seq(32, i => false)
  }

  function Xor(a: Word, b: Word): Word {
    seq(32, i requires 0 <= i < 32 => a[i] != b[i])
  }

  function And(a: Word, b: Word): Word {
    seq(32, i requires 0 <= i < 32 => a[i] && b[i])
  }

  function Or(a: Word, b: Word): Word {
    seq(32, i requires 0 <= i < 32 => a[i] || b[i])
  }

  function Not(a: Word): Word {
    seq(32, i requires 0 <= i < 32 => !a[i])
  }

  function Shl(x: Word, k: nat): Word {
    seq(32, i requires 0 <= i < 32 => k <= i && x[i - k])
  }

  function Shr(x: Word, k: nat): Word {
    seq(32, i requires 0 <= i < 32 => i + k < 32 && x[i + k])
  }

  function Hot(t: nat): Word {
    seq(32, i => i == t)
  }

  // Inner product over GF(2) of the low n bits.
  predicate DotLow(x: Word, y: Word, n: nat)
    requires n <= 32
  {
    n != 0 && ((x[n - 1] && y[n - 1]) != DotLow(x, y, n - 1))
  }

  predicate Dot(x: Word, y: Word) {
    DotLow(x, y, 32)
  }

  lemma {:induction false} DotLowXor(x: Word, a: Word, b: Word, n: nat)
    requires n <= 32
    ensures DotLow(x, Xor(a, b), n) == (DotLow(x, a, n) != DotLow(x, b, n))
  {
    if n != 0 { DotLowXor(x, a, b, n - 1); }
  }

  lemma {:induction false} DotLowHot(x: Word, t: nat, n: nat)
    requires t < 32 && n <= 32
    ensures DotLow(x, Hot(t), n) == (t < n && x[t])
  {
    if n != 0 { DotLowHot(x, t, n - 1); }
  }

  lemma {:induction false} DotLowZero(x: Word, n: nat)
    requires n <= 32
    ensures !DotLow(x, Zero(), n)
  {
    if n != 0 { DotLowZero(x, n - 1); }
  }

  lemma {:induction false} DotLowSymmetric(x: Word, y: Word, n: nat)
    requires n <= 32
    ensures DotLow(x, y, n) == DotLow(y, x, n)
  {
    if n != 0 { DotLowSymmetric(x, y, n - 1); }
  }

  // Shifting the word up is the same as shifting the selecting mask down.
  lemma {:induction false} DotLowShift(x: Word, m: Word, k: nat, n: nat)
    requires n <= 32
    ensures DotLow(Shl(x, k), m, n) == (k <= n && DotLow(x, Shr(m, k), n - k))
  {
    if n != 0 { DotLowShift(x, m, k, n - 1); }
  }

  lemma {:induction false} DotLowClear(x: Word, m: Word, k: nat, n: nat)
    requires k <= 32 && 32 - k <= n <= 32
    ensures DotLow(x, Shr(m, k), n) == DotLow(x, Shr(m, k), 32 - k)
  {
    if 32 - k < n { DotLowClear(x, m, k, n - 1); }
  }

  lemma DotShift(x: Word, m: Word, k: nat)
    requires k <= 32
    ensures Dot(Shl(x, k), m) == Dot(x, Shr(m, k))
  {
    DotLowShift(x, m, k, 32);
    DotLowClear(x, m, k, 32);
  }

  lemma DotXor(x: Word, y: Word, m: Word)
    ensures Dot(Xor(x, y), m) == (Dot(x, m) != Dot(y, m))
  {
    DotLowXor(m, x, y, 32);
    DotLowSymmetric(m, Xor(x, y), 32);
    DotLowSymmetric(m, x, 32);
    DotLowSymmetric(m, y, 32);
  }

  lemma DotHot(x: Word, t: nat)
    requires t < 32
    ensures Dot(x, Hot(t)) == x[t]
  {
    DotLowHot(x, t, 32);
  }

  /** ---- Machine words ---- */

  predicate Bit(x: bv32, i: bv5) {
    (x >> i) & 1 == 1
  }

  function Bits(x: bv32): Word {
    seq(32, i requires 0 <= i < 32 => Bit(x, i as bv5))
  }

  function XorBits(a: bv32, b: bv32): bv32 {
    a ^ b
  }

  function Half(x: bv32): bv32 {
    x >> 1
  }

  lemma BitXor(a: bv32, b: bv32, i: bv5)
    ensures Bit(a ^ b, i) == (Bit(a, i) != Bit(b, i))
  {}

  lemma BitShr(x: bv32, i: bv5)
    ensures Bit(x >> 1, i) == (i != 31 && Bit(x, i + 1))
  {}

  lemma BitHot(t: bv5, i: bv5)
    ensures Bit(1 << t, i) == (i == t)
  {}

  lemma Successor(i: nat)
    requires i < 31
    ensures (i + 1) as bv5 == (i as bv5) + 1 && i as bv5 != 31
  {
    assert (i as bv5) as nat == i;
    NextIndex(i as bv5);
  }

  lemma NextIndex(b: bv5)
    requires b < 31
    ensures (b + 1) as nat == b as nat + 1
  {}

  lemma BitsZero()
    ensures Bits(0) == Zero()
  {}

  lemma BitsXor(a: bv32, b: bv32)
    ensures Bits(XorBits(a, b)) == Xor(Bits(a), Bits(b))
  {
    hide Bit;
    forall i | 0 <= i < 32
      ensures Bits(XorBits(a, b))[i] == Xor(Bits(a), Bits(b))[i]
    {
      BitXor(a, b, i as bv5);
    }
  }

  lemma BitsHalf(x: bv32)
    ensures Bits(Half(x)) == Shr(Bits(x), 1)
  {
    hide Bit;
    forall i | 0 <= i < 32
      ensures Bits(Half(x))[i] == Shr(Bits(x), 1)[i]
    {
      BitShr(x, i as bv5);
      if i < 31 { Successor(i); }
    }
  }

  lemma BitShr8(x: bv32, i: bv5)
    ensures Bit(x >> 8, i) == (i < 24 && Bit(x, i + 8))
  {}

  lemma EighthIndex(b: bv5)
    requires b < 24
    ensures (b + 8) as nat == b as nat + 8
  {}

  lemma Eighth(i: nat)
    requires i < 32
    ensures i < 24 ==> (i + 8) as bv5 == (i as bv5) + 8
    ensures i < 24 <==> i as bv5 < 24
  {
    assert (i as bv5) as nat == i;
    if i < 24 { EighthIndex(i as bv5); }
  }

  function DropByte(x: bv32): bv32 {
    x >> 8
  }

  lemma BitsDropByte(x: bv32)
    ensures Bits(DropByte(x)) == Shr(Bits(x), 8)
  {
    hide Bit;
    forall i | 0 <= i < 32
      ensures Bits(DropByte(x))[i] == Shr(Bits(x), 8)[i]
    {
      BitShr8(x, i as bv5);
      Eighth(i);
    }
  }

  lemma BitsHot(t: bv5)
    ensures Bits(1 << t) == Hot(t as nat)
  {
    hide Bit;
    var bits, hot := Bits(1 << t), Hot(t as nat);
    forall i | 0 <= i < 32
      ensures bits[i] == hot[i]
    {
      BitHot(t, i as bv5);
    }
  }
}
