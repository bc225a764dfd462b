/** Machine words as bit sequences, least significant bit first, and their values. */
module Octets {
  import opened Arithmetic

  type BitSeq = seq<bool>

  type Octet = b: BitSeq | |b| == 8 witness seq(8, i => false)

  type HalfWord = b: BitSeq | |b| == 16 witness seq(16, i => false)

  type Word = b: BitSeq | |b| == 32 witness seq(32, i => false)

  type DoubleWord = b: BitSeq | |b| == 64 witness seq(64, i => false)

  function ToNat(b: BitSeq): nat {
    if b == [] then 0 else (if b[0] then 1 else 0) + 2 * ToNat(b[1..])
  }

  // The low n bits of v.
  function FromNat(v: nat, n: nat): (b: BitSeq)
    ensures |b| == n
  {
    if n == 0 then [] else [v % 2 == 1] + FromNat(v / 2, n - 1)
  }

  function Pow2(n: nat): (p: nat)
    ensures 0 < p
  {
    if n == 0 then 1 else 2 * Pow2(n - 1)
  }

  lemma WordPowers()
    ensures Pow2(8) == 0x100 && Pow2(16) == 0x1_0000 && Pow2(24) == 0x100_0000 && Pow2(32) == 0x1_0000_0000
  {
    assert Pow2(8) == 0x100;
    assert Pow2(16) == 0x1_0000;
    assert Pow2(24) == 0x100_0000;
  }

  function Zeros(n: nat): (b: BitSeq)
    ensures |b| == n
  {
    seq(n, i => false)
  }

  function Ones(n: nat): (b: BitSeq)
    ensures |b| == n
  {
    seq(n, i => true)
  }

  lemma {:induction false} FromNatToNat(b: BitSeq)
    ensures FromNat(ToNat(b), |b|) == b
  {
    if b != [] { FromNatToNat(b[1..]); }
  }

  lemma {:induction false} ToNatFromNat(v: nat, n: nat)
    requires v < Pow2(n)
    ensures ToNat(FromNat(v, n)) == v
  {
    if n != 0 { ToNatFromNat(v / 2, n - 1); }
  }

  lemma {:induction false} ToNatBound(b: BitSeq)
    ensures ToNat(b) < Pow2(|b|)
  {
    if b != [] { ToNatBound(b[1..]); }
  }

  // No word of the same width is above the word of all ones.
  lemma {:induction false} OnesAreTop(b: BitSeq)
    ensures ToNat(b) <= ToNat(Ones(|b|))
  {
    if b != [] {
      OnesAreTop(b[1..]);
      assert Ones(|b|)[1..] == Ones(|b| - 1);
    }
  }

  function Bits2(a: BitSeq, b: BitSeq): BitSeq {
    a + b
  }

  function Word4(a: Octet, b: Octet, c: Octet, d: Octet): Word {
    Bits2(Bits2(a, b), Bits2(c, d))
  }

  lemma {:induction false} ToNatJoin(a: BitSeq, b: BitSeq)
    ensures ToNat(a + b) == ToNat(a) + Pow2(|a|) * ToNat(b)
  {
    if a == [] {
      assert a + b == b;
    } else {
      ToNatJoin(a[1..], b);
      assert (a + b)[1..] == a[1..] + b;
      assert Pow2(|a|) * ToNat(b) == 2 * (Pow2(|a| - 1) * ToNat(b)) by { Regroup(2, Pow2(|a| - 1), ToNat(b)); }
    }
  }

  lemma {:induction false} ZerosAreNothing(n: nat)
    ensures ToNat(Zeros(n)) == 0
  {
    if n != 0 {
      ZerosAreNothing(n - 1);
      assert Zeros(n)[1..] == Zeros(n - 1);
    }
  }

  // Cutting a number at bit k divides it by 2^k.
  lemma CutValue(w: BitSeq, k: nat)
    requires k <= |w|
    ensures ToNat(w[k..]) == ToNat(w) / Pow2(k) && ToNat(w[..k]) == ToNat(w) % Pow2(k)
  {
    hide ToNat, Pow2;
    assert w == w[..k] + w[k..];
    ToNatJoin(w[..k], w[k..]);
    ToNatBound(w[..k]);
    var q, p := ToNat(w[k..]), Pow2(k);
    assert p * q == q * p;
    DivUnique(ToNat(w), p, q, ToNat(w[..k]));
  }

  // The value of a stretch of bits.
  lemma FieldValue(w: BitSeq, lsb: nat, n: nat)
    requires lsb + n <= |w|
    ensures ToNat(w[lsb..lsb + n]) == ToNat(w) / Pow2(lsb) % Pow2(n)
  {
    hide ToNat, Pow2;
    CutValue(w, lsb);
    CutValue(w[lsb..], n);
    assert w[lsb..][..n] == w[lsb..lsb + n];
  }

  lemma MiddlePart<T>(a: seq<T>, b: seq<T>, c: seq<T>)
    ensures (a + b + c)[|a|..|a| + |b|] == b
  {}
}
