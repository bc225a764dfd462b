/** Errors across pixels: the bits of a buffer in the order in which they enter the register, and bursts
    of up to 32 of them. */
module DcicBursts {
  import opened Octets
  import opened WordBits
  import opened DcicStep
  import opened DcicBuffers

  // The register after some bits, first bit first.
  function Feed(crc: Word, bits: BitSeq): Word {
    if bits == [] then crc else Clock(Feed(crc, bits[..|bits| - 1]), bits[|bits| - 1])
  }

  // The low n bits of a word, most significant first.
  function Downward(w: Word, n: nat): (bits: BitSeq)
    requires n <= 32
    ensures |bits| == n
  {
    seq(n, i requires 0 <= i < n => w[n - 1 - i])
  }

  // All bits of a buffer: 24 of each word.
  function Stream(data: seq<Word>): (bits: BitSeq)
    ensures |bits| == 24 * |data|
  {
    if data == [] then [] else Stream(data[..|data| - 1]) + Downward(data[|data| - 1], 24)
  }

  lemma {:induction false} FeedConcat(crc: Word, a: BitSeq, b: BitSeq)
    ensures Feed(crc, a + b) == Feed(Feed(crc, a), b)
    decreases |b|
  {
    hide Clock;
    if b == [] {
      assert a + b == a;
    } else {
      assert (a + b)[..|a + b| - 1] == a + b[..|b| - 1];
      FeedConcat(crc, a, b[..|b| - 1]);
    }
  }

  lemma OneBitFed(crc: Word, bit: bool)
    ensures Feed(crc, [bit]) == Clock(crc, bit)
  {
    assert [bit][..0] == [];
  }

  lemma {:induction false} SerialIsFeed(crc: Word, data: Word, n: nat)
    requires n <= 32
    ensures Serial(crc, data, n) == Feed(crc, Downward(data, n))
    decreases n
  {
    hide Clock;
    if n != 0 {
      var bit := data[n - 1];
      SerialIsFeed(Clock(crc, bit), data, n - 1);
      assert Downward(data, n) == [bit] + Downward(data, n - 1);
      OneBitFed(crc, bit);
      FeedConcat(crc, [bit], Downward(data, n - 1));
    }
  }

  // A signature is the register after all bits of the buffer.
  lemma {:induction false} SignatureIsFeed(crc: Word, data: seq<Word>)
    ensures Signature(crc, data) == Feed(crc, Stream(data))
    decreases |data|
  {
    hide CalcSingle24, Serial, Feed;
    if data == [] {
      NothingFed(crc);
    } else {
      var front, last := data[..|data| - 1], data[|data| - 1];
      SignatureIsFeed(crc, front);
      UnrolledIsSerial(Feed(crc, Stream(front)), last);
      SerialIsFeed(Feed(crc, Stream(front)), last, 24);
      FeedConcat(crc, Stream(front), Downward(last, 24));
    }
  }

  lemma NothingFed(crc: Word)
    ensures Feed(crc, []) == crc
  {}

  // The word that has the bits, last one lowest.
  function WordOfBits(bits: BitSeq): Word
    requires |bits| <= 32
  {
    seq(32, i requires 0 <= i < 32 => i < |bits| && bits[|bits| - 1 - i])
  }

  // From any register, up to 32 bits that differ give different registers.
  lemma ShortBurst(crc: Word, a: BitSeq, b: BitSeq)
    requires |a| == |b| <= 32
    ensures Feed(crc, a) == Feed(crc, b) <==> a == b
  {
    hide Feed, Serial, Advance, Rewind;
    var n, v, w := |a|, WordOfBits(a), WordOfBits(b);
    assert Downward(v, n) == a && Downward(w, n) == b;
    SerialIsFeed(crc, v, n);
    SerialIsFeed(crc, w, n);
    SerialIsAdvance(crc, v, n);
    SerialIsAdvance(crc, w, n);
    AdvanceReversible(Merge(crc, v, n), n);
    AdvanceReversible(Merge(crc, w, n), n);
    if Merge(crc, v, n) == Merge(crc, w, n) { MergedBits(crc, v, w, n); }
  }

  lemma MergedBits(crc: Word, v: Word, w: Word, n: nat)
    requires n <= 32 && Merge(crc, v, n) == Merge(crc, w, n)
    ensures Downward(v, n) == Downward(w, n)
  {
    forall i | 0 <= i < n
      ensures v[i] == w[i]
    {
      assert Merge(crc, v, n)[i + 32 - n] == (crc[i + 32 - n] != v[i]);
      assert Merge(crc, w, n)[i + 32 - n] == (crc[i + 32 - n] != w[i]);
    }
  }

  // Any bits keep different registers apart.
  lemma {:induction false} FeedKeepsApart(r: Word, r': Word, bits: BitSeq)
    ensures Feed(r, bits) == Feed(r', bits) <==> r == r'
    decreases |bits|
  {
    hide Clock;
    if bits != [] {
      var front, bit := bits[..|bits| - 1], bits[|bits| - 1];
      FeedKeepsApart(r, r', front);
      ClockKeepsApart(Feed(r, front), Feed(r', front), bit);
    }
  }

  lemma ClockKeepsApart(r: Word, r': Word, bit: bool)
    ensures Clock(r, bit) == Clock(r', bit) <==> r == r'
  {
    var data: Word := [bit] + Zeros(31);
    hide Advance, Rewind, Clock, Merge;
    OneClock(r, data);
    OneClock(r', data);
    AdvanceReversible(Merge(r, data, 1), 1);
    AdvanceReversible(Merge(r', data, 1), 1);
    MergeKeepsApart(r, r', data);
  }

  lemma OneClock(r: Word, data: Word)
    ensures Clock(r, data[0]) == Advance(Merge(r, data, 1), 1)
  {
    hide Clock, Merge, Advance;
    SerialIsAdvance(r, data, 1);
    assert Serial(Clock(r, data[0]), data, 0) == Clock(r, data[0]);
  }

  lemma MergeKeepsApart(r: Word, r': Word, data: Word)
    ensures Merge(r, data, 1) == Merge(r', data, 1) <==> r == r'
  {
    if Merge(r, data, 1) == Merge(r', data, 1) {
      forall i | 0 <= i < 32
        ensures r[i] == r'[i]
      {
        assert Merge(r, data, 1)[i] == (r[i] != Shl(data, 31)[i]);
        assert Merge(r', data, 1)[i] == (r'[i] != Shl(data, 31)[i]);
      }
    }
  }

  // Where a bit of a word is in the stream.
  lemma {:induction false} StreamAt(data: seq<Word>, k: nat, i: nat)
    requires k < |data| && i < 24
    ensures Stream(data)[24 * k + i] == data[k][23 - i]
    decreases |data|
  {
    if k < |data| - 1 {
      StreamAt(data[..|data| - 1], k, i);
    } else {
      assert Stream(data)[24 * k + i] == Downward(data[k], 24)[i];
    }
  }

  // Words that agree in their low 24 bits give the same stream, and only those.
  lemma SameWords(a: seq<Word>, b: seq<Word>)
    requires |a| == |b| && forall k | 0 <= k < |a| :: a[k][..24] == b[k][..24]
    ensures Stream(a) == Stream(b)
  {
    hide Stream;
    forall j: nat | j < 24 * |a|
      ensures Stream(a)[j] == Stream(b)[j]
    {
      var k, i := j / 24, j % 24;
      StreamAt(a, k, i);
      StreamAt(b, k, i);
      LowBit(a[k], b[k], 23 - i);
    }
  }

  lemma LowBit(v: Word, w: Word, i: nat)
    requires v[..24] == w[..24] && i < 24
    ensures v[i] == w[i]
  {
    assert v[..24][i] == w[..24][i];
  }

  lemma SameStream(a: seq<Word>, b: seq<Word>, k: nat)
    requires |a| == |b| && Stream(a) == Stream(b) && k < |a|
    ensures a[k][..24] == b[k][..24]
  {
    hide Stream;
    forall i | 0 <= i < 24
      ensures a[k][i] == b[k][i]
    {
      StreamAt(a, k, 23 - i);
      StreamAt(b, k, 23 - i);
    }
  }

  // Every burst is seen: two buffers of one length whose bits agree outside a window of 32, wherever it
  // lies across the words, have the same signature exactly when all their words agree in the low 24 bits.
  lemma BurstError(crc: Word, a: seq<Word>, b: seq<Word>, at: nat)
    requires |a| == |b| && at <= 24 * |a|
    requires forall j | 0 <= j < 24 * |a| && !(at <= j < at + 32) :: Stream(a)[j] == Stream(b)[j]
    ensures Signature(crc, a) == Signature(crc, b) <==> forall k | 0 <= k < |a| :: a[k][..24] == b[k][..24]
  {
    hide Feed, Stream, Signature;
    SignatureIsFeed(crc, a);
    SignatureIsFeed(crc, b);
    var s, t := Stream(a), Stream(b);
    var end := if at + 32 <= |s| then at + 32 else |s|;
    assert s == s[..at] + (s[at..end] + s[end..]) && t == t[..at] + (t[at..end] + t[end..]);
    assert s[..at] == t[..at] && s[end..] == t[end..];
    var r := Feed(crc, s[..at]);
    FeedConcat(crc, s[..at], s[at..end] + s[end..]);
    FeedConcat(crc, t[..at], t[at..end] + t[end..]);
    FeedConcat(r, s[at..end], s[end..]);
    FeedConcat(r, t[at..end], t[end..]);
    ShortBurst(r, s[at..end], t[at..end]);
    FeedKeepsApart(Feed(r, s[at..end]), Feed(r, t[at..end]), s[end..]);
    if s == t {
      forall k | 0 <= k < |a|
        ensures a[k][..24] == b[k][..24]
      {
        SameStream(a, b, k);
      }
    }
    if forall k | 0 <= k < |a| :: a[k][..24] == b[k][..24] { SameWords(a, b); }
  }
}
