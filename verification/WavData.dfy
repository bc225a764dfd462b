/** The data of the sample-rate converter program: numbers in a WAVE header, samples, the driver's
    replies, the countdown over the output, and the file written. */
module WavData {
  import opened Arithmetic
  import opened Octets

  const HEADER_SIZE: nat := 74
  const BUFFER: nat := 4096
  const SLACK: nat := 262144
  const WRAP: nat := 0x1_0000_0000

  // A number stored in 32 bits.
  function Wrap32(v: int): (r: nat)
    ensures r < WRAP
    ensures 0 <= v < WRAP ==> r == v
  {
    v % 0x1_0000_0000
  }

  lemma WrapIs(v: int, k: int, r: nat)
    requires r < WRAP && v == k * 0x1_0000_0000 + r
    ensures Wrap32(v) == r
  {
    DivUnique(v, 0x1_0000_0000, k, r);
  }

  lemma WrapParts(v: int) returns (k: int)
    ensures v == k * 0x1_0000_0000 + Wrap32(v)
  {
    k := v / 0x1_0000_0000;
  }

  function Wrap16(v: nat): (r: nat)
    ensures v < 0x1_0000 ==> r == v
  {
    v % 0x1_0000
  }

  /** ---- Numbers in a header, least significant byte first ---- */

  function IntAt(h: seq<Octet>, at: nat): nat
    requires at + 4 <= |h|
  {
    ToNat(Word4(h[at], h[at + 1], h[at + 2], h[at + 3]))
  }

  function ShortAt(h: seq<Octet>, at: nat): nat
    requires at + 2 <= |h|
  {
    ToNat(Bits2(h[at], h[at + 1]))
  }

  // The numbers of g outside from..to are those of h.
  ghost predicate SameOutside(g: seq<Octet>, h: seq<Octet>, from: nat, to: nat) {
    |g| == |h|
    && (forall k | 0 <= k && k + 4 <= |h| && (k + 4 <= from || to <= k) :: IntAt(g, k) == IntAt(h, k))
    && (forall k | 0 <= k && k + 2 <= |h| && (k + 2 <= from || to <= k) :: ShortAt(g, k) == ShortAt(h, k))
  }

  lemma BytesOutside(g: seq<Octet>, h: seq<Octet>, from: nat, to: nat)
    requires |g| == |h| && forall i | 0 <= i < |h| && !(from <= i < to) :: g[i] == h[i]
    ensures SameOutside(g, h, from, to)
  {}

  lemma HalfOfRest(v: nat, p: nat)
    requires 0 < p
    ensures v % (2 * p) == v % 2 + 2 * (v / 2 % p)
  {
    var q, m := v / 2 / p, v / 2 % p;
    DivEuclid(v / 2, p);
    assert q * (2 * p) == 2 * (q * p);
    DivUnique(v, 2 * p, q, v % 2 + 2 * m);
  }

  lemma {:induction false} FromNatLow(v: nat, n: nat)
    ensures ToNat(FromNat(v, n)) == v % Pow2(n)
  {
    if n == 0 {
      assert Pow2(0) == 1;
    } else {
      FromNatLow(v / 2, n - 1);
      FromNatStep(v, n);
      HalfOfRest(v, Pow2(n - 1));
    }
  }

  lemma FromNatStep(v: nat, n: nat)
    requires 0 < n
    ensures ToNat(FromNat(v, n)) == v % 2 + 2 * ToNat(FromNat(v / 2, n - 1)) && Pow2(n) == 2 * Pow2(n - 1)
  {}

  lemma WordWraps(v: nat)
    ensures ToNat(FromNat(v, 32)) == Wrap32(v) && ToNat(FromNat(v, 16)) == Wrap16(v)
  {
    hide ToNat, FromNat, Pow2;
    FromNatLow(v, 32);
    FromNatLow(v, 16);
    WordPowers();
  }

  /** ---- Samples ---- */

  // The depths the program has a loop for.
  predicate KnownDepth(bits: nat) {
    bits <= 16 || bits == 24 || bits == 32
  }

  function SampleSize(bits: nat): nat {
    if bits <= 16 then 2 else 4
  }

  // What the input variable holds after the k-th read: the sample, or what it held before when the file
  // has no whole sample there. A short sample leaves the upper half.
  function Fetch(bits: nat, src: seq<Octet>, k: nat, data: Word): Word {
    if SampleSize(bits) * (k + 1) > |src| then data
    else if bits <= 16 then Bits2(Bits2(src[2 * k], src[2 * k + 1]), data[16..])
    else Word4(src[4 * k], src[4 * k + 1], src[4 * k + 2], src[4 * k + 3])
  }

  // A 16-bit sample moves up to the 24-bit place, a 32-bit sample loses its low byte.
  function Placed(bits: nat, data: Word): Word {
    if bits <= 16 then Zeros(8) + data[..16] + Zeros(8)
    else if bits == 24 then data
    else data[8..] + Zeros(8)
  }

  // The input variable after n reads.
  function Fetched(bits: nat, src: seq<Octet>, junk: Word, n: nat): Word {
    if n == 0 then junk else Fetch(bits, src, n - 1, Fetched(bits, src, junk, n - 1))
  }

  function Samples(bits: nat, src: seq<Octet>, junk: Word, n: nat): (w: seq<Word>)
    ensures |w| == n
  {
    if n == 0 then [] else Samples(bits, src, junk, n - 1) + [Placed(bits, Fetched(bits, src, junk, n))]
  }

  // Zeros below multiply, zeros above change nothing.
  lemma PaddedValue(low: nat, bits: BitSeq, high: nat)
    ensures ToNat(Zeros(low) + bits + Zeros(high)) == Pow2(low) * ToNat(bits)
  {
    hide ToNat, Pow2;
    assert Zeros(low) + bits + Zeros(high) == Zeros(low) + (bits + Zeros(high));
    ToNatJoin(Zeros(low), bits + Zeros(high));
    ToNatJoin(bits, Zeros(high));
    ZerosAreNothing(low);
    ZerosAreNothing(high);
  }

  lemma PlacedValue(bits: nat, data: Word)
    requires KnownDepth(bits)
    ensures ToNat(Placed(bits, data)) == if bits <= 16 then 256 * ToNat(data[..16])
                                         else if bits == 24 then ToNat(data) else ToNat(data) / 256
  {
    hide ToNat, Pow2;
    WordPowers();
    PaddedValue(8, data[..16], 8);
    PaddedValue(0, data[8..], 8);
    assert Zeros(0) + data[8..] + Zeros(8) == data[8..] + Zeros(8);
    NoPower();
    CutValue(data, 8);
  }

  lemma NoPower()
    ensures Pow2(0) == 1
  {}

  // The k-th sample of a file as a number.
  function SampleValue(bits: nat, src: seq<Octet>, k: nat): nat
    requires SampleSize(bits) * (k + 1) <= |src|
  {
    if bits <= 16 then ShortAt(src, 2 * k) else IntAt(src, 4 * k)
  }

  lemma {:induction false} SamplesAt(bits: nat, src: seq<Octet>, junk: Word, n: nat, k: nat)
    requires k < n
    ensures Samples(bits, src, junk, n)[k] == Placed(bits, Fetched(bits, src, junk, k + 1))
  {
    hide Placed, Fetched;
    if k < n - 1 { SamplesAt(bits, src, junk, n - 1, k); }
  }

  // Every sample the file has becomes a word of 24 bits: 16-bit samples times 256, 32-bit samples
  // divided by 256.
  lemma SamplesOfFile(bits: nat, src: seq<Octet>, junk: Word, n: nat, k: nat)
    requires KnownDepth(bits) && k < n && SampleSize(bits) * (k + 1) <= |src|
    ensures var v, w := SampleValue(bits, src, k), ToNat(Samples(bits, src, junk, n)[k]);
            w == if bits <= 16 then 256 * v else if bits == 24 then v else v / 256
  {
    hide Placed, ToNat;
    SamplesAt(bits, src, junk, n, k);
    var before := Fetched(bits, src, junk, k);
    var data := Fetch(bits, src, k, before);
    PlacedValue(bits, data);
    if bits <= 16 { assert data[..16] == Bits2(src[2 * k], src[2 * k + 1]); }
  }

  /** ---- The driver ---- */

  // One conversion call: the bytes the driver put into the output buffer, or an error.
  datatype Reply = Converted(data: seq<Octet>) | Refused

  // The input of a call is a chunk of the samples or a buffer of silence.
  datatype Source = Chunk(at: nat) | Silence

  datatype Request = Request(source: Source, at: nat, room: nat)

  function Sent(replies: seq<Reply>): seq<Octet> {
    if replies == [] then [] else
      var last := replies[|replies| - 1];
      Sent(replies[..|replies| - 1]) + (if last.Converted? then last.data else [])
  }

  lemma NothingSent(replies: seq<Reply>)
    ensures Sent(replies[..0]) == []
  {}

  lemma MoreSent(replies: seq<Reply>, n: nat)
    requires n < |replies|
    ensures Sent(replies[..n + 1]) == Sent(replies[..n]) + (if replies[n].Converted? then replies[n].data else [])
  {
    assert replies[..n + 1][..n] == replies[..n];
  }

  // The request of call i: chunks in order while there are samples, then silence; output behind what
  // has been delivered.
  function RequestOf(replies: seq<Reply>, samples: nat, room: nat, i: nat): Request
    requires i <= |replies|
  {
    Request(if 4096 * i < samples then Chunk(4096 * i) else Silence, |Sent(replies[..i])|, room)
  }

  // Every sample is offered once, in the call its number says, and silence takes its place after the last.
  lemma SamplesOffered(replies: seq<Reply>, samples: nat, room: nat, i: nat, k: nat)
    requires i <= |replies|
    ensures var q := RequestOf(replies, samples, room, i);
            k < samples ==> ((q.source.Chunk? && q.source.at <= k < q.source.at + 4096) <==> i == k / 4096)
    ensures samples <= 4096 * i <==> RequestOf(replies, samples, room, i).source.Silence?
  {
    hide Sent;
  }

  // The driver fills no more than the room it is offered.
  predicate WithinRoom(replies: seq<Reply>, room: nat) {
    forall i | 0 <= i < |replies| :: replies[i].Converted? ==> |replies[i].data| <= room
  }

  // The program makes call n: all calls before it were served, and they did not bring enough.
  predicate Reaches(replies: seq<Reply>, total: nat, n: nat)
    requires n <= |replies|
  {
    (forall i | 0 <= i < n :: replies[i].Converted?)
    && (forall j | 0 < j <= n :: |Sent(replies[..j])| < total)
  }

  lemma ReachesFirst(replies: seq<Reply>, total: nat)
    ensures Reaches(replies, total, 0)
  {}

  lemma ReachesNext(replies: seq<Reply>, total: nat, n: nat)
    requires n < |replies| && Reaches(replies, total, n) && replies[n].Converted? && |Sent(replies[..n + 1])| < total
    ensures Reaches(replies, total, n + 1)
  {}

  // The driver brings total bytes before it refuses.
  predicate Brings(replies: seq<Reply>, total: nat) {
    exists n | 0 < n <= |replies| :: |Sent(replies[..n])| >= total && forall i | 0 <= i < n :: replies[i].Converted?
  }

  // A run that is refused, or out of replies, has not been brought enough.
  lemma NotBrought(replies: seq<Reply>, total: nat, n: nat)
    requires n <= |replies| && Reaches(replies, total, n) && (n == |replies| || replies[n].Refused?)
    ensures !Brings(replies, total)
  {
    hide Sent;
    forall m | 0 < m <= |replies| && |Sent(replies[..m])| >= total
      ensures exists i | 0 <= i < m :: !replies[i].Converted?
    {
      assert n < m;
      assert !replies[n].Converted?;
    }
  }

  // Call n writes behind the output buffer of total bytes and the slack.
  predicate OverrunAt(replies: seq<Reply>, total: nat, n: nat) {
    n < |replies| && replies[n].Converted? && |Sent(replies[..n])| + |replies[n].data| > total + SLACK
  }

  ghost predicate Overruns(replies: seq<Reply>, total: nat) {
    exists n: nat :: n < |replies| && Reaches(replies, total, n) && OverrunAt(replies, total, n)
  }

  lemma {:induction false} ManyBytes(n: nat)
    ensures |Sent(seq(n, i => Converted([Zeros(8)])))| == n
  {
    if n != 0 {
      assert seq(n, i => Converted([Zeros(8)]))[..n - 1] == seq(n - 1, i => Converted([Zeros(8)]));
      ManyBytes(n - 1);
    }
  }

  // The slack is enough for every driver exactly if it holds the room offered in one call.
  lemma SlackIsExact(room: nat, total: nat)
    requires room % 8 == 0
    ensures (forall replies | WithinRoom(replies, room) :: !Overruns(replies, total)) <==> room <= SLACK
  {
    hide Overruns, WithinRoom;
    if room <= SLACK {
      forall replies | WithinRoom(replies, room)
        ensures !Overruns(replies, total)
      {
        EnoughSlack(replies, room, total);
      }
    } else {
      var replies := TooMuch(room, total);
      assert WithinRoom(replies, room) && Overruns(replies, total);
    }
  }

  // A driver that brings all but one byte and then fills the room.
  lemma TooMuch(room: nat, total: nat) returns (replies: seq<Reply>)
    requires SLACK + 1 < room
    ensures WithinRoom(replies, room) && Overruns(replies, total)
  {
    var n := if total == 0 then 0 else total - 1;
    var bytes := seq(n, i => Converted([Zeros(8)]));
    var last := Converted(seq(room, i => Zeros(8)));
    replies := bytes + [last];
    hide Sent;
    forall j | 0 <= j <= n
      ensures |Sent(replies[..j])| == j
    {
      assert replies[..j] == seq(j, i => Converted([Zeros(8)]));
      ManyBytes(j);
    }
    assert replies[n] == last && |last.data| == room;
    assert Reaches(replies, total, n) && OverrunAt(replies, total, n);
  }

  lemma EnoughSlack(replies: seq<Reply>, room: nat, total: nat)
    requires WithinRoom(replies, room) && room <= SLACK
    ensures !Overruns(replies, total)
  {
    forall n: nat | n < |replies| && Reaches(replies, total, n)
      ensures !OverrunAt(replies, total, n)
    {
      if n == 0 { NothingSent(replies); }
    }
  }

  /** ---- Counting a 32-bit size down by fours ---- */

  function After(size: nat, n: nat): nat {
    Wrap32(size - 4 * n)
  }

  predicate StopsAt(size: nat, n: nat) {
    1 <= n && After(size, n) == 0 && forall j: nat | 1 <= j < n :: After(size, j) != 0
  }

  // The loop of do size -= 4 while size > 0 ends if and only if size is a multiple of 4, after size / 4
  // rounds; from 0 it goes round the whole 32 bits.
  lemma CountdownStops(size: nat)
    requires size < WRAP
    ensures (exists n: nat :: StopsAt(size, n)) <==> size % 4 == 0
    ensures size % 4 == 0 ==> StopsAt(size, Words(size))
  {
    hide Wrap32;
    forall n: nat | StopsAt(size, n)
      ensures size % 4 == 0
    {
      var k := WrapParts(size - 4 * n);
      FourTimesIt(size, n + 0x4000_0000 * k);
    }
    if size % 4 == 0 {
      FourTimesIt(size, size / 4);
      forall j: nat | 1 <= j <= Words(size)
        ensures After(size, j) == 0 <==> j == Words(size)
      {
        if size == 0 { WrapIs(size - 4 * j, -1, if j == Words(size) then 0 else 0x1_0000_0000 - 4 * j); }
      }
      assert StopsAt(size, Words(size));
    }
  }

  lemma FourTimesIt(a: int, b: int)
    requires a == 4 * b
    ensures a % 4 == 0 && a / 4 == b
  {}

  // The words written for a size: from 0, all that 32 bits can count.
  function Words(size: nat): nat {
    if size == 0 then 0x4000_0000 else size / 4
  }

  // Whether the words of a size end inside an output buffer with its slack.
  lemma WordsEnd(used: nat, length: nat)
    requires used % 8 == 0 && used + SLACK == length
    ensures var size := Wrap32(used);
            size % 4 == 0
            && (size != 0 ==> 4 * Words(size) <= length)
            && (used < WRAP ==> size == used && (used == 0 ==> 4 * Words(size) > length)
                                && (used != 0 ==> Words(size) == used / 4))
  {
    hide Wrap32;
    var k := WrapParts(used);
    var m := used / 8;
    assert used == 8 * m;
    FourTimesIt(Wrap32(used), 2 * m - 0x4000_0000 * k);
    SmallerRest(used);
  }

  lemma SmallerRest(v: nat)
    ensures Wrap32(v) <= v
  {}

  /** ---- The file written ---- */

  // The lower 24 bits of every word of the output.
  function Masked(output: seq<Octet>, n: nat): (r: seq<Octet>)
    requires 4 * n <= |output|
    ensures |r| == 4 * n
  {
    seq(4 * n, i requires 0 <= i < 4 * n => if i % 4 == 3 then Zeros(8) else output[i])
  }

  // As numbers: every word modulo 2^24.
  lemma MaskedWords(output: seq<Octet>, n: nat, k: nat)
    requires 4 * n <= |output| && k < n
    ensures IntAt(Masked(output, n), 4 * k) == IntAt(output, 4 * k) % 0x100_0000
  {
    hide ToNat, Pow2;
    WordPowers();
    var w := Word4(output[4 * k], output[4 * k + 1], output[4 * k + 2], output[4 * k + 3]);
    var m := Word4(output[4 * k], output[4 * k + 1], output[4 * k + 2], Zeros(8));
    CutValue(w, 24);
    assert m == w[..24] + Zeros(8);
    ToNatJoin(w[..24], Zeros(8));
    ZerosAreNothing(8);
  }

  lemma MaskedNothing(output: seq<Octet>)
    ensures Masked(output, 0) == []
  {}

  lemma MaskedMore(output: seq<Octet>, n: nat)
    requires 4 * n + 4 <= |output|
    ensures Masked(output, n + 1)
         == Masked(output, n) + [output[4 * n], output[4 * n + 1], output[4 * n + 2], Zeros(8)]
  {}

  lemma MaskedPrefix(output: seq<Octet>, n: nat)
    requires n % 4 == 0 && n <= |output|
    ensures Masked(output, n / 4) == Masked(output[..n], n / 4)
  {}

  // The fields in the header of a file.
  lemma HeaderFields(header: seq<Octet>, n: nat, tail: seq<Octet>)
    requires n <= |header|
    ensures var file := header[..n] + tail;
            |file| == n + |tail| && file[n..] == tail
            && (forall k | 0 <= k && k + 4 <= n :: IntAt(file, k) == IntAt(header, k))
            && (forall k | 0 <= k && k + 2 <= n :: ShortAt(file, k) == ShortAt(header, k))
  {}

  // A RIFF file whose sizes agree with its contents: the RIFF size counts all but the first eight bytes,
  // the size of the data chunk all behind the header.
  predicate SizesAgree(file: seq<Octet>, formatSize: nat) {
    formatSize + 28 <= |file| && 16 <= formatSize
    && IntAt(file, 4) + 8 == |file| && IntAt(file, 24 + formatSize) == |file| - (28 + formatSize)
  }

  // A file of 24-bit samples whose sizes agree and whose data are n bytes of sent, the top byte of each
  // word cleared.
  ghost predicate IsConversion(file: seq<Octet>, formatSize: nat, sent: seq<Octet>, n: nat) {
    SizesAgree(file, formatSize) && |file| == n + 28 + formatSize && ShortAt(file, 34) == 24
    && n <= |sent| && n % 4 == 0 && file[28 + formatSize..] == Masked(sent[..n], n / 4)
  }

  lemma FileIsConversion(file: seq<Octet>, header: seq<Octet>, formatSize: nat, output: seq<Octet>, sent: seq<Octet>, n: nat)
    requires |header| == HEADER_SIZE && 16 <= formatSize <= 46 && n % 4 == 0 && n <= |output| && n <= |sent|
    requires IntAt(header, 4) == n + 20 + formatSize && IntAt(header, 24 + formatSize) == n && ShortAt(header, 34) == 24
    requires file == header[..formatSize + 28] + Masked(output, n / 4) && output[..n] == sent[..n]
    ensures IsConversion(file, formatSize, sent, n)
  {
    hide IntAt, ShortAt, Masked;
    MaskedPrefix(output, n);
    HeaderFields(header, formatSize + 28, Masked(output, n / 4));
  }

  /** ---- The layout of the samples written ---- */

  // The words written take four bytes for each channel; the header should say so.
  predicate LayoutAgrees(file: seq<Octet>, rate: nat)
    requires 36 <= |file|
  {
    ShortAt(file, 32) == 4 * ShortAt(file, 22) && IntAt(file, 28) == Wrap32(rate * ShortAt(file, 32))
  }

  // Block alignment and byte rate as the program sets them for an input file.
  function NewAlign(bits: nat, align: nat): nat {
    if bits <= 16 then 8 else align
  }

  function ByteRate(rate: nat, channels: nat, bits: nat): nat {
    rate * channels * (bits / 8)
  }

  function NewByteRate(bits: nat, channels: nat, rate: nat): nat {
    Wrap32(if bits <= 16 then rate * 8 else ByteRate(rate, channels, bits))
  }

  // Depth, channels and block alignment of the input for which it does: the byte rate, which counts
  // whole bytes of the depth, then lacks or exceeds four bytes a sample by nothing in 32 bits.
  predicate LayoutFits(bits: nat, channels: nat, align: nat, rate: nat) {
    if bits <= 16 then channels == 2
    else if bits < 24 then align == 4 * channels && Wrap32(2 * (rate * channels)) == 0
    else if bits < 32 then align == 4 * channels && Wrap32(rate * channels) == 0
    else if bits < 40 then align == 4 * channels
    else align == 4 * channels && Wrap32((bits / 8 - 4) * (rate * channels)) == 0
  }

  lemma LayoutIsExact(bits: nat, channels: nat, align: nat, rate: nat)
    ensures NewAlign(bits, align) == 4 * channels
            && NewByteRate(bits, channels, rate) == Wrap32(rate * NewAlign(bits, align))
            <==> LayoutFits(bits, channels, align, rate)
  {
    hide Wrap32;
    var q := rate * channels;
    FourChannels(rate, channels);
    WholeBytes(q, bits);
    SameInWord(q * (bits / 8), q * 4);
    SameInWord(q * 4, q * (bits / 8));
  }

  lemma FourChannels(rate: nat, channels: nat)
    ensures rate * (4 * channels) == rate * channels * 4
  {}

  // What the byte rate of a depth lacks or has too much.
  lemma WholeBytes(q: nat, bits: nat)
    ensures 16 < bits < 24 ==> q * 4 - q * (bits / 8) == 2 * q
    ensures 24 <= bits < 32 ==> q * 4 - q * (bits / 8) == q
    ensures 32 <= bits < 40 ==> q * (bits / 8) == q * 4
    ensures q * (bits / 8) - q * 4 == (bits / 8 - 4) * q
  {
    if 16 < bits < 24 { assert bits / 8 == 2; }
    if 24 <= bits < 32 { assert bits / 8 == 3; }
    if 32 <= bits < 40 { assert bits / 8 == 4; }
  }

  // Two numbers agree in 32 bits exactly if their difference is nothing there.
  lemma SameInWord(a: int, b: int)
    ensures Wrap32(a) == Wrap32(b) <==> Wrap32(b - a) == 0
  {
    hide Wrap32;
    var j := WrapParts(a);
    var k := WrapParts(b);
    var d := WrapParts(b - a);
    if Wrap32(a) == Wrap32(b) { WrapIs(b - a, k - j, 0); }
    if Wrap32(b - a) == 0 { WrapIs(b, j + d, Wrap32(a)); }
  }

  // A mono file of 16 bits gets the block alignment of stereo, and one of 24 bits three quarters of its
  // byte rate.
  lemma LayoutFails()
    ensures !LayoutFits(16, 1, 2, 48000) && !LayoutFits(24, 2, 8, 48000)
    ensures NewAlign(16, 2) == 8 && NewByteRate(24, 2, 48000) == 288000 && 48000 * 8 == 384000
  {}
}
