/** Timestamps, cycle counts and whole-byte fields: decoding undoes encoding and takes exactly the
    encoded bytes. */
module EtmFields {
  import opened Octets
  import opened EtmDecode
  import opened EtmAddress

  /** ---- Timestamps ---- */

  // Byte k of a timestamp sent as its lowest n groups of bits: seven each, eight in the ninth.
  function TimestampByte(target: DoubleWord, n: nat, k: nat): Octet
    requires k < n <= 9
  {
    if k == 8 then target[56..64] else target[7 * k..7 * k + 7] + [k < n - 1]
  }

  function TimestampBytesOf(target: DoubleWord, n: nat, k: nat): (pk: seq<Octet>)
    requires k <= n <= 9
    ensures |pk| == n - k
    decreases n - k
  {
    if k == n then [] else [TimestampByte(target, n, k)] + TimestampBytesOf(target, n, k + 1)
  }

  // n groups are enough: all 64 bits are sent, or those above agree with the previous timestamp.
  predicate TimestampEnough(prev: DoubleWord, target: DoubleWord, n: nat) {
    n == 9 || (1 <= n < 9 && prev[7 * n..] == target[7 * n..])
  }

  lemma SpliceGroup(target: DoubleWord, prev: DoubleWord, ts: DoubleWord, i: nat, w: nat)
    requires 7 * i + w <= 64 && ts == target[..7 * i] + prev[7 * i..]
    ensures Splice(ts, 7 * i, target[7 * i..7 * i + w]) == target[..7 * i + w] + prev[7 * i + w..]
  {
    assert ts[7 * i + w..] == prev[7 * i + w..];
    assert target[..7 * i] + target[7 * i..7 * i + w] == target[..7 * i + w];
  }

  lemma TakeNext(s: State, n: nat)
    requires 0 < n <= |s.avail|
    ensures Take(s, n) == Take(Get(s).st, n - 1)
  {}

  // The first byte of a field.
  lemma NextOf(s: State, b: Octet, pk: seq<Octet>, rest: seq<Octet>, n: nat)
    requires s.avail == [b] + pk + rest && n <= |pk|
    ensures var t := Get(s).st;
            Get(s) == Running(t) && t.data == b && t.avail == pk + rest && Take(s, n + 1) == Take(t, n)
  {
    hide SyncCounts, ZeroBytes;
    assert s.avail == [b] + (pk + rest);
    GetNext(s);
    TakeNext(s, n + 1);
  }

  lemma TimestampByteBits(target: DoubleWord, n: nat, i: nat)
    requires i < n <= 9
    ensures var b := TimestampByte(target, n, i);
            if i == 8 then b[..8] == target[56..64] else b[..7] == target[7 * i..7 * i + 7] && b[7] == (i < n - 1)
  {}

  lemma {:induction false} TimestampLoop(s: State, target: DoubleWord, prev: DoubleWord, n: nat, i: nat, rest: seq<Octet>)
    requires i < n && TimestampEnough(prev, target, n)
    requires s.avail == TimestampBytesOf(target, n, i) + rest
    ensures TimestampBytes(s, target[..7 * i] + prev[7 * i..], i) == FieldDone(Take(s, n - i), target)
    ensures Take(s, n - i).avail == rest
    decreases n - i
  {
    hide Splice, SyncCounts, Keeps, Get, Take, TimestampByte, TimestampEnough;
    EnoughGroups(prev, target, n);
    var b, t := TimestampByte(target, n, i), Get(s).st;
    NextOf(s, b, TimestampBytesOf(target, n, i + 1), rest, n - i - 1);
    OneGroup(target, prev, n, i);
    if i + 1 < n {
      TimestampLoop(t, target, prev, n, i + 1, rest);
    } else {
      assert [] + rest == rest;
      TakeNothing(t);
    }
  }

  lemma EnoughGroups(prev: DoubleWord, target: DoubleWord, n: nat)
    requires TimestampEnough(prev, target, n)
    ensures 1 <= n <= 9
  {}

  // One byte more of a timestamp; the last makes it whole.
  lemma OneGroup(target: DoubleWord, prev: DoubleWord, n: nat, i: nat)
    requires i < n && TimestampEnough(prev, target, n)
    ensures n <= 9
    ensures var ts, b := target[..7 * i] + prev[7 * i..], TimestampByte(target, n, i);
            var ts' := Splice(ts, 7 * i, b[..if i == 8 then 8 else 7]);
            (i + 1 < n ==> b[7] && i < 8 && ts' == target[..7 * (i + 1)] + prev[7 * (i + 1)..])
            && (i + 1 == n ==> !(b[7] && i < 8) && ts' == target)
  {
    hide Splice, TimestampByte;
    TimestampByteBits(target, n, i);
    SpliceGroup(target, prev, target[..7 * i] + prev[7 * i..], i, if i == 8 then 8 else 7);
    WholeTimestamp(target, prev, n);
  }

  lemma TakeNothing(s: State)
    ensures Take(s, 0) == s
  {}

  lemma WholeTimestamp(target: DoubleWord, prev: DoubleWord, n: nat)
    requires TimestampEnough(prev, target, n)
    ensures n < 9 ==> target[..7 * n] + prev[7 * n..] == target
    ensures target[..64] + prev[64..] == target
  {}

  lemma NoGroups(target: DoubleWord, prev: DoubleWord)
    ensures target[..0] + prev[0..] == prev && target[..7 * 0] + prev[7 * 0..] == prev
  {}

  // Any 64-bit timestamp, sent as any sufficient prefix relative to any previous one, comes back.
  lemma TimestampRoundTrip(s: State, target: DoubleWord, n: nat, rest: seq<Octet>)
    requires TimestampEnough(s.timestamp, target, n)
    requires s.avail == TimestampBytesOf(target, n, 0) + rest
    ensures 1 <= n <= 9
    ensures var u := Take(s, n);
            u.avail == rest
            && TimestampPacket(s) == Running(u.(timestamp := target, lines := s.lines + [Timestamp(u.Synced(), target)]))
  {
    hide TimestampBytes, SyncCounts, Take, TimestampBytesOf, TimestampEnough, Splice, Get;
    EnoughGroups(s.timestamp, target, n);
    NoGroups(target, s.timestamp);
    TimestampLoop(s, target, s.timestamp, n, 0, rest);
    TakeKeeps(s, n);
  }

  /** ---- Cycle counts ---- */

  // Seven bits of target from bit at on, padded with zeros.
  function Septet(target: Word, at: nat): (v: BitSeq)
    ensures |v| == 7
  {
    seq(7, k requires 0 <= k < 7 => at + k < 32 && target[at + k])
  }

  // The septets of target from bit at on, n of them.
  function CountBytesOf(target: Word, at: nat, n: nat): (pk: seq<Octet>)
    ensures |pk| == n
    decreases n
  {
    if n == 0 then [] else [Septet(target, at) + [1 < n]] + CountBytesOf(target, at + 7, n - 1)
  }

  // The word that has the low bits of target and zeros above.
  function LowPart(target: Word, at: nat): Word {
    seq(32, k requires 0 <= k < 32 => k < at && target[k])
  }

  lemma OrSeptet(target: Word, at: nat)
    ensures OrAt(LowPart(target, at), at, Septet(target, at)) == LowPart(target, at + 7)
  {}

  lemma {:induction false} CountLoop(s: State, target: Word, at: nat, n: nat, left: nat, rest: seq<Octet>)
    requires 1 <= n <= left
    requires s.avail == CountBytesOf(target, at, n) + rest
    ensures CountBytes(s, LowPart(target, at), at, left) == FieldDone(Take(s, n), LowPart(target, at + 7 * n))
    ensures Take(s, n).avail == rest
    decreases n
  {
    hide OrAt, SyncCounts, Get, LowPart, Septet, Take;
    var b := Septet(target, at) + [1 < n];
    NextOf(s, b, CountBytesOf(target, at + 7, n - 1), rest, n - 1);
    assert b[..7] == Septet(target, at);
    OrSeptet(target, at);
    if 1 < n {
      CountLoop(Get(s).st, target, at + 7, n - 1, left - 1, rest);
    } else {
      assert [] + rest == rest;
      TakeNothing(Get(s).st);
    }
  }

  // Any 32-bit count comes back from the ETM format, one to five bytes of seven bits.
  lemma CycleCountRoundTrip(s: State, target: Word, n: nat, rest: seq<Octet>)
    requires 1 <= n <= 5 && (7 * n < 32 ==> target[7 * n..] == Zeros(32 - 7 * n))
    requires s.avail == CountBytesOf(target, 0, n) + rest
    ensures var u := Take(s, n);
            u.avail == rest && CCount(s) == Running(u.(lines := s.lines + [CycleCount(u.Synced(), target)]))
  {
    hide CountBytes, SyncCounts, CountBytesOf, Take, LowPart;
    CountLoop(s, target, 0, n, 5, rest);
    TakeKeeps(s, n);
    NoPart(target);
    WholeCount(target, 7 * n);
  }

  lemma NoPart(target: Word)
    ensures LowPart(target, 0) == Zeros(32)
  {}

  lemma WholeCount(target: Word, at: nat)
    requires at < 32 ==> target[at..] == Zeros(32 - at)
    ensures LowPart(target, at) == target
  {
    forall k | at <= k < 32
      ensures !target[k]
    {
      assert target[at..][k - at] == target[k];
    }
  }

  // A PFT count header: four bits of the count at 5..2 and the continuation flag at 6.
  function CountHeader(target: Word, n: nat, low: BitSeq, top: bool): Octet
    requires |low| == 2
  {
    low + target[..4] + [0 < n, top]
  }

  // Any 32-bit count comes back from the PFT format, a header with four bits and up to four bytes.
  lemma CycleCountPftRoundTrip(s: State, target: Word, n: nat, low: BitSeq, top: bool, rest: seq<Octet>)
    requires |low| == 2 && n <= 4 && (n < 4 ==> target[4 + 7 * n..] == Zeros(28 - 7 * n))
    requires s.data == CountHeader(target, n, low, top) && s.avail == CountBytesOf(target, 4, n) + rest
    ensures var u := Take(s, n);
            u.avail == rest && CycleCountPft(s) == Running(u.(lines := s.lines + [CycleCount(u.Synced(), target)]))
  {
    hide CycleCountField, SyncCounts, CountBytesOf, Take, CountHeader;
    CountFieldRoundTrip(s, target, n, low, top, rest);
    TakeKeeps(s, n);
  }

  lemma CountFieldRoundTrip(s: State, target: Word, n: nat, low: BitSeq, top: bool, rest: seq<Octet>)
    requires |low| == 2 && n <= 4 && (n < 4 ==> target[4 + 7 * n..] == Zeros(28 - 7 * n))
    requires s.data == CountHeader(target, n, low, top) && s.avail == CountBytesOf(target, 4, n) + rest
    ensures CycleCountField(s) == FieldDone(Take(s, n), target) && Take(s, n).avail == rest
  {
    hide CountBytes, SyncCounts, CountBytesOf, Take, LowPart, CountHeader;
    HeaderBits(target, n, low, top);
    WholeCount(target, 4 + 7 * n);
    if 0 < n {
      CountLoop(s, target, 4, n, 4, rest);
    } else {
      NoCountBytes(target, rest);
      TakeNothing(s);
    }
  }

  lemma HeaderBits(target: Word, n: nat, low: BitSeq, top: bool)
    requires |low| == 2
    ensures var b := CountHeader(target, n, low, top);
            b[2..6] + Zeros(28) == LowPart(target, 4) && b[6] == (0 < n)
  {
    assert CountHeader(target, n, low, top)[2..6] == target[..4];
  }

  lemma NoCountBytes(target: Word, rest: seq<Octet>)
    ensures CountBytesOf(target, 4, 0) + rest == rest
  {}

  /** ---- Whole bytes ---- */

  // The lowest n bytes of target from bit at on.
  function BytesOf(target: Word, at: nat, n: nat): (pk: seq<Octet>)
    requires at + 8 * n <= 32
    ensures |pk| == n
    decreases n
  {
    if n == 0 then [] else [target[at..at + 8]] + BytesOf(target, at + 8, n - 1)
  }

  lemma {:induction false} WholeBytesLoop(s: State, target: Word, at: nat, n: nat, rest: seq<Octet>)
    requires at + 8 * n <= 32
    requires s.avail == BytesOf(target, at, n) + rest
    ensures WholeBytes(s, LowPart(target, at), at, n) == FieldDone(Take(s, n), LowPart(target, at + 8 * n))
    ensures Take(s, n).avail == rest
    decreases n
  {
    hide OrAt, SyncCounts, Keeps, Get, LowPart, Take;
    if n != 0 {
      NextOf(s, target[at..at + 8], BytesOf(target, at + 8, n - 1), rest, n - 1);
      OrByte(target, at);
      WholeBytesLoop(Get(s).st, target, at + 8, n - 1, rest);
    } else {
      assert [] + rest == rest;
      TakeNothing(s);
    }
  }

  lemma OrByte(target: Word, at: nat)
    requires at + 8 <= 32
    ensures OrAt(LowPart(target, at), at, target[at..at + 8]) == LowPart(target, at + 8)
  {}

  // A word sent as four bytes comes back.
  lemma AddressWordRoundTrip(s: State, target: Word, rest: seq<Octet>)
    requires s.avail == BytesOf(target, 0, 4) + rest
    ensures WholeBytes(s, Zeros(32), 0, 4) == FieldDone(Take(s, 4), target) && Take(s, 4).avail == rest
  {
    hide WholeBytes, SyncCounts, Take, LowPart, BytesOf;
    WholeBytesLoop(s, target, 0, 4, rest);
    NoPart(target);
    WholeCount(target, 32);
  }

  // A context ID of n bytes comes back.
  lemma ContextRoundTrip(s: State, target: Word, n: nat, rest: seq<Octet>)
    requires n <= 4 && (n < 4 ==> target[8 * n..] == Zeros(32 - 8 * n))
    requires s.avail == BytesOf(target, 0, n) + rest
    ensures WholeBytes(s, Zeros(32), 0, n) == FieldDone(Take(s, n), target) && Take(s, n).avail == rest
  {
    hide WholeBytes, SyncCounts, Take, LowPart, BytesOf;
    WholeBytesLoop(s, target, 0, n, rest);
    NoPart(target);
    WholeCount(target, 8 * n);
  }

  /** ---- Atoms ---- */

  // The instructions of a list of atoms, one after the other.
  function PrintAll(c: Config, s: State, executed: seq<bool>): State
    decreases |executed|
  {
    if executed == [] then s else PrintAll(c, PrintInstruction(c, s, executed[0]), executed[1..])
  }

  // Up to five atoms in one byte: the first is highest, a clear bit is an executed instruction, and
  // the bit above the first marks the end.
  function AtomsByte(executed: seq<bool>): Octet
    requires 1 <= |executed| <= 5
  {
    var n := |executed|;
    [false] + seq(n, i requires 0 <= i < n => !executed[n - 1 - i]) + [true] + Zeros(5 - n) + [true]
  }

  lemma AtomsByteBits(executed: seq<bool>)
    requires 1 <= |executed| <= 5
    ensures var n, b := |executed|, AtomsByte(executed);
            AtomCount(b, 5) == n && b[7] && !b[0] && forall k | 1 <= k <= n :: b[k] == !executed[n - k]
  {
    var n, b := |executed|, AtomsByte(executed);
    assert b[n + 1] && forall k | n + 2 <= k <= 6 :: !b[k];
    CountStops(b, n, 5);
  }

  lemma {:induction false} CountStops(b: Octet, n: nat, i: nat)
    requires 1 <= n <= i <= 5 && b[n + 1] && forall k | n + 2 <= k <= i + 1 :: !b[k]
    ensures AtomCount(b, i) == n
  {
    if n < i { CountStops(b, n, i - 1); }
  }

  lemma {:induction false} AtomsLoop(c: Config, s: State, b: Octet, executed: seq<bool>)
    requires |executed| <= 5 && forall k | 1 <= k <= |executed| :: b[k] == !executed[|executed| - k]
    ensures Atoms(c, s, b, |executed|) == PrintAll(c, s, executed)
    decreases |executed|
  {
    hide PrintInstruction, SyncCounts;
    if executed != [] { AtomsLoop(c, PrintInstruction(c, s, executed[0]), b, executed[1..]); }
  }

  // A byte of atoms prints exactly its instructions, in order.
  lemma AtomsRoundTrip(c: Config, s: State, executed: seq<bool>)
    requires !c.cycleAccurate && 1 <= |executed| <= 5 && s.data == AtomsByte(executed)
    ensures Atom(c, s) == Running(PrintAll(c, s, executed))
  {
    hide SyncCounts, PrintAll, Atoms, AtomsByte;
    AtomsByteBits(executed);
    AtomsLoop(c, s, s.data, executed);
  }

  // An atom with its count: the header holds four bits of the count, and the atom in bit 1.
  lemma AtomWithCountRoundTrip(c: Config, s: State, target: Word, n: nat, executed: bool, rest: seq<Octet>)
    requires c.cycleAccurate && n <= 4 && (n < 4 ==> target[4 + 7 * n..] == Zeros(28 - 7 * n))
    requires s.data == CountHeader(target, n, [false, !executed], true) && s.avail == CountBytesOf(target, 4, n) + rest
    ensures var u := Take(s, n);
            u.avail == rest
            && Atom(c, s) == Running(PrintInstruction(c, u.(lines := s.lines + [CycleCount(u.Synced(), target)]), executed))
  {
    hide CycleCountPft, PrintInstruction, SyncCounts, CountBytesOf;
    CycleCountPftRoundTrip(s, target, n, [false, !executed], true, rest);
    AtomBit(target, n, executed);
  }

  lemma AtomBit(target: Word, n: nat, executed: bool)
    ensures CountHeader(target, n, [false, !executed], true)[1] == !executed
  {}

  /** ---- Data ---- */

  // Byte k of a data address sent as its lowest n groups of seven bits.
  function DataAddressByte(target: Word, n: nat, k: nat): Octet
    requires k < n <= 5
  {
    (if k == 4 then target[28..] + Zeros(3) else target[7 * k..7 * k + 7]) + [k < n - 1]
  }

  function DataAddressOf(target: Word, n: nat, k: nat): (pk: seq<Octet>)
    requires k <= n <= 5
    ensures |pk| == n - k
    decreases n - k
  {
    if k == n then [] else [DataAddressByte(target, n, k)] + DataAddressOf(target, n, k + 1)
  }

  // n groups are enough: all 32 bits are sent, or those above agree with the previous address.
  predicate DataAddressEnough(prev: Word, target: Word, n: nat) {
    n == 5 || (1 <= n < 5 && prev[7 * n..] == target[7 * n..])
  }

  // One group more.
  lemma DataGroup(target: Word, prev: Word, n: nat, k: nat)
    requires k < n <= 5
    ensures var low := Splice(target[..7 * k] + prev[7 * k..], 7 * k, DataAddressByte(target, n, k)[..7]);
            low == (if k == 4 then target else target[..7 * k + 7] + prev[7 * k + 7..])
  {
    var v, w := DataAddressByte(target, n, k)[..7], target[..7 * k] + prev[7 * k..];
    if k == 4 {
      assert v == target[28..] + Zeros(3);
      assert (w[..28] + v)[..32] == target;
    } else {
      assert v == target[7 * k..7 * k + 7];
      assert w[..7 * k] + v == target[..7 * k + 7] && w[7 * k + 7..] == prev[7 * k + 7..];
    }
  }

  lemma {:induction false} DataAddressLoop(s: State, target: Word, prev: Word, n: nat, k: nat, rest: seq<Octet>)
    requires k < n && DataAddressEnough(prev, target, n)
    requires s.avail == DataAddressOf(target, n, k) + rest && s.daddr == target[..7 * k] + prev[7 * k..]
    ensures var r := DataAddressBytes(s, k);
            r == Running(Take(s, n - k).(daddr := target)) && r.st.avail == rest
    decreases n - k
  {
    hide Splice, SyncCounts, Get, Take, DataAddressByte;
    var b := DataAddressByte(target, n, k);
    NextOf(s, b, DataAddressOf(target, n, k + 1), rest, n - k - 1);
    DataGroup(target, prev, n, k);
    ContinuationBit(target, n, k);
    var t := Get(s).st;
    GetKeepsAddress(s);
    var u := t.(daddr := Splice(t.daddr, 7 * k, b[..7]));
    if k + 1 < n {
      DataAddressLoop(u, target, prev, n, k + 1, rest);
      TakeOtherAddress(t, u.daddr, n - k - 1);
    } else {
      assert [] + rest == rest;
      TakeNothing(t);
      if n < 5 { assert target[..7 * n] + prev[7 * n..] == target; }
    }
  }

  lemma ContinuationBit(target: Word, n: nat, k: nat)
    requires k < n <= 5
    ensures DataAddressByte(target, n, k)[7] == (k < n - 1)
  {}

  lemma GetKeepsAddress(s: State)
    ensures Get(s).st.daddr == s.daddr
  {}

  lemma GetOtherAddress(s: State, a: Word)
    requires s.avail != []
    ensures Get(s.(daddr := a)).st == Get(s).st.(daddr := a)
  {}

  // Bytes are taken the same whatever the data address.
  lemma {:induction false} TakeOtherAddress(s: State, a: Word, n: nat)
    requires n <= |s.avail|
    ensures Take(s.(daddr := a), n) == Take(s, n).(daddr := a)
    decreases n
  {
    hide Take, Get, SyncCounts;
    TakeNothing(s);
    TakeNothing(s.(daddr := a));
    if n != 0 {
      GetNext(s);
      GetOtherAddress(s, a);
      TakeNext(s, n);
      TakeNext(s.(daddr := a), n);
      TakeOtherAddress(Get(s).st, a, n - 1);
    }
  }

  // A data address as its lowest n groups of bits.
  datatype Place = Place(address: Word, n: nat)

  // A header of a data packet, with or without an address, and up to three bytes of data.
  function DataHeader(hasAddr: bool, size: nat): Octet
    requires size < 4
  {
    [false, true] + FromNat(size, 2) + [false, hasAddr, false, false]
  }

  lemma DataHeaderBits(hasAddr: bool, size: nat)
    requires size < 4
    ensures ToNat(DataHeader(hasAddr, size)[2..4]) == size && DataHeader(hasAddr, size)[5] == hasAddr
  {
    assert DataHeader(hasAddr, size)[2..4] == FromNat(size, 2);
    assert Pow2(2) == 4;
    ToNatFromNat(size, 2);
  }

  // The bytes of an address, if there is one, and what it leaves as the data address.
  function PlaceBytes(to: Option<Place>): (pk: seq<Octet>)
    requires to.Some? ==> to.value.n <= 5
    ensures |pk| == if to.Some? then to.value.n else 0
  {
    if to.Some? then DataAddressOf(to.value.address, to.value.n, 0) else []
  }

  function AddressOf(to: Option<Place>): Option<Word> {
    if to.Some? then Some(to.value.address) else None
  }

  // Any data address, sent as any sufficient prefix relative to the one before, or none, and any data of
  // up to three bytes come back, with exactly their bytes consumed.
  lemma DataRoundTrip(s: State, to: Option<Place>, value: Word, size: nat, rest: seq<Octet>)
    requires to.Some? ==> DataAddressEnough(s.daddr, to.value.address, to.value.n)
    requires size < 4 && value[8 * size..] == Zeros(32 - 8 * size)
    requires s.data == DataHeader(to.Some?, size)
    requires s.avail == PlaceBytes(to) + (BytesOf(value, 0, size) + rest)
    ensures var u := Take(s, |PlaceBytes(to)| + size);
            u.avail == rest
            && DataPacket(s) == Running(u.(daddr := if to.Some? then to.value.address else s.daddr,
                                           lines := s.lines + [NormalData(u.Synced(), value, size, AddressOf(to))]))
  {
    hide SyncCounts, DataAddressBytes, WholeBytes, Take, DataHeader, PlaceBytes, BytesOf, ToNat, Get;
    DataHeaderBits(to.Some?, size);
    var n := |PlaceBytes(to)|;
    PlaceTaken(s, to, BytesOf(value, 0, size) + rest);
    TakeKeeps(s, n);
    var t := Placed(s, to);
    ContextRoundTrip(t, value, size, rest);
    TakeKeeps(t, size);
    TakeOtherAddress(Take(s, n), t.daddr, size);
    TakeAdd(s, n, size);
  }

  // The state once the address of a data packet is there.
  function Placed(s: State, to: Option<Place>): State
    requires to.Some? ==> to.value.n <= 5
    requires |PlaceBytes(to)| <= |s.avail|
  {
    Take(s, |PlaceBytes(to)|).(daddr := if to.Some? then to.value.address else s.daddr)
  }

  lemma PlaceTaken(s: State, to: Option<Place>, rest: seq<Octet>)
    requires to.Some? ==> DataAddressEnough(s.daddr, to.value.address, to.value.n)
    requires s.avail == PlaceBytes(to) + rest
    ensures (if to.Some? then DataAddressBytes(s, 0) else Running(s)) == Running(Placed(s, to)) && Placed(s, to).avail == rest
  {
    hide SyncCounts, DataAddressBytes, Take, DataAddressOf, Get;
    if to.Some? {
      assert to.value.address[..0] + s.daddr[0..] == s.daddr;
      DataAddressLoop(s, to.value.address, s.daddr, to.value.n, 0, rest);
    } else {
      assert [] + rest == rest;
      TakeNothing(s);
    }
  }

  /** ---- Waypoints ---- */

  // A waypoint update to any aligned address, in any sufficient encoding relative to the old one, comes
  // back with its instruction set and, if announced, its information byte.
  lemma WaypointRoundTrip(c: Config, s: State, target: Word, mode: Mode, n: nat, info: Option<Octet>, rest: seq<Octet>)
    requires 1 <= n <= 5 && Aligned(target, mode) && Enough(c.altBranch, s.iaddr, s.mode, target, mode, n)
    requires info.Some? ==> n == 5 || (c.altBranch && n > 1)
    requires var pk := EtmAddress.Encode(c.altBranch, target, mode, n, info.Some?);
             s.avail == pk + ((if info.Some? then [info.value] else []) + rest)
    ensures n <= |s.avail|
    ensures var u := Arrived(c, Take(s, n), target, mode, n, info.Some?);
            var v := if info.Some? then Get(u).st else u;
            WaypointUpdate(c, s) == Running(v.(lines := u.lines + [Waypoint(v.Synced(), target, info, u.iaddrValid, mode)]))
            && v.avail == rest
  {
    hide SyncCounts, GetBranchAddr, EtmAddress.Encode, Aligned, Enough, KnownBits, ToNat, PrintInstruction;
    var pk := EtmAddress.Encode(c.altBranch, target, mode, n, info.Some?);
    var more := (if info.Some? then [info.value] else []) + rest;
    assert s.avail == [pk[0]] + (pk[1..] + more);
    GetNext(s);
    var t := Get(s).st;
    TakeNext(s, n);
    assert t.data == pk[0] && t.avail == pk[1..] + more && t.iaddr == s.iaddr && t.mode == s.mode;
    ArrivalRoundTrip(c, t, target, mode, n, info.Some?, more);
    if info.Some? { GetNext(GetBranchAddr(c, t).st); }
  }
}
