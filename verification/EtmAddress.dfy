/** Branch address compression: what a packet changes, and that decoding undoes encoding. */
module EtmAddress {
  import opened Octets
  import opened WordBits
  import opened EtmDecode

  // The state after n more bytes have been delivered.
  function Take(s: State, n: nat): (t: State)
    requires n <= |s.avail|
    ensures |t.avail| == |s.avail| - n
    decreases n
  {
    if n == 0 then s else Take(Get(s).st, n - 1)
  }

  lemma {:induction false} TakeStream(s: State, n: nat)
    requires n <= |s.avail|
    ensures var t := Take(s, n);
            t.avail == s.avail[n..] && t.data == if n == 0 then s.data else s.avail[n - 1]
    decreases n
  {
    hide SyncCounts;
    if n != 0 { TakeStream(Get(s).st, n - 1); }
  }

  // Delivering a byte touches nothing but the stream, the byte and the synchronisation count.
  lemma {:induction false} TakeKeeps(s: State, n: nat)
    requires n <= |s.avail|
    ensures var t := Take(s, n);
            t == s.(avail := t.avail, data := t.data, sync := t.sync, sinceReset := t.sinceReset)
    decreases n
  {
    if n != 0 { TakeKeeps(Get(s).st, n - 1); }
  }

  lemma {:induction false} TakeAdd(s: State, m: nat, n: nat)
    requires m + n <= |s.avail|
    ensures Take(Take(s, m), n) == Take(s, m + n)
    decreases m
  {
    hide Get;
    if m != 0 { TakeAdd(Get(s).st, m - 1, n); }
  }

  // Bytes are taken the same whatever the other fields hold.
  predicate SameStream(s: State, t: State) {
    s.avail == t.avail && s.data == t.data && s.sync == t.sync && s.sinceReset == t.sinceReset
  }

  lemma {:induction false} TakeSame(s: State, t: State, n: nat)
    requires n <= |s.avail| && SameStream(s, t)
    ensures Take(t, n) == t.(avail := Take(s, n).avail, data := Take(s, n).data, sync := Take(s, n).sync,
                             sinceReset := Take(s, n).sinceReset)
    decreases n
  {
    if n != 0 {
      hide SyncCounts;
      TakeSame(Get(s).st, Get(t).st, n - 1);
    }
  }

  // A packet of up to five bytes; each but the last has its continuation bit set, and only a fifth
  // byte may have it set at the end.
  predicate IsPacket(pk: seq<Octet>) {
    1 <= |pk| <= 5
    && (forall i | 0 <= i < |pk| - 1 :: pk[i][7])
    && (|pk| < 5 ==> !pk[|pk| - 1][7])
  }

  // How many address bits byte k carries.
  function Width(c: Config, pk: seq<Octet>, k: nat): nat
    requires k < |pk|
  {
    if k == 0 || (c.altBranch && !pk[k][7]) then 6 else 7
  }

  // The address bits of the first k bytes, lowest first.
  function Payload(c: Config, pk: seq<Octet>, k: nat): (p: BitSeq)
    requires 1 <= k <= |pk|
  {
    if k == 1 then pk[0][1..7] else Payload(c, pk, k - 1) + pk[k - 1][..Width(c, pk, k - 1)]
  }

  lemma {:induction false} PayloadLength(c: Config, pk: seq<Octet>, k: nat)
    requires IsPacket(pk) && 1 <= k <= |pk|
    ensures |Payload(c, pk, k)| == if k == 1 then 6 else if k == |pk| && Width(c, pk, k - 1) == 6 then 7 * k - 2 else 7 * k - 1
  {
    if k != 1 { PayloadLength(c, pk, k - 1); }
  }

  lemma SpliceTwice(prev: Word, p: BitSeq, v: BitSeq)
    requires |p| <= 32
    ensures Splice(Splice(prev, 0, p), |p|, v) == Splice(prev, 0, p + v)
  {
    var q := Splice(prev, 0, p);
    assert q == p + prev[|p|..];
    if |p| + |v| <= 32 {
      assert q[|p| + |v|..] == prev[|p| + |v|..];
      assert q[..|p|] + v + q[|p| + |v|..] == p + v + prev[|p| + |v|..];
    } else {
      assert q[..|p|] + v == p + v;
    }
  }

  lemma GetNext(s: State)
    requires s.avail != []
    ensures Get(s).Running? && Get(s).st.data == s.avail[0] && Get(s).st.avail == s.avail[1..]
  {}

  function KnownMask(c: Config, pk: seq<Octet>, k: nat): Word
    requires 1 <= k <= |pk|
  {
    if k == 1 then Ones(6) + Zeros(26) else XorOnes(KnownMask(c, pk, k - 1), 7 * (k - 1) - 1, Width(c, pk, k - 1))
  }

  // One continuation byte.
  lemma AddressStep(c: Config, s: State, pk: seq<Octet>, k: nat, prev: Word)
    requires IsPacket(pk) && 1 <= k < |pk|
    requires s.data == pk[k - 1] && s.avail != [] && s.avail[0] == pk[k]
    ensures AddressBytes(c, s, Splice(prev, 0, Payload(c, pk, k)), KnownMask(c, pk, k), k)
         == AddressBytes(c, Get(s).st, Splice(prev, 0, Payload(c, pk, k + 1)), KnownMask(c, pk, k + 1), k + 1)
  {
    hide Splice, XorOnes, SyncCounts, Get;
    GetNext(s);
    PayloadLength(c, pk, k);
    SpliceTwice(prev, Payload(c, pk, k), pk[k][..Width(c, pk, k)]);
  }

  lemma {:induction false} AddressLoopTakesPacket(c: Config, s: State, pk: seq<Octet>, k: nat, prev: Word, rest: seq<Octet>)
    requires IsPacket(pk) && 1 <= k <= |pk|
    requires s.data == pk[k - 1] && s.avail == pk[k..] + rest
    ensures AddressBytes(c, s, Splice(prev, 0, Payload(c, pk, k)), KnownMask(c, pk, k), k)
         == LoopDone(Take(s, |pk| - k), Splice(prev, 0, Payload(c, pk, |pk|)), KnownMask(c, pk, |pk|), |pk|)
    decreases |pk| - k
  {
    hide Splice, Payload, KnownMask, SyncCounts, Get;
    if k < |pk| {
      hide AddressBytes;
      GetNext(s);
      var t := Get(s).st;
      assert t.data == pk[k] && t.avail == pk[k + 1..] + rest;
      AddressStep(c, s, pk, k, prev);
      AddressLoopTakesPacket(c, t, pk, k + 1, prev, rest);
    }
  }

  // The exact result of a branch address packet, of any length and in both encodings.
  lemma AddressPacket(c: Config, s: State, pk: seq<Octet>, rest: seq<Octet>)
    requires IsPacket(pk) && s.data == pk[0] && s.avail == pk[1..] + rest
    ensures var n := |pk|;
            var t := Take(s, n - 1);
            var exception := (n == 5 || (c.altBranch && n > 1)) && pk[n - 1][6];
            var u := if !exception && c.programFlowOnly then PrintInstruction(c, t, true) else t;
            var mode := if n == 5 then FifthByteMode(pk[4]) else s.mode;
            t.avail == rest
            && GetBranchAddr(c, s)
               == BranchDone(SetAddress(u, Splice(Shr(s.iaddr, s.mode.Shift()), 0, Payload(c, pk, n)),
                                        KnownMask(c, pk, n), mode), exception)
  {
    hide Splice, XorOnes, Shr, SetAddress, SyncCounts, PrintInstruction, Take, AddressBytes;
    AddressLoopTakesPacket(c, s, pk, 1, Shr(s.iaddr, s.mode.Shift()), rest);
    TakeKeeps(s, |pk| - 1);
    TakeStream(s, |pk| - 1);
    assert pk[|pk|..] + rest == rest;
  }

  // A packet of fewer than five bytes replaces exactly the transmitted bits of the address, above
  // those the instruction set leaves zero, and keeps the bits above and the instruction set.
  lemma ShortPacketReplacesLowBits(c: Config, s: State, pk: seq<Octet>, rest: seq<Octet>)
    requires IsPacket(pk) && |pk| < 5 && s.data == pk[0] && s.avail == pk[1..] + rest
    ensures var r, low, shift := GetBranchAddr(c, s), Payload(c, pk, |pk|), s.mode.Shift();
            r.BranchDone? && shift + |low| <= 32
            && r.st.iaddr == Zeros(shift) + low + s.iaddr[shift + |low|..]
            && r.st.pc == r.st.iaddr && r.st.mode == s.mode && r.st.avail == rest
            && r.exception == (c.altBranch && |pk| > 1 && pk[|pk| - 1][6])
  {
    hide XorOnes, SyncCounts, Splice, Shl, Shr, Payload, Take, GetBranchAddr, KnownMask;
    AddressPacket(c, s, pk, rest);
    PayloadLength(c, pk, |pk|);
    TakeKeeps(s, |pk| - 1);
    SpliceLow(s.iaddr, s.mode.Shift(), Payload(c, pk, |pk|));
  }

  lemma SpliceLow(prev: Word, shift: nat, low: BitSeq)
    requires shift + |low| <= 32
    ensures Shl(Splice(Shr(prev, shift), 0, low), shift) == Zeros(shift) + low + prev[shift + |low|..]
  {
    assert Splice(Shr(prev, shift), 0, low) == low + Shr(prev, shift)[|low|..];
  }

  // A packet of five bytes fixes the address and the instruction set, whatever they were before.
  lemma LongPacketFixesAll(c: Config, s: State, pk: seq<Octet>, rest: seq<Octet>)
    requires IsPacket(pk) && |pk| == 5 && s.data == pk[0] && s.avail == pk[1..] + rest
    ensures var r, mode := GetBranchAddr(c, s), FifthByteMode(pk[4]);
            r.BranchDone? && |Payload(c, pk, 5)| >= 32
            && r.st.iaddr == Shl(Payload(c, pk, 5)[..32], mode.Shift())
            && r.st.pc == r.st.iaddr && r.st.mode == mode && r.st.avail == rest && r.exception == pk[4][6]
  {
    hide XorOnes, SyncCounts, Shl, Shr, Payload, Take, GetBranchAddr, KnownMask;
    AddressPacket(c, s, pk, rest);
    PayloadLength(c, pk, 5);
    TakeKeeps(s, 4);
    assert Splice(Shr(s.iaddr, s.mode.Shift()), 0, Payload(c, pk, 5)) == Payload(c, pk, 5)[..32];
  }

  // The mask of known address bits never gets smaller.
  lemma KnownBitsNeverDecrease(c: Config, s: State)
    ensures ToNat(GetBranchAddr(c, s).st.iaddrValid) >= ToNat(s.iaddrValid)
  {
    hide ToNat, Splice, XorOnes, Shl, Shr, SyncCounts;
    AddressBytesKeepMask(c, s, Splice(Shr(s.iaddr, s.mode.Shift()), 0, s.data[1..7]), Ones(6) + Zeros(26), 1);
  }

  lemma {:induction false} AddressBytesKeepMask(c: Config, s: State, addr: Word, mask: Word, count: nat)
    requires 1 <= count <= 5
    ensures AddressBytes(c, s, addr, mask, count).st.iaddrValid == s.iaddrValid
    decreases 5 - count
  {
    hide Splice, XorOnes, SyncCounts;
    if s.data[7] && count < 5 && s.avail != [] {
      var t := Get(s).st;
      var width := if c.altBranch && !t.data[7] then 6 else 7;
      var addr', mask' := Splice(addr, 7 * count - 1, t.data[..width]), XorOnes(mask, 7 * count - 1, width);
      AddressBytesKeepMask(c, t, addr', mask', count + 1);
    }
  }

  /** ---- The encoder ---- */

  // How many address bits n bytes carry, n < 5.
  function Capacity(alt: bool, n: nat): nat
    requires 1 <= n < 5
  {
    if n == 1 then 6 else if alt then 7 * n - 2 else 7 * n - 1
  }

  // A word is aligned when the bits its instruction set does not use are zero.
  predicate Aligned(target: Word, mode: Mode) {
    target[..mode.Shift()] == Zeros(mode.Shift())
  }

  // n bytes are enough to tell target from the old address: everything above them agrees.
  predicate Enough(alt: bool, prev: Word, prevMode: Mode, target: Word, mode: Mode, n: nat) {
    n == 5 || (1 <= n < 5 && mode == prevMode
               && prev[mode.Shift() + Capacity(alt, n)..] == target[mode.Shift() + Capacity(alt, n)..])
  }

  // Byte k of an n-byte packet, k < n < 5, for the address bits v.
  function ShortByte(alt: bool, v: BitSeq, n: nat, exception: bool, k: nat): Octet
    requires k < n < 5 && |v| >= 30
  {
    if k == 0 then [true] + v[..6] + [n > 1]
    else if k < n - 1 then v[7 * k - 1..7 * k + 6] + [true]
    else if alt then v[7 * k - 1..7 * k + 5] + [exception, false]
    else v[7 * k - 1..7 * k + 6] + [false]
  }

  // The fifth byte names the instruction set by the position of its highest address mark.
  function FifthByte(v: BitSeq, mode: Mode, exception: bool): Octet
    requires |v| == 32 - mode.Shift()
  {
    match mode
    case Arm => v[27..30] + [true, false, false, exception, false]
    case Thumb => v[27..31] + [true, false, exception, false]
    case Jazelle => v[27..32] + [true, exception, false]
  }

  function LongByte(v: BitSeq, mode: Mode, exception: bool, k: nat): Octet
    requires k < 5 && |v| == 32 - mode.Shift()
  {
    if k == 0 then [true] + v[..6] + [true]
    else if k < 4 then v[7 * k - 1..7 * k + 6] + [true]
    else FifthByte(v, mode, exception)
  }

  function Encode(alt: bool, target: Word, mode: Mode, n: nat, exception: bool): (pk: seq<Octet>)
    requires 1 <= n <= 5
    ensures |pk| == n
  {
    var v := target[mode.Shift()..];
    if n < 5 then seq(n, k requires 0 <= k < n => ShortByte(alt, v, n, exception, k))
    else seq(5, k requires 0 <= k < 5 => LongByte(v, mode, exception, k))
  }

  lemma EncodeIsPacket(alt: bool, target: Word, mode: Mode, n: nat, exception: bool)
    requires 1 <= n <= 5
    ensures var pk := Encode(alt, target, mode, n, exception);
            IsPacket(pk) && pk[0][0] && (n == 5 ==> FifthByteMode(pk[4]) == mode && pk[4][6] == exception)
  {}

  // How many address bits the first k of n bytes carry.
  function Carried(alt: bool, n: nat, k: nat): nat
    requires 1 <= k <= n < 5
  {
    if k == n then Capacity(alt, n) else 7 * k - 1
  }

  // The packet carries exactly the low bits of the shifted address.
  lemma {:induction false} EncodedPayload(c: Config, target: Word, mode: Mode, n: nat, exception: bool, k: nat)
    requires 1 <= k <= n < 5
    ensures Payload(c, Encode(c.altBranch, target, mode, n, exception), k)
         == target[mode.Shift()..][..Carried(c.altBranch, n, k)]
  {
    hide Encode, ShortByte, Payload, Width, Carried;
    var pk, v := Encode(c.altBranch, target, mode, n, exception), target[mode.Shift()..];
    PayloadNext(c, pk, k);
    EncodedByte(c.altBranch, target, mode, n, exception, k - 1);
    if k == 1 {
      FirstByteBits(c.altBranch, v, n, exception);
    } else {
      EncodedPayload(c, target, mode, n, exception, k - 1);
      WidthIs(c, pk, k - 1);
      ShortByteBits(c.altBranch, v, n, exception, k - 1);
    }
  }

  lemma PayloadNext(c: Config, pk: seq<Octet>, k: nat)
    requires 1 <= k <= |pk|
    ensures Payload(c, pk, k) == if k == 1 then pk[0][1..7] else Payload(c, pk, k - 1) + pk[k - 1][..Width(c, pk, k - 1)]
  {}

  lemma WidthIs(c: Config, pk: seq<Octet>, k: nat)
    requires 0 < k < |pk|
    ensures Width(c, pk, k) == if c.altBranch && !pk[k][7] then 6 else 7
  {}

  lemma EncodedByte(alt: bool, target: Word, mode: Mode, n: nat, exception: bool, k: nat)
    requires k < n < 5
    ensures Encode(alt, target, mode, n, exception)[k] == ShortByte(alt, target[mode.Shift()..], n, exception, k)
  {}

  lemma FirstByteBits(alt: bool, v: BitSeq, n: nat, exception: bool)
    requires 0 < n < 5 && |v| >= 30
    ensures ShortByte(alt, v, n, exception, 0)[1..7] == v[..6] == v[..Carried(alt, n, 1)]
  {}

  lemma ShortByteBits(alt: bool, v: BitSeq, n: nat, exception: bool, k: nat)
    requires 0 < k < n < 5 && |v| >= 30
    ensures var b := ShortByte(alt, v, n, exception, k);
            v[..Carried(alt, n, k)] + b[..if alt && !b[7] then 6 else 7] == v[..Carried(alt, n, k + 1)]
  {
    var b := ShortByte(alt, v, n, exception, k);
    var w := if alt && !b[7] then 6 else 7;
    assert b[..w] == v[7 * k - 1..7 * k - 1 + w];
  }

  lemma EncodedLongPayload(c: Config, target: Word, mode: Mode, exception: bool)
    ensures var p := Payload(c, Encode(c.altBranch, target, mode, 5, exception), 5);
            |p| >= 32 && p[..32 - mode.Shift()] == target[mode.Shift()..]
  {
    var pk, v := Encode(c.altBranch, target, mode, 5, exception), target[mode.Shift()..];
    assert pk[0] == LongByte(v, mode, exception, 0) && pk[0][1..7] == v[..6];
    assert Payload(c, pk, 1) == v[..6];
    assert pk[1] == LongByte(v, mode, exception, 1) && Payload(c, pk, 2) == v[..13];
    assert pk[2] == LongByte(v, mode, exception, 2) && Payload(c, pk, 3) == v[..20];
    assert pk[3] == LongByte(v, mode, exception, 3) && Payload(c, pk, 4) == v[..27];
    assert pk[4] == FifthByte(v, mode, exception);
    assert v == v[..27] + v[27..];
    assert pk[4][..5 - mode.Shift()] == v[27..];
  }

  // Decoding any sufficient encoding of an aligned address, the shortest in particular, gives the
  // address, its instruction set and the exception flag back, and takes exactly the packet.
  lemma AddressRoundTrip(c: Config, s: State, target: Word, mode: Mode, n: nat, exception: bool, rest: seq<Octet>)
    requires Aligned(target, mode) && Enough(c.altBranch, s.iaddr, s.mode, target, mode, n)
    requires var pk := Encode(c.altBranch, target, mode, n, exception); s.data == pk[0] && s.avail == pk[1..] + rest
    ensures var r := GetBranchAddr(c, s);
            r.BranchDone? && r.st.iaddr == target && r.st.pc == target && r.st.mode == mode && r.st.avail == rest
            && (n == 5 || (c.altBranch && n > 1) ==> r.exception == exception)
            && (n < 5 && !(c.altBranch && n > 1) ==> !r.exception)
  {
    hide GetBranchAddr, ToNat, SyncCounts, Payload, Encode, Shl;
    EncodeIsPacket(c.altBranch, target, mode, n, exception);
    if n < 5 {
      ShortRoundTrip(c, s, target, n, exception, rest);
    } else {
      var pk := Encode(c.altBranch, target, mode, n, exception);
      EncodedLongPayload(c, target, mode, exception);
      LongPacketFixesAll(c, s, pk, rest);
      ReassembleLong(target, mode.Shift(), Payload(c, pk, 5));
    }
  }

  lemma ShortRoundTrip(c: Config, s: State, target: Word, n: nat, exception: bool, rest: seq<Octet>)
    requires n < 5 && Aligned(target, s.mode) && Enough(c.altBranch, s.iaddr, s.mode, target, s.mode, n)
    requires var pk := Encode(c.altBranch, target, s.mode, n, exception); s.data == pk[0] && s.avail == pk[1..] + rest
    ensures var r := GetBranchAddr(c, s);
            r.BranchDone? && r.st.iaddr == target && r.st.pc == target && r.st.mode == s.mode && r.st.avail == rest
            && r.exception == (c.altBranch && n > 1 && exception)
  {
    hide GetBranchAddr, ToNat, SyncCounts, Payload, Encode;
    var pk, shift := Encode(c.altBranch, target, s.mode, n, exception), s.mode.Shift();
    EncodeIsPacket(c.altBranch, target, s.mode, n, exception);
    EncodedPayload(c, target, s.mode, n, exception, n);
    ShortPacketReplacesLowBits(c, s, pk, rest);
    Reassemble(target, shift, shift + Capacity(c.altBranch, n));
    LastShortByte(c.altBranch, target, s.mode, n, exception);
  }

  lemma Reassemble(target: Word, a: nat, b: nat)
    requires a <= b <= 32
    ensures target[..a] + target[a..][..b - a] + target[b..] == target
  {}

  lemma ReassembleLong(target: Word, shift: nat, p: BitSeq)
    requires shift <= 2 && |p| >= 32 && p[..32 - shift] == target[shift..] && target[..shift] == Zeros(shift)
    ensures Shl(p[..32], shift) == target
  {
    forall i | 0 <= i < 32
      ensures Shl(p[..32], shift)[i] == target[i]
    {
      if i < shift {
        assert target[..shift][i] == target[i];
      } else {
        assert p[i - shift] == p[..32 - shift][i - shift] == target[shift..][i - shift] == target[i];
      }
    }
  }

  lemma LastShortByte(alt: bool, target: Word, mode: Mode, n: nat, exception: bool)
    requires 1 <= n < 5
    ensures alt && 1 < n ==> Encode(alt, target, mode, n, exception)[n - 1][6] == exception
  {}

  // The address bits that n bytes make known, those of the new instruction set in their places.
  function KnownBits(alt: bool, n: nat): Word
    requires 1 <= n <= 5
  {
    var k := if n == 5 then 32 else Capacity(alt, n);
    Ones(k) + Zeros(32 - k)
  }

  lemma KnownOfPacket(c: Config, target: Word, mode: Mode, n: nat, exception: bool)
    requires 1 <= n <= 5
    ensures KnownMask(c, Encode(c.altBranch, target, mode, n, exception), n) == KnownBits(c.altBranch, n)
  {
    hide KnownMask, Encode;
    EncodeIsPacket(c.altBranch, target, mode, n, exception);
    var pk := Encode(c.altBranch, target, mode, n, exception);
    KnownSoFar(c, pk, n);
    if n == 5 { FifthStops(c.altBranch, target, mode, exception); }
  }

  lemma FifthStops(alt: bool, target: Word, mode: Mode, exception: bool)
    ensures !Encode(alt, target, mode, 5, exception)[4][7]
  {}

  // Before its last byte a packet has seven bits of each but the first.
  lemma {:induction false} KnownSoFar(c: Config, pk: seq<Octet>, k: nat)
    requires IsPacket(pk) && 1 <= k <= |pk|
    ensures var w := if k == 1 then 6 else 7 * (k - 1) - 1 + Width(c, pk, k - 1);
            KnownMask(c, pk, k) == seq(32, i => i < w)
  {
    if k != 1 {
      KnownSoFar(c, pk, k - 1);
    }
  }

  // What an address of n bytes leaves of the state t behind its last byte, whatever the encoding.
  function Arrived(c: Config, t: State, target: Word, mode: Mode, n: nat, exception: bool): (r: State)
    requires 1 <= n <= 5
    ensures SameStream(t, r)
  {
    var u := if !exception && c.programFlowOnly then PrintInstruction(c, t, true) else t;
    var known := Shl(KnownBits(c.altBranch, n), if mode.Arm? then 3 else mode.Shift());
    u.(iaddr := target, pc := target, mode := mode, branchCount := 0,
       iaddrValid := if ToNat(t.iaddrValid) < ToNat(known) then known else t.iaddrValid)
  }

  // A packet that can carry an exception flag.
  predicate CanCarry(alt: bool, n: nat) {
    n == 5 || (alt && n > 1)
  }

  // The whole state after the address, whether an exception is announced or not.
  lemma ArrivalRoundTrip(c: Config, s: State, target: Word, mode: Mode, n: nat, exception: bool, rest: seq<Octet>)
    requires Aligned(target, mode) && Enough(c.altBranch, s.iaddr, s.mode, target, mode, n)
    requires exception ==> CanCarry(c.altBranch, n)
    requires var pk := Encode(c.altBranch, target, mode, n, exception); s.data == pk[0] && s.avail == pk[1..] + rest
    ensures Take(s, n - 1).avail == rest
    ensures GetBranchAddr(c, s) == BranchDone(Arrived(c, Take(s, n - 1), target, mode, n, exception), exception)
  {
    hide GetBranchAddr, ToNat, SyncCounts, Payload, Encode, Shl, Shr, Splice, KnownBits, KnownMask, PrintInstruction;
    EncodeIsPacket(c.altBranch, target, mode, n, exception);
    AddressRoundTrip(c, s, target, mode, n, exception, rest);
    AddressPacket(c, s, Encode(c.altBranch, target, mode, n, exception), rest);
    KnownOfPacket(c, target, mode, n, exception);
    TakeKeeps(s, n - 1);
    PrintKeepsAddress(c, Take(s, n - 1));
  }

  lemma PrintKeepsAddress(c: Config, s: State)
    ensures var u := PrintInstruction(c, s, true); u.iaddrValid == s.iaddrValid && SameStream(s, u) && u.mode == s.mode
  {}

  // The least number of bytes that is enough.
  function Shortest(alt: bool, prev: Word, prevMode: Mode, target: Word, mode: Mode, n: nat): (k: nat)
    requires 1 <= n <= 5
    ensures n <= k <= 5 && Enough(alt, prev, prevMode, target, mode, k)
    ensures forall j | n <= j < k :: !Enough(alt, prev, prevMode, target, mode, j)
    decreases 5 - n
  {
    if Enough(alt, prev, prevMode, target, mode, n) then n else Shortest(alt, prev, prevMode, target, mode, n + 1)
  }
}
