/** Every packet of both protocols as a tracer sends it, and what it does to the decoder: from its header
    byte through the main loop to the lines printed. */
module EtmPackets {
  import opened Octets
  import opened WordBits
  import D = EtmDecode
  import opened EtmAddress
  import opened EtmFields
  import opened EtmTable
  import opened EtmRun
  import EtmPHeaders

  // A count sent with n bytes behind its header.
  datatype Count = Count(value: Word, n: nat)

  // An address sent with n bytes.
  datatype Target = Target(address: Word, mode: D.Mode, n: nat)

  /** ---- Parts of packets ---- */

  predicate FitsEtm(count: Count) {
    1 <= count.n <= 5 && (7 * count.n < 32 ==> count.value[7 * count.n..] == Zeros(32 - 7 * count.n))
  }

  predicate FitsPft(count: Count) {
    count.n <= 4 && (count.n < 4 ==> count.value[4 + 7 * count.n..] == Zeros(28 - 7 * count.n))
  }

  predicate ContextFits(c: D.Config, context: Word) {
    c.contextIdBytes <= 4
    && (c.contextIdBytes < 4 ==> context[8 * c.contextIdBytes..] == Zeros(32 - 8 * c.contextIdBytes))
  }

  // A packet that a cycle count follows.
  predicate IsCounted(c: D.Config, p: Protocol) {
    p.Pft? && c.cycleAccurate
  }

  // No exception, one byte, or two of which the first says so.
  predicate IsException(exception: seq<Octet>) {
    exception == [] || (|exception| == 1 && !exception[0][7]) || (|exception| == 2 && exception[0][7])
  }

  predicate IsTarget(to: Target) {
    1 <= to.n <= 5 && Aligned(to.address, to.mode)
  }

  predicate Reaches(c: D.Config, s: D.State, to: Target) {
    IsTarget(to) && Enough(c.altBranch, s.iaddr, s.mode, to.address, to.mode, to.n)
  }

  function PftCount(count: Count): (pk: seq<Octet>)
    ensures |pk| == 1 + count.n
  {
    [CountHeader(count.value, count.n, [false, false], false)] + CountBytesOf(count.value, 4, count.n)
  }

  // The count behind a packet of a cycle-accurate program-flow trace.
  function Counted(c: D.Config, p: Protocol, count: Count): seq<Octet> {
    if IsCounted(c, p) then PftCount(count) else []
  }

  // The lowest bit of an address sent tells Thumb.
  function SentAddress(address: Word, mode: D.Mode): Word {
    if mode.Thumb? then address[0 := true] else address
  }

  function ISyncBytes(c: D.Config, p: Protocol, sent: Word, info: Octet, context: Word, count: D.Option<Count>): seq<Octet>
    requires c.contextIdBytes <= 4
  {
    var contextBytes, addressBytes := BytesOf(context, 0, c.contextIdBytes), BytesOf(sent, 0, 4);
    if p.Etm33? then
      (if count.Some? then [Header(0x70)] + CountBytesOf(count.value.value, 0, count.value.n) else [Header(0x08)])
      + (contextBytes + ([info] + addressBytes))
    else
      [Header(0x08)] + (addressBytes + ([info] + ((if count.Some? then PftCount(count.value) else []) + contextBytes)))
  }

  // Both exception bytes in one, bit by bit.
  function ExceptionValue(exception: seq<Octet>): D.Option<Octet> {
    if exception == [] then D.None
    else if |exception| == 1 then D.Some(exception[0])
    else D.Some(EitherBit(exception[0], exception[1]))
  }

  function EitherBit(a: Octet, b: Octet): Octet {
    seq(8, i requires 0 <= i < 8 => a[i] || b[i])
  }

  // Whether the decoder is synchronised once it has taken n bytes; a line says so.
  predicate SyncedAfter(s: D.State, n: nat)
    requires n <= |s.avail|
  {
    Take(s, n).Synced()
  }

  // The stream as after n bytes, the rest as in t.
  function OnStream(t: D.State, s: D.State, n: nat): D.State
    requires n <= |s.avail|
  {
    var u := Take(s, n);
    t.(avail := u.avail, data := u.data, sync := u.sync, sinceReset := u.sinceReset)
  }

  function LoseSync(t: D.State, line: D.Line): D.State {
    t.(sync := 0, sinceReset := [], lines := t.lines + [line])
  }

  // The state u of a packet once the count behind it is there, if the trace has one; n bytes in all.
  function Counting(c: D.Config, p: Protocol, s: D.State, u: D.State, n: nat, count: Count): D.State
    requires n <= |s.avail|
  {
    var line := if IsCounted(c, p) then [D.CycleCount(SyncedAfter(s, n), count.value)] else [];
    OnStream(u, s, n).(lines := u.lines + line)
  }

  function AtAddress(t: D.State, address: Word, mode: D.Mode): D.State {
    t.(mode := mode, iaddr := address, iaddrValid := Ones(32), pc := address, branchCount := 0)
  }

  /** ---- From the header byte ---- */

  lemma FirstByte(c: D.Config, p: Protocol, s: D.State, b: Octet, rest: seq<Octet>)
    requires s.avail == [b] + rest
    ensures var t := Take(s, 1);
            Round(c, p, s) == Dispatch(c, t, Starts(p, ToByte(b)))
            && t == s.(avail := rest, data := b, sync := t.sync, sinceReset := t.sinceReset)
  {
    hide HandlerOf, Dispatch, ToByte, Starts, D.SyncCounts;
    HeaderStarts(p, b);
    TakeNothing(D.Get(s).st);
  }

  lemma Handles(c: D.Config, t: D.State, h: Handler)
    ensures h.HBranch? ==> Dispatch(c, t, h) == D.Branch(c, t)
    ensures h.HAsync? || h.HIgnore? ==> Dispatch(c, t, h) == D.Running(t)
    ensures h.HCCount? ==> Dispatch(c, t, h) == D.CCount(t)
    ensures h.HISync? ==> Dispatch(c, t, h) == D.ISyncPacket(c, t)
    ensures h.HISyncCC? ==> Dispatch(c, t, h) == D.ISyncCycleCount(c, t)
    ensures h.HVmid? ==> Dispatch(c, t, h) == D.VmidPacket(t)
    ensures h.HData? ==> Dispatch(c, t, h) == D.DataPacket(t)
    ensures h.HTimestamp? ==> Dispatch(c, t, h) == D.TimestampPacket(t)
    ensures h.HContextId? ==> Dispatch(c, t, h) == D.ContextIdPacket(c, t)
    ensures h.HPHeader? ==> Dispatch(c, t, h) == D.Running(D.PHeader(c, t))
    ensures h.HISyncPft? ==> Dispatch(c, t, h) == D.ISyncPft(c, t)
    ensures h.HAtom? ==> Dispatch(c, t, h) == D.Atom(c, t)
    ensures h.HBranchPft? ==> Dispatch(c, t, h) == D.BranchPft(c, t)
    ensures h.HWaypoint? ==> Dispatch(c, t, h) == D.WaypointUpdate(c, t)
    ensures h.HTimestampPft? ==> Dispatch(c, t, h) == D.TimestampPft(c, t)
    ensures h.HTrigger? ==> Dispatch(c, t, h) == D.Running(t.Print(D.Trigger(t.Synced())))
    ensures h.HExceptRet? ==> Dispatch(c, t, h) == D.Running(t.Print(D.ExceptionReturn(t.Synced())))
    ensures h.HNone? ==> Dispatch(c, t, h) == D.Running(LoseSync(t, D.NotHandled(t.data)))
  {
    hide D.Branch, D.CCount, D.ISyncPacket, D.ISyncCycleCount, D.VmidPacket, D.DataPacket, D.TimestampPacket,
         D.ContextIdPacket, D.PHeader, D.ISyncPft, D.Atom, D.BranchPft, D.WaypointUpdate, D.TimestampPft, D.SyncCounts;
  }

  lemma HeaderTable(p: Protocol)
    ensures Starts(p, 0x00) == HAsync && Starts(p, 0x66) == HIgnore && Starts(p, 0x3c) == HVmid
            && Starts(p, 0x6e) == HContextId
    ensures Starts(p, 0x42) == Starts(p, 0x46) == if p.Etm33? then HTimestamp else HTimestampPft
    ensures Starts(p, 0x08) == if p.Etm33? then HISync else HISyncPft
    ensures Starts(Etm33, 0x04) == HCCount && Starts(Etm33, 0x70) == HISyncCC
    ensures Starts(Pft, 0x0c) == HTrigger && Starts(Pft, 0x72) == HWaypoint && Starts(Pft, 0x76) == HExceptRet
  {}

  // A packet with a header of its own.
  lemma FirstHeader(c: D.Config, p: Protocol, s: D.State, h: bv8, rest: seq<Octet>)
    requires s.avail == [Header(h)] + rest
    ensures var t := Take(s, 1);
            Round(c, p, s) == Dispatch(c, t, Starts(p, h))
            && t == s.(avail := rest, data := Header(h), sync := t.sync, sinceReset := t.sinceReset)
  {
    hide Starts, ToByte, Header, Dispatch, Take, Round;
    HeaderByte(h);
    FirstByte(c, p, s, Header(h), rest);
  }

  // n more bytes behind the header.
  lemma BytesBehind(s: D.State, n: nat, b: Octet, rest: seq<Octet>)
    requires s.avail == [b] + rest && n <= |rest|
    ensures Take(Take(s, 1), n) == Take(s, 1 + n)
    ensures var t := Take(s, 1 + n);
            t == s.(avail := rest[n..], data := t.data, sync := t.sync, sinceReset := t.sinceReset)
  {
    hide Take;
    TakeAdd(s, 1, n);
    TakeKeeps(s, 1 + n);
    TakeStream(s, 1 + n);
    assert s.avail[1 + n..] == rest[n..];
  }

  lemma VmidHandled(c: D.Config, p: Protocol, s: D.State, rest: seq<Octet>)
    requires s.avail == [Header(0x3c)] + rest
    ensures Round(c, p, s) == D.VmidPacket(Take(s, 1))
    ensures var t := Take(s, 1); t == s.(avail := rest, data := t.data, sync := t.sync, sinceReset := t.sinceReset)
  {
    hide Starts, Header, Dispatch, Take, Round, D.VmidPacket;
    FirstHeader(c, p, s, 0x3c, rest);
    HeaderTable(p);
    Handles(c, Take(s, 1), HVmid);
  }

  lemma ContextIdHandled(c: D.Config, p: Protocol, s: D.State, rest: seq<Octet>)
    requires s.avail == [Header(0x6e)] + rest
    ensures Round(c, p, s) == D.ContextIdPacket(c, Take(s, 1))
    ensures var t := Take(s, 1); t == s.(avail := rest, data := t.data, sync := t.sync, sinceReset := t.sinceReset)
  {
    hide Starts, Header, Dispatch, Take, Round, D.ContextIdPacket;
    FirstHeader(c, p, s, 0x6e, rest);
    HeaderTable(p);
    Handles(c, Take(s, 1), HContextId);
  }

  lemma CycleCountHandled(c: D.Config, s: D.State, rest: seq<Octet>)
    requires s.avail == [Header(0x04)] + rest
    ensures Round(c, Etm33, s) == D.CCount(Take(s, 1))
    ensures var t := Take(s, 1); t == s.(avail := rest, data := t.data, sync := t.sync, sinceReset := t.sinceReset)
  {
    hide Starts, Header, Dispatch, Take, Round, D.CCount;
    FirstHeader(c, Etm33, s, 0x04, rest);
    HeaderTable(Etm33);
    Handles(c, Take(s, 1), HCCount);
  }

  lemma WaypointHandled(c: D.Config, s: D.State, rest: seq<Octet>)
    requires s.avail == [Header(0x72)] + rest
    ensures Round(c, Pft, s) == D.WaypointUpdate(c, Take(s, 1))
    ensures var t := Take(s, 1); t == s.(avail := rest, data := t.data, sync := t.sync, sinceReset := t.sinceReset)
  {
    hide Starts, Header, Dispatch, Take, Round, D.WaypointUpdate;
    FirstHeader(c, Pft, s, 0x72, rest);
    HeaderTable(Pft);
    Handles(c, Take(s, 1), HWaypoint);
  }

  lemma ISyncHandled(c: D.Config, s: D.State, rest: seq<Octet>)
    requires s.avail == [Header(0x08)] + rest
    ensures Round(c, Etm33, s) == D.ISyncPacket(c, Take(s, 1))
    ensures var t := Take(s, 1); t == s.(avail := rest, data := t.data, sync := t.sync, sinceReset := t.sinceReset)
  {
    hide Starts, Header, Dispatch, Take, Round, D.ISyncPacket;
    FirstHeader(c, Etm33, s, 0x08, rest);
    HeaderTable(Etm33);
    Handles(c, Take(s, 1), HISync);
  }

  lemma ISyncCountHandled(c: D.Config, s: D.State, rest: seq<Octet>)
    requires s.avail == [Header(0x70)] + rest
    ensures Round(c, Etm33, s) == D.ISyncCycleCount(c, Take(s, 1))
    ensures var t := Take(s, 1); t == s.(avail := rest, data := t.data, sync := t.sync, sinceReset := t.sinceReset)
  {
    hide Starts, Header, Dispatch, Take, Round, D.ISyncCycleCount;
    FirstHeader(c, Etm33, s, 0x70, rest);
    HeaderTable(Etm33);
    Handles(c, Take(s, 1), HISyncCC);
  }

  lemma ISyncPftHandled(c: D.Config, s: D.State, rest: seq<Octet>)
    requires s.avail == [Header(0x08)] + rest
    ensures Round(c, Pft, s) == D.ISyncPft(c, Take(s, 1))
    ensures var t := Take(s, 1); t == s.(avail := rest, data := t.data, sync := t.sync, sinceReset := t.sinceReset)
  {
    hide Starts, Header, Dispatch, Take, Round, D.ISyncPft;
    FirstHeader(c, Pft, s, 0x08, rest);
    HeaderTable(Pft);
    Handles(c, Take(s, 1), HISyncPft);
  }

  lemma AsyncRound(c: D.Config, p: Protocol, s: D.State, h: bv8, rest: seq<Octet>)
    requires h == 0x00 || h == 0x66
    requires s.avail == [Header(h)] + rest
    ensures Round(c, p, s) == D.Running(Take(s, 1)) && Take(s, 1).avail == rest
  {
    hide Starts, ToByte, D.SyncCounts, Take, Dispatch, Header;
    FirstHeader(c, p, s, h, rest);
    HeaderTable(p);
    Handles(c, Take(s, 1), Starts(p, h));
  }

  lemma TriggerRound(c: D.Config, s: D.State, rest: seq<Octet>)
    requires s.avail == [Header(0x0c)] + rest
    ensures var t := Take(s, 1);
            t.avail == rest && Round(c, Pft, s) == D.Running(t.(lines := s.lines + [D.Trigger(t.Synced())]))
  {
    hide Starts, ToByte, D.SyncCounts, Take, Dispatch, Header;
    FirstHeader(c, Pft, s, 0x0c, rest);
    HeaderTable(Pft);
    Handles(c, Take(s, 1), HTrigger);
  }

  lemma ExceptionReturnRound(c: D.Config, s: D.State, rest: seq<Octet>)
    requires s.avail == [Header(0x76)] + rest
    ensures var t := Take(s, 1);
            t.avail == rest && Round(c, Pft, s) == D.Running(t.(lines := s.lines + [D.ExceptionReturn(t.Synced())]))
  {
    hide Starts, ToByte, D.SyncCounts, Take, Dispatch, Header;
    FirstHeader(c, Pft, s, 0x76, rest);
    HeaderTable(Pft);
    Handles(c, Take(s, 1), HExceptRet);
  }

  // A header without a decoder loses synchronisation.
  lemma UndecodedRound(c: D.Config, p: Protocol, s: D.State, h: Octet, rest: seq<Octet>)
    requires Starts(p, ToByte(h)) == HNone && s.avail == [h] + rest
    ensures Take(s, 1).avail == rest && Round(c, p, s) == D.Running(LoseSync(Take(s, 1), D.NotHandled(h)))
  {
    hide ToByte, D.SyncCounts, Take, Dispatch, Starts;
    FirstByte(c, p, s, h, rest);
    Handles(c, Take(s, 1), HNone);
  }

  lemma VmidRound(c: D.Config, p: Protocol, s: D.State, vmid: Octet, rest: seq<Octet>)
    requires s.avail == [Header(0x3c)] + ([vmid] + rest)
    ensures var t := Take(s, 2);
            t.avail == rest && Round(c, p, s) == D.Running(t.(lines := s.lines + [D.Vmid(t.Synced(), vmid)]))
  {
    hide Starts, ToByte, D.SyncCounts, Take, D.Get, Dispatch, Header;
    VmidHandled(c, p, s, [vmid] + rest);
    BytesBehind(s, 1, Header(0x3c), [vmid] + rest);
    OneByte(Take(s, 1));
  }

  lemma OneByte(s: D.State)
    requires s.avail != []
    ensures D.Get(s) == D.Running(Take(s, 1)) && Take(s, 1).data == s.avail[0]
  {
    TakeNothing(D.Get(s).st);
    TakeStream(s, 1);
  }

  lemma ContextIdRound(c: D.Config, p: Protocol, s: D.State, context: Word, rest: seq<Octet>)
    requires ContextFits(c, context) && s.avail == [Header(0x6e)] + (BytesOf(context, 0, c.contextIdBytes) + rest)
    ensures var t := Take(s, 1 + c.contextIdBytes);
            t.avail == rest && Round(c, p, s) == D.Running(t.(lines := s.lines + [D.ContextId(t.Synced(), context)]))
  {
    hide Starts, ToByte, D.SyncCounts, Take, D.WholeBytes, BytesOf, Dispatch, Header;
    var body := BytesOf(context, 0, c.contextIdBytes) + rest;
    ContextIdHandled(c, p, s, body);
    ContextRoundTrip(Take(s, 1), context, c.contextIdBytes, rest);
    BytesBehind(s, c.contextIdBytes, Header(0x6e), body);
  }

  lemma CycleCountRound(c: D.Config, s: D.State, count: Count, rest: seq<Octet>)
    requires FitsEtm(count) && s.avail == [Header(0x04)] + (CountBytesOf(count.value, 0, count.n) + rest)
    ensures var t := Take(s, 1 + count.n);
            t.avail == rest && Round(c, Etm33, s) == D.Running(t.(lines := s.lines
                + [D.CycleCount(t.Synced(), count.value)]))
  {
    hide Starts, ToByte, D.SyncCounts, Take, D.CCount, CountBytesOf, Dispatch, Header;
    var body := CountBytesOf(count.value, 0, count.n) + rest;
    CycleCountHandled(c, s, body);
    CycleCountRoundTrip(Take(s, 1), count.value, count.n, rest);
    BytesBehind(s, count.n, Header(0x04), body);
  }

  lemma DataRound(c: D.Config, s: D.State, place: D.Option<Place>, value: Word, size: nat, rest: seq<Octet>)
    requires place.Some? ==> DataAddressEnough(s.daddr, place.value.address, place.value.n)
    requires size < 4 && value[8 * size..] == Zeros(32 - 8 * size)
    requires s.avail == [DataHeader(place.Some?, size)] + (PlaceBytes(place) + (BytesOf(value, 0, size) + rest))
    ensures var t := Take(s, 1 + |PlaceBytes(place)| + size);
            t.avail == rest
            && Round(c, Etm33, s)
               == D.Running(t.(daddr := if place.Some? then place.value.address else s.daddr,
                               lines := s.lines + [D.NormalData(t.Synced(), value, size, AddressOf(place))]))
  {
    hide D.SyncCounts, Take, D.DataPacket, DataHeader, PlaceBytes, BytesOf, Round;
    var h, body := DataHeader(place.Some?, size), PlaceBytes(place) + (BytesOf(value, 0, size) + rest);
    DataHandled(c, s, place.Some?, size, body);
    DataRoundTrip(Take(s, 1), place, value, size, rest);
    BytesBehind(s, |PlaceBytes(place)| + size, h, body);
  }

  lemma DataHandled(c: D.Config, s: D.State, hasAddr: bool, size: nat, rest: seq<Octet>)
    requires size < 4 && s.avail == [DataHeader(hasAddr, size)] + rest
    ensures Round(c, Etm33, s) == D.DataPacket(Take(s, 1))
    ensures var t := Take(s, 1); t == s.(avail := rest, data := DataHeader(hasAddr, size), sync := t.sync,
            sinceReset := t.sinceReset)
  {
    hide ToByte, Take, D.DataPacket, DataHeader, Dispatch, Starts, Round;
    FirstByte(c, Etm33, s, DataHeader(hasAddr, size), rest);
    DataStarts(hasAddr, size);
    Handles(c, Take(s, 1), HData);
  }

  lemma DataStarts(hasAddr: bool, size: nat)
    requires size < 4
    ensures Starts(Etm33, ToByte(DataHeader(hasAddr, size))) == HData
  {
    var h := DataHeader(hasAddr, size);
    assert !h[0] && h[1] && !h[4] && !h[6] && !h[7];
    DataByte(h);
  }

  lemma DataByte(h: Octet)
    requires !h[0] && h[1] && !h[4] && !h[6] && !h[7]
    ensures Starts(Etm33, ToByte(h)) == HData
  {}

  lemma AtomsRound(c: D.Config, s: D.State, executed: seq<bool>, rest: seq<Octet>)
    requires !c.cycleAccurate && 1 <= |executed| <= 5 && s.avail == [AtomsByte(executed)] + rest
    ensures Take(s, 1).avail == rest && Round(c, Pft, s) == D.Running(PrintAll(c, Take(s, 1), executed))
  {
    hide ToByte, D.SyncCounts, Take, D.Atom, PrintAll, AtomsByte, Dispatch, Starts;
    FirstByte(c, Pft, s, AtomsByte(executed), rest);
    AtomsByteBits(executed);
    AtomStarts(AtomsByte(executed));
    Handles(c, Take(s, 1), HAtom);
    AtomsRoundTrip(c, Take(s, 1), executed);
  }

  lemma AtomStarts(h: Octet)
    requires h[7] && !h[0]
    ensures Starts(Pft, ToByte(h)) == HAtom && Starts(Etm33, ToByte(h)) == HPHeader
  {}

  lemma CountedAtomRound(c: D.Config, s: D.State, taken: bool, count: Count, rest: seq<Octet>)
    requires c.cycleAccurate && FitsPft(count)
    requires s.avail == [CountHeader(count.value, count.n, [false, !taken], true)]
                        + (CountBytesOf(count.value, 4, count.n) + rest)
    ensures var t := Take(s, 1 + count.n);
            t.avail == rest
            && Round(c, Pft, s)
               == D.Running(D.PrintInstruction(c, t.(lines := s.lines + [D.CycleCount(t.Synced(), count.value)]), taken))
  {
    hide ToByte, D.SyncCounts, Take, D.Atom, D.PrintInstruction, CountHeader, CountBytesOf, Dispatch, Starts;
    var h, body := CountHeader(count.value, count.n, [false, !taken], true), CountBytesOf(count.value, 4, count.n) + rest;
    FirstByte(c, Pft, s, h, body);
    CountHeaderEnds(count, taken);
    AtomStarts(h);
    Handles(c, Take(s, 1), HAtom);
    AtomWithCountRoundTrip(c, Take(s, 1), count.value, count.n, taken, rest);
    BytesBehind(s, count.n, h, body);
  }

  lemma CountHeaderEnds(count: Count, taken: bool)
    ensures var h := CountHeader(count.value, count.n, [false, !taken], true); h[7] && !h[0]
  {}

  lemma PHeaderRound(c: D.Config, s: D.State, h: Octet, rest: seq<Octet>)
    requires EtmPHeaders.IsPHeader(h) && s.avail == [h] + rest
    ensures Take(s, 1).avail == rest
    ensures Round(c, Etm33, s)
         == D.Running(if EtmPHeaders.IsKnown(c, h) then EtmPHeaders.PrintEvents(c, Take(s, 1),
             EtmPHeaders.HeaderEvents(c, h))
                      else LoseSync(Take(s, 1), D.BadHeader))
  {
    hide ToByte, D.SyncCounts, Take, D.PHeader, EtmPHeaders.PrintEvents, EtmPHeaders.HeaderEvents, EtmPHeaders.IsKnown,
         Dispatch, Starts;
    FirstByte(c, Etm33, s, h, rest);
    AtomStarts(h);
    Handles(c, Take(s, 1), HPHeader);
    EtmPHeaders.HeaderPrints(c, Take(s, 1));
  }

  /** ---- Counts behind a packet ---- */

  // k more bytes behind n, whatever those have done to the other fields.
  lemma PartBehind(s: D.State, u: D.State, n: nat, k: nat)
    requires n + k <= |s.avail| && SameStream(Take(s, n), u)
    ensures Take(u, k) == OnStream(u, s, n + k) && SameStream(Take(s, n + k), Take(u, k))
  {
    hide Take;
    TakeSame(Take(s, n), u, k);
    TakeAdd(s, n, k);
  }

  lemma ByteBehind(s: D.State, u: D.State, n: nat, b: Octet, rest: seq<Octet>)
    requires n <= |s.avail| && SameStream(Take(s, n), u) && u.avail == [b] + rest
    ensures n + 1 <= |s.avail| && Take(s, n + 1).avail == rest && Take(s, n + 1).data == b
    ensures D.Get(u) == D.Running(OnStream(u, s, n + 1))
  {
    hide Take, D.Get;
    OneByte(u);
    PartBehind(s, u, n, 1);
    TakeKeeps(u, 1);
    TakeStream(u, 1);
    assert u.avail[1..] == rest;
  }

  // A count behind n bytes.
  lemma CountBehind(s: D.State, u: D.State, n: nat, count: Count, rest: seq<Octet>)
    requires FitsPft(count) && n <= |s.avail| && SameStream(Take(s, n), u) && u.avail == PftCount(count) + rest
    ensures var m := n + 1 + count.n;
            m <= |s.avail| && Take(s, m).avail == rest
            && D.NextCycleCount(u)
               == D.Running(OnStream(u, s, m).(lines := u.lines + [D.CycleCount(SyncedAfter(s, m), count.value)]))
  {
    hide D.SyncCounts, Take, D.Get, D.CycleCountPft, CountHeader, CountBytesOf;
    var h, body := CountHeader(count.value, count.n, [false, false], false), CountBytesOf(count.value, 4, count.n) + rest;
    assert u.avail == [h] + body;
    ByteBehind(s, u, n, h, body);
    var v := OnStream(u, s, n + 1);
    CycleCountPftRoundTrip(v, count.value, count.n, [false, false], false, rest);
    PartBehind(s, v, n + 1, count.n);
  }

  // The count of a cycle-accurate trace behind n bytes, or nothing.
  lemma CountedBehind(c: D.Config, p: Protocol, s: D.State, u: D.State, n: nat, count: Count, rest: seq<Octet>)
    requires IsCounted(c, p) ==> FitsPft(count)
    requires n <= |s.avail| && SameStream(Take(s, n), u) && u.avail == Counted(c, p, count) + rest
    ensures var m := n + |Counted(c, p, count)|;
            m <= |s.avail| && Take(s, m).avail == rest
            && (if IsCounted(c, p) then D.NextCycleCount(u) else D.Running(u)) == D.Running(Counting(c, p, s, u, m, count))
  {
    hide D.SyncCounts, Take, D.NextCycleCount, PftCount;
    if IsCounted(c, p) {
      CountBehind(s, u, n, count, rest);
    } else {
      assert [] + rest == rest && u.lines + [] == u.lines;
    }
  }

  lemma TimestampBody(s: D.State, h: Octet, time: DoubleWord, n: nat, more: seq<Octet>)
    requires TimestampEnough(s.timestamp, time, n) && n <= 9
    requires s.avail == [h] + (TimestampBytesOf(time, n, 0) + more)
    ensures Take(s, 1 + n).avail == more
    ensures D.TimestampPacket(Take(s, 1)) == D.Running(TimeTaken(s, time, n))
  {
    hide D.SyncCounts, Take, D.TimestampPacket, TimestampBytesOf, TimestampEnough;
    BytesBehind(s, n, h, TimestampBytesOf(time, n, 0) + more);
    BytesBehind(s, 0, h, TimestampBytesOf(time, n, 0) + more);
    TimestampRoundTrip(Take(s, 1), time, n, more);
  }

  function TimeTaken(s: D.State, time: DoubleWord, n: nat): D.State
    requires 1 + n <= |s.avail|
  {
    Take(s, 1 + n).(timestamp := time, lines := s.lines + [D.Timestamp(SyncedAfter(s, 1 + n), time)])
  }

  lemma TimestampRound(c: D.Config, p: Protocol, s: D.State, time: DoubleWord, n: nat, r: bool, count: Count,
      rest: seq<Octet>)
    requires TimestampEnough(s.timestamp, time, n) && (IsCounted(c, p) ==> FitsPft(count))
    requires n <= 9
    requires s.avail == [Header(if r then 0x46 else 0x42)] + (TimestampBytesOf(time, n, 0) + (Counted(c, p, count) + rest))
    ensures var m := 1 + n + |Counted(c, p, count)|;
            m <= |s.avail| && Take(s, m).avail == rest
            && Round(c, p, s) == D.Running(Counting(c, p, s, TimeTaken(s, time, n), m, count))
  {
    hide D.SyncCounts, Take, D.TimestampPacket, TimestampBytesOf, TimestampEnough, Header, Counted, D.NextCycleCount,
         Counting, TimeTaken, Round;
    var h, more := if r then 0x46 else 0x42, Counted(c, p, count) + rest;
    TimestampHandled(c, p, s, h, TimestampBytesOf(time, n, 0) + more);
    TimestampBody(s, Header(h), time, n, more);
    TimeOnStream(s, time, n);
    CountedBehind(c, p, s, TimeTaken(s, time, n), 1 + n, count, rest);
  }

  lemma TimestampHandled(c: D.Config, p: Protocol, s: D.State, h: bv8, rest: seq<Octet>)
    requires (h == 0x42 || h == 0x46) && s.avail == [Header(h)] + rest
    ensures var r := D.TimestampPacket(Take(s, 1));
            Round(c, p, s) == if IsCounted(c, p) && r.Running? then D.NextCycleCount(r.st) else r
  {
    hide Starts, ToByte, D.SyncCounts, Take, D.TimestampPacket, D.NextCycleCount, Dispatch, Header;
    FirstHeader(c, p, s, h, rest);
    HeaderTable(p);
    Handles(c, Take(s, 1), Starts(p, h));
  }

  lemma TimeOnStream(s: D.State, time: DoubleWord, n: nat)
    requires 1 + n <= |s.avail|
    ensures SameStream(Take(s, 1 + n), TimeTaken(s, time, n))
  {
    hide Take;
  }

  /** ---- Branches ---- */

  // A branch from its first byte on: the address, then the exception.
  lemma BranchBody(c: D.Config, t: D.State, to: Target, exception: seq<Octet>, rest: seq<Octet>)
    requires Reaches(c, t, to) && IsException(exception) && (exception != [] ==> CanCarry(c.altBranch, to.n))
    requires var pk := Encode(c.altBranch, to.address, to.mode, to.n, exception != []);
             t.data == pk[0] && t.avail == pk[1..] + (exception + rest)
    ensures var a := Arrived(c, Take(t, to.n - 1), to.address, to.mode, to.n, exception != []);
            var m := to.n - 1 + |exception|;
            Take(t, m).avail == rest
            && D.Branch(c, t) == D.Running(OnStream(a, t, m).(lines := a.lines + [BranchLine(t, m, to, exception, a)]))
  {
    hide D.SyncCounts, Take, D.GetBranchAddr, Encode, Arrived, D.Get, Aligned, Enough;
    ArrivalRoundTrip(c, t, to.address, to.mode, to.n, exception != [], exception + rest);
    var n := to.n - 1;
    var a := Arrived(c, Take(t, n), to.address, to.mode, to.n, exception != []);
    ArrivedFields(c, Take(t, n), to, exception != []);
    if exception == [] {
      assert exception + rest == rest;
    } else {
      ExceptionBody(t, a, n, exception, rest);
    }
  }

  // The one or two bytes of an exception.
  lemma ExceptionBody(t: D.State, a: D.State, n: nat, exception: seq<Octet>, rest: seq<Octet>)
    requires n <= |t.avail| && SameStream(Take(t, n), a) && exception != [] && IsException(exception)
    requires a.avail == exception + rest
    ensures n + |exception| <= |t.avail| && Take(t, n + |exception|).avail == rest
    ensures D.Get(a) == D.Running(OnStream(a, t, n + 1)) && Take(t, n + 1).data == exception[0]
    ensures |exception| == 2 ==> D.Get(OnStream(a, t, n + 1)) == D.Running(OnStream(a, t, n + 2))
                                 && D.OrOctets(exception[0], Take(t, n + 2).data) == EitherBit(exception[0], exception[1])
  {
    hide D.SyncCounts, Take, D.Get, D.OrOctets;
    assert a.avail == [exception[0]] + (exception[1..] + rest);
    ByteBehind(t, a, n, exception[0], exception[1..] + rest);
    if |exception| == 2 {
      assert exception[1..] + rest == [exception[1]] + rest;
      ByteBehind(t, OnStream(a, t, n + 1), n + 1, exception[1], rest);
      BothBytes(exception[0], exception[1]);
    } else {
      assert exception[1..] + rest == rest;
    }
  }

  // The line of a branch whose last byte is the m-th.
  function BranchLine(t: D.State, m: nat, to: Target, exception: seq<Octet>, a: D.State): D.Line
    requires m <= |t.avail|
  {
    D.BranchTo(SyncedAfter(t, m), to.address, ExceptionValue(exception), a.iaddrValid, to.mode)
  }

  lemma ArrivedFields(c: D.Config, t: D.State, to: Target, exception: bool)
    requires 1 <= to.n <= 5
    ensures var a := Arrived(c, t, to.address, to.mode, to.n, exception); a.iaddr == to.address && a.mode == to.mode
  {}

  lemma BothBytes(a: Octet, b: Octet)
    ensures D.OrOctets(a, b) == EitherBit(a, b)
  {}

  // The decoder behind the address and the exception of a branch.
  function Branched(c: D.Config, s: D.State, to: Target, exception: seq<Octet>): D.State
    requires 1 <= to.n <= 5 && to.n + |exception| <= |s.avail|
  {
    var a := Arrived(c, Take(s, to.n), to.address, to.mode, to.n, exception != []);
    var n := to.n + |exception|;
    OnStream(a, s, n).(lines := a.lines + [BranchLine(s, n, to, exception, a)])
  }

  lemma BranchTaken(c: D.Config, s: D.State, to: Target, exception: seq<Octet>, more: seq<Octet>)
    requires Reaches(c, s, to) && IsException(exception) && (exception != [] ==> CanCarry(c.altBranch, to.n))
    requires s.avail == Encode(c.altBranch, to.address, to.mode, to.n, exception != []) + (exception + more)
    ensures D.Branch(c, Take(s, 1)) == D.Running(Branched(c, s, to, exception))
    ensures Take(s, to.n + |exception|).avail == more
            && SameStream(Take(s, to.n + |exception|), Branched(c, s, to, exception))
  {
    hide D.SyncCounts, Take, D.Branch, Encode, Arrived, Aligned, Enough, BranchLine, OnStream;
    var pk := Encode(c.altBranch, to.address, to.mode, to.n, exception != []);
    var t, n := Take(s, 1), to.n + |exception|;
    assert s.avail == [pk[0]] + (pk[1..] + (exception + more));
    BytesBehind(s, 0, pk[0], pk[1..] + (exception + more));
    OneByte(s);
    BranchBody(c, t, to, exception, more);
    TakeAdd(s, 1, to.n - 1);
    var a := Arrived(c, Take(s, to.n), to.address, to.mode, to.n, exception != []);
    SameLine(s, t, n, to, exception, a);
    BranchedOnStream(c, s, to, exception);
  }

  lemma BranchedOnStream(c: D.Config, s: D.State, to: Target, exception: seq<Octet>)
    requires 1 <= to.n <= 5 && to.n + |exception| <= |s.avail|
    ensures SameStream(Take(s, to.n + |exception|), Branched(c, s, to, exception))
  {
    hide Take, Arrived, BranchLine;
  }

  lemma BranchHandled(c: D.Config, p: Protocol, s: D.State, h: Octet, rest: seq<Octet>)
    requires h[0] && s.avail == [h] + rest
    ensures var r := D.Branch(c, Take(s, 1));
            Round(c, p, s) == if IsCounted(c, p) && r.Running? then D.NextCycleCount(r.st) else r
  {
    hide ToByte, D.SyncCounts, Take, D.Branch, D.NextCycleCount, Dispatch, Starts;
    FirstByte(c, p, s, h, rest);
    BranchStarts(h);
    Handles(c, Take(s, 1), Starts(p, ToByte(h)));
  }

  // A branch with or without an exception: every aligned address in every instruction set, both
  // encodings, any sufficient length, and the count of a cycle-accurate trace behind it.
  lemma BranchRound(c: D.Config, p: Protocol, s: D.State, to: Target, exception: seq<Octet>, count: Count, rest: seq<Octet>)
    requires Reaches(c, s, to) && IsException(exception) && (exception != [] ==> CanCarry(c.altBranch, to.n))
    requires IsCounted(c, p) ==> FitsPft(count)
    requires s.avail == Encode(c.altBranch, to.address, to.mode, to.n, exception != [])
                        + (exception + (Counted(c, p, count) + rest))
    ensures var u, m := Branched(c, s, to, exception), to.n + |exception| + |Counted(c, p, count)|;
            m <= |s.avail| && Take(s, m).avail == rest
            && Round(c, p, s) == D.Running(Counting(c, p, s, u, m, count))
  {
    hide D.SyncCounts, Take, D.Branch, Encode, Counted, D.NextCycleCount, Aligned, Enough, Counting, Branched, Round;
    var pk := Encode(c.altBranch, to.address, to.mode, to.n, exception != []);
    var more := Counted(c, p, count) + rest;
    EncodeIsPacket(c.altBranch, to.address, to.mode, to.n, exception != []);
    assert s.avail == [pk[0]] + (pk[1..] + (exception + more));
    BranchHandled(c, p, s, pk[0], pk[1..] + (exception + more));
    BranchTaken(c, s, to, exception, more);
    CountedBehind(c, p, s, Branched(c, s, to, exception), to.n + |exception|, count, rest);
  }

  lemma SameLine(s: D.State, t: D.State, n: nat, to: Target, exception: seq<Octet>, a: D.State)
    requires 1 <= n <= |s.avail| && t == Take(s, 1) && n - 1 <= |t.avail|
    ensures BranchLine(t, n - 1, to, exception, a) == BranchLine(s, n, to, exception, a)
    ensures OnStream(a, t, n - 1) == OnStream(a, s, n) && Take(t, n - 1) == Take(s, n)
  {
    hide Take;
    TakeAdd(s, 1, n - 1);
  }

  lemma BranchStarts(h: Octet)
    requires h[0]
    ensures Starts(Pft, ToByte(h)) == HBranchPft && Starts(Etm33, ToByte(h)) == HBranch
  {}

  lemma WaypointRound(c: D.Config, s: D.State, to: Target, info: D.Option<Octet>, rest: seq<Octet>)
    requires Reaches(c, s, to) && (info.Some? ==> CanCarry(c.altBranch, to.n))
    requires s.avail == [Header(0x72)]
                        + (Encode(c.altBranch, to.address, to.mode, to.n, info.Some?)
                           + ((if info.Some? then [info.value] else []) + rest))
    ensures var m := 1 + to.n + (if info.Some? then 1 else 0);
            var a := Arrived(c, Take(s, 1 + to.n), to.address, to.mode, to.n, info.Some?);
            Take(s, m).avail == rest
            && Round(c, Pft, s)
               == D.Running(OnStream(a, s, m).(lines := a.lines
                   + [D.Waypoint(SyncedAfter(s, m), to.address, info, a.iaddrValid, to.mode)]))
  {
    hide D.SyncCounts, Take, Encode, Arrived, Header, Aligned, Enough, Round, OnStream, D.Get;
    WaypointFront(c, s, to, info, rest);
    WaypointEnds(s, Arrived(c, Take(s, 1 + to.n), to.address, to.mode, to.n, info.Some?), 1 + to.n, info, rest);
  }

  lemma WaypointFront(c: D.Config, s: D.State, to: Target, info: D.Option<Octet>, rest: seq<Octet>)
    requires Reaches(c, s, to) && (info.Some? ==> CanCarry(c.altBranch, to.n))
    requires s.avail == [Header(0x72)]
                        + (Encode(c.altBranch, to.address, to.mode, to.n, info.Some?)
                           + ((if info.Some? then [info.value] else []) + rest))
    ensures var u := Arrived(c, Take(s, 1 + to.n), to.address, to.mode, to.n, info.Some?);
            var v := if info.Some? then D.Get(u).st else u;
            v.avail == rest && u.avail == (if info.Some? then [info.value] else []) + rest
            && Round(c, Pft, s)
               == D.Running(v.(lines := u.lines + [D.Waypoint(v.Synced(), to.address, info, u.iaddrValid, to.mode)]))
  {
    hide D.SyncCounts, Take, D.WaypointUpdate, Encode, Arrived, Header, Aligned, Enough, Round, D.Get;
    var pk, more := Encode(c.altBranch, to.address, to.mode, to.n, info.Some?),
        (if info.Some? then [info.value] else []) + rest;
    WaypointHandled(c, s, pk + more);
    WaypointRoundTrip(c, Take(s, 1), to.address, to.mode, to.n, info, rest);
    FrontTaken(s, Header(0x72), pk, more);
    ArrivedFields(c, Take(s, 1 + to.n), to, info.Some?);
  }

  lemma FrontTaken(s: D.State, h: Octet, pk: seq<Octet>, more: seq<Octet>)
    requires s.avail == [h] + (pk + more)
    ensures Take(Take(s, 1), |pk|) == Take(s, 1 + |pk|) && Take(s, 1 + |pk|).avail == more
  {
    hide Take;
    BytesBehind(s, |pk|, h, pk + more);
  }

  // The information byte of a waypoint, if there is one.
  lemma WaypointEnds(s: D.State, a: D.State, n: nat, info: D.Option<Octet>, rest: seq<Octet>)
    requires n <= |s.avail| && SameStream(Take(s, n), a)
    requires (if info.Some? then D.Get(a).st else a).avail == rest
    requires a.avail == (if info.Some? then [info.value] else []) + rest
    ensures var m := n + (if info.Some? then 1 else 0);
            m <= |s.avail| && Take(s, m).avail == rest && (if info.Some? then D.Get(a).st else a) == OnStream(a, s, m)
            && OnStream(a, s, m).Synced() == SyncedAfter(s, m)
  {
    hide Take, D.Get;
    if info.Some? { ByteBehind(s, a, n, info.value, rest); }
  }

  /** ---- I-syncs ---- */

  lemma AddressIsSent(v: D.State, ib: Octet, address: Word, mode: D.Mode)
    requires (mode.Jazelle? || !address[0]) && ib[4] == mode.Jazelle?
    ensures D.UpdateAddr(v, ib, SentAddress(address, mode)) == AtAddress(v, address, mode)
  {
    if mode.Thumb? { assert address[0 := true][0 := false] == address; }
  }

  // Context ID, information byte and address, for all three instruction sets.
  lemma ISyncBody(c: D.Config, s: D.State, address: Word, mode: D.Mode, ib: Octet, context: Word, rest: seq<Octet>)
    requires (mode.Jazelle? || !address[0]) && ib[4] == mode.Jazelle? && ContextFits(c, context)
    requires s.avail == BytesOf(context, 0, c.contextIdBytes) + ([ib] + (BytesOf(SentAddress(address, mode), 0, 4) + rest))
    ensures var m := c.contextIdBytes + 5;
            Take(s, m).avail == rest
            && D.ISyncPacket(c, s)
               == D.Running(AtAddress(Take(s, m), address, mode)
                            .(lines := s.lines + [D.ISync(SyncedAfter(s, m), context, ib, address)]))
  {
    hide D.SyncCounts, Take, D.WholeBytes, BytesOf, D.Get, D.UpdateAddr, SentAddress;
    var n, sent := c.contextIdBytes, SentAddress(address, mode);
    ContextRoundTrip(s, context, n, [ib] + (BytesOf(sent, 0, 4) + rest));
    var t := Take(s, n);
    ByteBehind(s, t, n, ib, BytesOf(sent, 0, 4) + rest);
    TakeKeeps(s, n);
    TakeKeeps(s, n + 1);
    AddressWordRoundTrip(Take(s, n + 1), sent, rest);
    TakeAdd(s, n + 1, 4);
    TakeKeeps(s, n + 5);
    AddressIsSent(Take(s, n + 5), ib, address, mode);
  }

  lemma ISyncEtmRound(c: D.Config, s: D.State, address: Word, mode: D.Mode, ib: Octet, context: Word, rest: seq<Octet>)
    requires (mode.Jazelle? || !address[0]) && ib[4] == mode.Jazelle? && ContextFits(c, context)
    requires s.avail == [Header(0x08)]
                        + (BytesOf(context, 0, c.contextIdBytes) + ([ib] + (BytesOf(SentAddress(address, mode), 0, 4)
                            + rest)))
    ensures var m := c.contextIdBytes + 6;
            Take(s, m).avail == rest
            && Round(c, Etm33, s)
               == D.Running(AtAddress(Take(s, m), address, mode)
                            .(lines := s.lines + [D.ISync(SyncedAfter(s, m), context, ib, address)]))
  {
    hide Starts, ToByte, D.SyncCounts, Take, D.ISyncPacket, BytesOf, SentAddress, Dispatch, Header;
    var body := BytesOf(context, 0, c.contextIdBytes) + ([ib] + (BytesOf(SentAddress(address, mode), 0, 4) + rest));
    ISyncHandled(c, s, body);
    ISyncBody(c, Take(s, 1), address, mode, ib, context, rest);
    TakeAdd(s, 1, c.contextIdBytes + 5);
  }

  lemma ISyncCountRound(c: D.Config, s: D.State, address: Word, mode: D.Mode, ib: Octet, context: Word, count: Count,
                        rest: seq<Octet>)
    requires (mode.Jazelle? || !address[0]) && ib[4] == mode.Jazelle? && ContextFits(c, context) && FitsEtm(count)
    requires s.avail == [Header(0x70)]
                        + (CountBytesOf(count.value, 0, count.n)
                           + (BytesOf(context, 0, c.contextIdBytes) + ([ib]
                               + (BytesOf(SentAddress(address, mode), 0, 4) + rest))))
    ensures var n, m := 1 + count.n, 1 + count.n + c.contextIdBytes + 5;
            Take(s, m).avail == rest
            && Round(c, Etm33, s)
               == D.Running(AtAddress(Take(s, m), address, mode)
                            .(lines := s.lines + [D.CycleCount(SyncedAfter(s, n), count.value)]
                                       + [D.ISync(SyncedAfter(s, m), context, ib, address)]))
  {
    hide Starts, ToByte, D.SyncCounts, Take, D.ISyncPacket, D.CCount, BytesOf, CountBytesOf, SentAddress, Dispatch,
        Header, AtAddress;
    var tail := BytesOf(context, 0, c.contextIdBytes) + ([ib] + (BytesOf(SentAddress(address, mode), 0, 4) + rest));
    ISyncCountHandled(c, s, CountBytesOf(count.value, 0, count.n) + tail);
    CountTaken(s, Header(0x70), count, tail);
    ISyncAfterCount(c, s, address, mode, ib, context, count, rest);
  }

  lemma ISyncAfterCount(c: D.Config, s: D.State, address: Word, mode: D.Mode, ib: Octet, context: Word, count: Count,
                        rest: seq<Octet>)
    requires (mode.Jazelle? || !address[0]) && ib[4] == mode.Jazelle? && ContextFits(c, context)
    requires 1 + count.n <= |s.avail|
    requires Take(s, 1 + count.n).avail
          == BytesOf(context, 0, c.contextIdBytes) + ([ib] + (BytesOf(SentAddress(address, mode), 0, 4) + rest))
    ensures var n, m := 1 + count.n, 1 + count.n + c.contextIdBytes + 5;
            var counted := [D.CycleCount(SyncedAfter(s, n), count.value)];
            m <= |s.avail| && Take(s, m).avail == rest
            && D.ISyncPacket(c, Take(s, n).(lines := s.lines + counted))
               == D.Running(AtAddress(Take(s, m), address, mode)
                            .(lines := s.lines + counted + [D.ISync(SyncedAfter(s, m), context, ib, address)]))
  {
    hide D.SyncCounts, Take, D.ISyncPacket, BytesOf, SentAddress;
    var n := 1 + count.n;
    var u := Take(s, n).(lines := s.lines + [D.CycleCount(SyncedAfter(s, n), count.value)]);
    ISyncBody(c, u, address, mode, ib, context, rest);
    PartBehind(s, u, n, c.contextIdBytes + 5);
    TakeKeeps(s, n + c.contextIdBytes + 5);
    TakeKeeps(s, n);
  }

  lemma CountTaken(s: D.State, h: Octet, count: Count, rest: seq<Octet>)
    requires FitsEtm(count) && s.avail == [h] + (CountBytesOf(count.value, 0, count.n) + rest)
    ensures var u := Take(s, 1 + count.n);
            u.avail == rest && D.CCount(Take(s, 1)) == D.Running(u.(lines := s.lines
                + [D.CycleCount(u.Synced(), count.value)]))
  {
    hide D.SyncCounts, Take, D.CCount, CountBytesOf;
    BytesBehind(s, 0, h, CountBytesOf(count.value, 0, count.n) + rest);
    BytesBehind(s, count.n, h, CountBytesOf(count.value, 0, count.n) + rest);
    CycleCountRoundTrip(Take(s, 1), count.value, count.n, rest);
  }

  // A program-flow I-sync: address, information byte, a count exactly if the trace is cycle accurate and
  // the information byte says so, context ID.
  lemma ISyncPftRound(c: D.Config, s: D.State, address: Word, mode: D.Mode, ib: Octet, context: Word,
                      cycles: D.Option<Count>, rest: seq<Octet>)
    requires (mode.Jazelle? || !address[0]) && ib[4] == mode.Jazelle? && ContextFits(c, context)
    requires (cycles.Some? <==> c.cycleAccurate && (ib[5] || ib[6])) && (cycles.Some? ==> FitsPft(cycles.value))
    requires s.avail == [Header(0x08)]
                        + (BytesOf(SentAddress(address, mode), 0, 4)
                           + ([ib] + ((if cycles.Some? then PftCount(cycles.value) else [])
                                      + (BytesOf(context, 0, c.contextIdBytes) + rest))))
    ensures var n := 6 + (if cycles.Some? then 1 + cycles.value.n else 0);
            var m := n + c.contextIdBytes;
            m <= |s.avail| && Take(s, m).avail == rest
            && Round(c, Pft, s)
               == D.Running(AtAddress(Take(s, m), address, mode)
                            .(lines := s.lines + CyclesLine(s, cycles, n)
                                + [D.ISync(SyncedAfter(s, m), context, ib, address)]))
  {
    hide Starts, ToByte, D.SyncCounts, Take, D.ISyncPft, ISyncRest, BytesOf, SentAddress, Dispatch, Header, PftCount,
         CyclesLine, AtAddress, OnStream;
    var tail := BytesOf(context, 0, c.contextIdBytes) + rest;
    var more := (if cycles.Some? then PftCount(cycles.value) else []) + tail;
    var body := BytesOf(SentAddress(address, mode), 0, 4) + ([ib] + more);
    ISyncPftHandled(c, s, body);
    ISyncFront(c, s, Header(0x08), address, mode, ib, more);
    ISyncBehind(c, s, address, mode, ib, context, cycles, rest);
  }

  // What is left of a program-flow I-sync once the address is taken over.
  function ISyncRest(c: D.Config, v: D.State, ib: Octet): D.Outcome {
    var w :- if c.cycleAccurate && (ib[5] || ib[6]) then D.NextCycleCount(v) else D.Running(v);
    match D.WholeBytes(w, Zeros(32), 0, c.contextIdBytes)
    case FieldExit(x) => D.Exited(x)
    case FieldDone(x, context) => D.Running(x.Print(D.ISync(x.Synced(), context, ib, x.iaddr)))
  }

  lemma ISyncFront(c: D.Config, s: D.State, h: Octet, address: Word, mode: D.Mode, ib: Octet, more: seq<Octet>)
    requires (mode.Jazelle? || !address[0]) && ib[4] == mode.Jazelle?
    requires s.avail == [h] + (BytesOf(SentAddress(address, mode), 0, 4) + ([ib] + more))
    ensures Take(s, 6).avail == more
    ensures D.ISyncPft(c, Take(s, 1)) == ISyncRest(c, AtAddress(Take(s, 6), address, mode), ib)
  {
    hide D.SyncCounts, Take, D.WholeBytes, BytesOf, SentAddress, D.Get, D.UpdateAddr, D.NextCycleCount, AtAddress;
    var sent := SentAddress(address, mode);
    BytesBehind(s, 0, h, BytesOf(sent, 0, 4) + ([ib] + more));
    BytesBehind(s, 4, h, BytesOf(sent, 0, 4) + ([ib] + more));
    AddressWordRoundTrip(Take(s, 1), sent, [ib] + more);
    ByteBehind(s, Take(s, 5), 5, ib, more);
    AddressIsSent(Take(s, 6), ib, address, mode);
    TakeKeeps(s, 5);
    TakeKeeps(s, 6);
  }

  lemma ISyncBehind(c: D.Config, s: D.State, address: Word, mode: D.Mode, ib: Octet, context: Word,
                    cycles: D.Option<Count>, rest: seq<Octet>)
    requires ContextFits(c, context) && 6 <= |s.avail|
    requires (cycles.Some? <==> c.cycleAccurate && (ib[5] || ib[6])) && (cycles.Some? ==> FitsPft(cycles.value))
    requires Take(s, 6).avail == (if cycles.Some? then PftCount(cycles.value) else [])
            + (BytesOf(context, 0, c.contextIdBytes) + rest)
    ensures var n := 6 + (if cycles.Some? then 1 + cycles.value.n else 0);
            var m := n + c.contextIdBytes;
            m <= |s.avail| && Take(s, m).avail == rest
            && ISyncRest(c, AtAddress(Take(s, 6), address, mode), ib)
               == D.Running(AtAddress(Take(s, m), address, mode)
                            .(lines := s.lines + CyclesLine(s, cycles, n)
                                + [D.ISync(SyncedAfter(s, m), context, ib, address)]))
  {
    hide D.SyncCounts, Take, D.WholeBytes, BytesOf, D.NextCycleCount, PftCount, AtAddress, CyclesLine;
    var v := AtAddress(Take(s, 6), address, mode);
    var n := 6 + (if cycles.Some? then 1 + cycles.value.n else 0);
    CyclesBehind(c, s, address, mode, ib, cycles, BytesOf(context, 0, c.contextIdBytes) + rest);
    var w := OnStream(v, s, n).(lines := s.lines + CyclesLine(s, cycles, n));
    ContextRoundTrip(w, context, c.contextIdBytes, rest);
    AddressOnStream(s, address, mode, n, c.contextIdBytes, w.lines);
  }

  lemma CyclesBehind(c: D.Config, s: D.State, address: Word, mode: D.Mode, ib: Octet, cycles: D.Option<Count>,
      tail: seq<Octet>)
    requires 6 <= |s.avail|
    requires (cycles.Some? <==> c.cycleAccurate && (ib[5] || ib[6])) && (cycles.Some? ==> FitsPft(cycles.value))
    requires Take(s, 6).avail == (if cycles.Some? then PftCount(cycles.value) else []) + tail
    ensures var v, n := AtAddress(Take(s, 6), address, mode), 6 + (if cycles.Some? then 1 + cycles.value.n else 0);
            n <= |s.avail| && Take(s, n).avail == tail
            && (if c.cycleAccurate && (ib[5] || ib[6]) then D.NextCycleCount(v) else D.Running(v))
               == D.Running(OnStream(v, s, n).(lines := s.lines + CyclesLine(s, cycles, n)))
  {
    hide D.SyncCounts, Take, D.NextCycleCount, PftCount;
    TakeKeeps(s, 6);
    if cycles.Some? {
      CountBehind(s, AtAddress(Take(s, 6), address, mode), 6, cycles.value, tail);
    } else {
      assert [] + tail == tail && s.lines + [] == s.lines;
    }
  }

  lemma AddressOnStream(s: D.State, address: Word, mode: D.Mode, n: nat, k: nat, lines: seq<D.Line>)
    requires 6 <= n && n + k <= |s.avail|
    ensures Take(OnStream(AtAddress(Take(s, 6), address, mode), s, n).(lines := lines), k)
         == AtAddress(Take(s, n + k), address, mode).(lines := lines)
    ensures AtAddress(Take(s, n + k), address, mode).iaddr == address
    ensures AtAddress(Take(s, n + k), address, mode).avail == Take(s, n + k).avail
    ensures AtAddress(Take(s, n + k), address, mode).Synced() == SyncedAfter(s, n + k)
  {
    hide D.SyncCounts, Take;
    TakeKeeps(s, 6);
    TakeKeeps(s, n + k);
    PartBehind(s, OnStream(AtAddress(Take(s, 6), address, mode), s, n).(lines := lines), n, k);
  }

  function CyclesLine(s: D.State, cycles: D.Option<Count>, n: nat): seq<D.Line>
    requires n <= |s.avail|
  {
    if cycles.Some? then [D.CycleCount(SyncedAfter(s, n), cycles.value.value)] else []
  }

  /** ---- Streams of packets ---- */

  datatype Packet =
    | ASync
    | Ignore
    | Trigger
    | ExceptionReturn
    | Atoms(executed: seq<bool>)
    | CountedAtom(taken: bool, count: Count)
    | PHeader(header: Octet)
    | Branch(to: Target, exception: seq<Octet>, count: Count)
    | Waypoint(to: Target, info: D.Option<Octet>)
    | Timestamp(time: DoubleWord, n: nat, r: bool, count: Count)
    | CycleCount(count: Count)
    | ContextId(context: Word)
    | Vmid(vmid: Octet)
    | ISync(address: Word, mode: D.Mode, ib: Octet, context: Word, cycles: D.Option<Count>)
    | Data(place: D.Option<Place>, value: Word, size: nat)
    | Undecoded(header: Octet)

  // The packets of a protocol in a configuration.
  predicate IsPacketOf(c: D.Config, p: Protocol, k: Packet) {
    match k
    case ASync => true
    case Ignore => true
    case Trigger => p.Pft?
    case ExceptionReturn => p.Pft?
    case Atoms(executed) => p.Pft? && !c.cycleAccurate && 1 <= |executed| <= 5
    case CountedAtom(_, count) => p.Pft? && c.cycleAccurate && FitsPft(count)
    case PHeader(h) => p.Etm33? && EtmPHeaders.IsPHeader(h)
    case Branch(to, exception, count) =>
      IsTarget(to) && IsException(exception) && (exception != [] ==> CanCarry(c.altBranch, to.n))
      && (IsCounted(c, p) ==> FitsPft(count))
    case Waypoint(to, info) => p.Pft? && IsTarget(to) && (info.Some? ==> CanCarry(c.altBranch, to.n))
    case Timestamp(_, n, _, count) => 1 <= n <= 9 && (IsCounted(c, p) ==> FitsPft(count))
    case CycleCount(count) => p.Etm33? && FitsEtm(count)
    case ContextId(context) => ContextFits(c, context)
    case Vmid(_) => true
    case ISync(address, mode, ib, context, cycles) =>
      (mode.Jazelle? || !address[0]) && ib[4] == mode.Jazelle? && ContextFits(c, context)
      && (p.Etm33? && cycles.Some? ==> FitsEtm(cycles.value))
      && (p.Pft? ==> (cycles.Some? <==> c.cycleAccurate && (ib[5] || ib[6])) && (cycles.Some? ==> FitsPft(cycles.value)))
    case Data(place, value, size) =>
      p.Etm33? && (place.Some? ==> 1 <= place.value.n <= 5) && size < 4 && value[8 * size..] == Zeros(32 - 8 * size)
    case Undecoded(h) => Starts(p, ToByte(h)) == HNone
  }

  // What can be sent to a decoder in a state, which knows the addresses and the time before.
  predicate CanSend(c: D.Config, p: Protocol, s: D.State, k: Packet) {
    IsPacketOf(c, p, k)
    && match k
       case Branch(to, _, _) => Reaches(c, s, to)
       case Waypoint(to, _) => Reaches(c, s, to)
       case Timestamp(time, n, _, _) => TimestampEnough(s.timestamp, time, n)
       case Data(place, _, _) => place.Some? ==> DataAddressEnough(s.daddr, place.value.address, place.value.n)
       case _ => true
  }

  function Bytes(c: D.Config, p: Protocol, k: Packet): seq<Octet>
    requires IsPacketOf(c, p, k)
  {
    match k
    case ASync => [Header(0x00)]
    case Ignore => [Header(0x66)]
    case Trigger => [Header(0x0c)]
    case ExceptionReturn => [Header(0x76)]
    case Atoms(executed) => [AtomsByte(executed)]
    case CountedAtom(executed, count) =>
      [CountHeader(count.value, count.n, [false, !executed], true)] + CountBytesOf(count.value, 4, count.n)
    case PHeader(h) => [h]
    case Branch(to, exception, count) =>
      Encode(c.altBranch, to.address, to.mode, to.n, exception != []) + (exception + Counted(c, p, count))
    case Waypoint(to, info) =>
      [Header(0x72)]
      + (Encode(c.altBranch, to.address, to.mode, to.n, info.Some?) + (if info.Some? then [info.value] else []))
    case Timestamp(time, n, r, count) =>
      [Header(if r then 0x46 else 0x42)] + (TimestampBytesOf(time, n, 0) + Counted(c, p, count))
    case CycleCount(count) => [Header(0x04)] + CountBytesOf(count.value, 0, count.n)
    case ContextId(context) => [Header(0x6e)] + BytesOf(context, 0, c.contextIdBytes)
    case Vmid(vmid) => [Header(0x3c), vmid]
    case ISync(address, mode, info, context, count) =>
      ISyncBytes(c, p, SentAddress(address, mode), info, context, count)
    case Data(place, value, size) => [DataHeader(place.Some?, size)] + (PlaceBytes(place) + BytesOf(value, 0, size))
    case Undecoded(h) => [h]
  }

  // The decoder behind a packet: every field of its state.
  function After(c: D.Config, p: Protocol, s: D.State, k: Packet): D.State
    requires IsPacketOf(c, p, k) && |Bytes(c, p, k)| <= |s.avail|
  {
    var n := |Bytes(c, p, k)|;
    var t, synced := Take(s, n), SyncedAfter(s, n);
    match k
    case ASync => t
    case Ignore => t
    case Trigger => t.(lines := s.lines + [D.Trigger(synced)])
    case ExceptionReturn => t.(lines := s.lines + [D.ExceptionReturn(synced)])
    case Atoms(executed) => PrintAll(c, t, executed)
    case CountedAtom(executed, count) =>
      D.PrintInstruction(c, t.(lines := s.lines + [D.CycleCount(synced, count.value)]), executed)
    case PHeader(h) =>
      if EtmPHeaders.IsKnown(c, h) then EtmPHeaders.PrintEvents(c, t, EtmPHeaders.HeaderEvents(c, h))
      else LoseSync(t, D.BadHeader)
    case Branch(to, exception, count) =>
      Counting(c, p, s, Branched(c, s, to, exception), n, count)
    case Waypoint(to, info) =>
      var a := Arrived(c, Take(s, 1 + to.n), to.address, to.mode, to.n, info.Some?);
      OnStream(a, s, n).(lines := a.lines + [D.Waypoint(synced, to.address, info, a.iaddrValid, to.mode)])
    case Timestamp(time, groups, _, count) =>
      Counting(c, p, s, TimeTaken(s, time, groups), n, count)
    case CycleCount(count) => t.(lines := s.lines + [D.CycleCount(synced, count.value)])
    case ContextId(context) => t.(lines := s.lines + [D.ContextId(synced, context)])
    case Vmid(vmid) => t.(lines := s.lines + [D.Vmid(synced, vmid)])
    case ISync(address, mode, ib, context, cycles) =>
      var counted := if p.Etm33? then 1 else 6;
      var behind := counted + if cycles.None? then 0 else if p.Etm33? then cycles.value.n else 1 + cycles.value.n;
      AtAddress(t, address, mode).(lines := s.lines + CyclesLine(s, cycles, behind)
          + [D.ISync(synced, context, ib, address)])
    case Data(place, value, size) =>
      t.(daddr := if place.Some? then place.value.address else s.daddr,
         lines := s.lines + [D.NormalData(synced, value, size, AddressOf(place))])
    case Undecoded(h) => LoseSync(t, D.NotHandled(h))
  }


  predicate Decodes(c: D.Config, p: Protocol, s: D.State, k: Packet, rest: seq<Octet>)
    requires CanSend(c, p, s, k) && s.avail == Bytes(c, p, k) + rest
  {
    Round(c, p, s) == D.Running(After(c, p, s, k)) && After(c, p, s, k).avail == rest
  }

  // Packets of one or two bytes.
  lemma ShortDecodes(c: D.Config, p: Protocol, s: D.State, k: Packet, rest: seq<Octet>)
    requires k.ASync? || k.Ignore? || k.Trigger? || k.ExceptionReturn? || k.Undecoded? || k.Vmid? || k.PHeader? || k.Atoms?
    requires CanSend(c, p, s, k) && s.avail == Bytes(c, p, k) + rest
    ensures Decodes(c, p, s, k, rest)
  {
    hide ToByte, D.SyncCounts, Take, Round, Header, Starts, AtomsByte, PrintAll, EtmPHeaders.PrintEvents,
         EtmPHeaders.IsKnown, EtmPHeaders.HeaderEvents;
    match k
    case ASync => AsyncRound(c, p, s, 0x00, rest);
    case Ignore => AsyncRound(c, p, s, 0x66, rest);
    case Trigger => TriggerRound(c, s, rest);
    case ExceptionReturn => ExceptionReturnRound(c, s, rest);
    case Undecoded(h) => UndecodedRound(c, p, s, h, rest);
    case Vmid(vmid) =>
      assert s.avail == [Header(0x3c)] + ([vmid] + rest);
      VmidRound(c, p, s, vmid, rest);
    case PHeader(h) =>
      PHeaderRound(c, s, h, rest);
      EventsOnStream(c, Take(s, 1), EtmPHeaders.HeaderEvents(c, h));
    case Atoms(executed) =>
      AtomsRound(c, s, executed, rest);
      PrintAllOnStream(c, Take(s, 1), executed);
  }

  lemma {:induction false} PrintAllOnStream(c: D.Config, s: D.State, executed: seq<bool>)
    ensures SameStream(s, PrintAll(c, s, executed))
    decreases |executed|
  {
    if executed != [] { PrintAllOnStream(c, D.PrintInstruction(c, s, executed[0]), executed[1..]); }
  }

  lemma {:induction false} EventsOnStream(c: D.Config, s: D.State, events: seq<EtmPHeaders.Event>)
    ensures SameStream(s, EtmPHeaders.PrintEvents(c, s, events))
    decreases |events|
  {
    if events != [] { EventsOnStream(c, EtmPHeaders.PrintEvent(c, s, events[0]), events[1..]); }
  }

  lemma ContextIdDecodes(c: D.Config, p: Protocol, s: D.State, context: Word, rest: seq<Octet>)
    requires CanSend(c, p, s, ContextId(context)) && s.avail == Bytes(c, p, ContextId(context)) + rest
    ensures Decodes(c, p, s, ContextId(context), rest)
  {
    hide D.SyncCounts, Take, Round, Header, BytesOf;
    Behind([Header(0x6e)], BytesOf(context, 0, c.contextIdBytes), rest);
    ContextIdRound(c, p, s, context, rest);
  }

  lemma CycleCountDecodes(c: D.Config, s: D.State, count: Count, rest: seq<Octet>)
    requires CanSend(c, Etm33, s, CycleCount(count)) && s.avail == Bytes(c, Etm33, CycleCount(count)) + rest
    ensures Decodes(c, Etm33, s, CycleCount(count), rest)
  {
    hide D.SyncCounts, Take, Round, Header, CountBytesOf, FitsEtm;
    Behind([Header(0x04)], CountBytesOf(count.value, 0, count.n), rest);
    CycleCountRound(c, s, count, rest);
  }

  lemma DataDecodes(c: D.Config, s: D.State, place: D.Option<Place>, value: Word, size: nat, rest: seq<Octet>)
    requires CanSend(c, Etm33, s, Data(place, value, size)) && s.avail == Bytes(c, Etm33, Data(place, value, size)) + rest
    ensures Decodes(c, Etm33, s, Data(place, value, size), rest)
  {
    hide D.SyncCounts, Take, Round, BytesOf, DataHeader, DataAddressOf;
    Behind([DataHeader(place.Some?, size)], PlaceBytes(place) + BytesOf(value, 0, size), rest);
    Behind(PlaceBytes(place), BytesOf(value, 0, size), rest);
    DataRound(c, s, place, value, size, rest);
  }

  lemma CountedAtomDecodes(c: D.Config, s: D.State, taken: bool, count: Count, rest: seq<Octet>)
    requires CanSend(c, Pft, s, CountedAtom(taken, count)) && s.avail == Bytes(c, Pft, CountedAtom(taken, count)) + rest
    ensures Decodes(c, Pft, s, CountedAtom(taken, count), rest)
  {
    hide D.SyncCounts, Take, Round, CountBytesOf, CountHeader, D.PrintInstruction, FitsPft;
    Behind([CountHeader(count.value, count.n, [false, !taken], true)], CountBytesOf(count.value, 4, count.n), rest);
    CountedAtomRound(c, s, taken, count, rest);
    var t := Take(s, 1 + count.n);
    PrintOnStream(c, t.(lines := s.lines + [D.CycleCount(t.Synced(), count.value)]), taken);
  }

  lemma Behind(a: seq<Octet>, b: seq<Octet>, rest: seq<Octet>)
    ensures a + b + rest == a + (b + rest)
  {}

  lemma PrintOnStream(c: D.Config, s: D.State, executed: bool)
    ensures SameStream(s, D.PrintInstruction(c, s, executed))
  {}

  lemma TimestampDecodes(c: D.Config, p: Protocol, s: D.State, time: DoubleWord, n: nat, r: bool, count: Count,
      rest: seq<Octet>)
    requires CanSend(c, p, s, Timestamp(time, n, r, count))
    requires s.avail == Bytes(c, p, Timestamp(time, n, r, count)) + rest
    ensures Decodes(c, p, s, Timestamp(time, n, r, count), rest)
  {
    hide D.SyncCounts, Take, Round, Header, TimestampBytesOf, Counted, FitsPft, TimeTaken;
    EnoughGroups(s.timestamp, time, n);
    hide TimestampEnough;
    var h := Header(if r then 0x46 else 0x42);
    Behind([h], TimestampBytesOf(time, n, 0) + Counted(c, p, count), rest);
    Behind(TimestampBytesOf(time, n, 0), Counted(c, p, count), rest);
    TimestampRound(c, p, s, time, n, r, count, rest);
  }

  lemma BranchDecodes(c: D.Config, p: Protocol, s: D.State, to: Target, exception: seq<Octet>, count: Count,
      rest: seq<Octet>)
    requires CanSend(c, p, s, Branch(to, exception, count)) && s.avail == Bytes(c, p, Branch(to, exception, count)) + rest
    ensures Decodes(c, p, s, Branch(to, exception, count), rest)
  {
    hide D.SyncCounts, Take, Round, Encode, Counted, FitsPft, Branched, Aligned, Enough;
    var pk := Encode(c.altBranch, to.address, to.mode, to.n, exception != []);
    Behind(pk, exception + Counted(c, p, count), rest);
    Behind(exception, Counted(c, p, count), rest);
    BranchRound(c, p, s, to, exception, count, rest);
  }

  lemma WaypointDecodes(c: D.Config, s: D.State, to: Target, info: D.Option<Octet>, rest: seq<Octet>)
    requires CanSend(c, Pft, s, Waypoint(to, info)) && s.avail == Bytes(c, Pft, Waypoint(to, info)) + rest
    ensures Decodes(c, Pft, s, Waypoint(to, info), rest)
  {
    hide D.SyncCounts, Take, Round, Encode, Arrived, Aligned, Enough, Header;
    var pk, tail := Encode(c.altBranch, to.address, to.mode, to.n, info.Some?), if info.Some? then [info.value] else [];
    Behind([Header(0x72)], pk + tail, rest);
    Behind(pk, tail, rest);
    WaypointRound(c, s, to, info, rest);
  }

  lemma ISyncPftDecodes(c: D.Config, s: D.State, address: Word, mode: D.Mode, ib: Octet, context: Word,
                        cycles: D.Option<Count>, rest: seq<Octet>)
    requires CanSend(c, Pft, s, ISync(address, mode, ib, context, cycles))
    requires s.avail == Bytes(c, Pft, ISync(address, mode, ib, context, cycles)) + rest
    ensures Decodes(c, Pft, s, ISync(address, mode, ib, context, cycles), rest)
  {
    hide D.SyncCounts, Take, Round, Header, BytesOf, PftCount, SentAddress, FitsEtm, FitsPft, CyclesLine, AtAddress;
    var contextBytes, sent := BytesOf(context, 0, c.contextIdBytes), BytesOf(SentAddress(address, mode), 0, 4);
    var counts := if cycles.Some? then PftCount(cycles.value) else [];
    Behind([Header(0x08)], sent + ([ib] + (counts + contextBytes)), rest);
    Behind(sent, [ib] + (counts + contextBytes), rest);
    Behind([ib], counts + contextBytes, rest);
    Behind(counts, contextBytes, rest);
    ISyncPftRound(c, s, address, mode, ib, context, cycles, rest);
    StreamOfAddress(Take(s, 6 + |counts| + c.contextIdBytes), address, mode);
  }

  lemma StreamOfAddress(t: D.State, address: Word, mode: D.Mode)
    ensures SameStream(t, AtAddress(t, address, mode))
  {}

  lemma ISyncEtmDecodes(c: D.Config, s: D.State, address: Word, mode: D.Mode, ib: Octet, context: Word, rest: seq<Octet>)
    requires CanSend(c, Etm33, s, ISync(address, mode, ib, context, D.None))
    requires s.avail == Bytes(c, Etm33, ISync(address, mode, ib, context, D.None)) + rest
    ensures Decodes(c, Etm33, s, ISync(address, mode, ib, context, D.None), rest)
  {
    hide D.SyncCounts, Take, Round, Header, BytesOf, SentAddress, AtAddress;
    var contextBytes, sent := BytesOf(context, 0, c.contextIdBytes), BytesOf(SentAddress(address, mode), 0, 4);
    Behind([Header(0x08)], contextBytes + ([ib] + sent), rest);
    Behind(contextBytes, [ib] + sent, rest);
    Behind([ib], sent, rest);
    ISyncEtmRound(c, s, address, mode, ib, context, rest);
    StreamOfAddress(Take(s, c.contextIdBytes + 6), address, mode);
    assert s.lines + [] == s.lines;
  }

  lemma ISyncCountDecodes(c: D.Config, s: D.State, address: Word, mode: D.Mode, ib: Octet, context: Word, count: Count,
                          rest: seq<Octet>)
    requires CanSend(c, Etm33, s, ISync(address, mode, ib, context, D.Some(count)))
    requires s.avail == Bytes(c, Etm33, ISync(address, mode, ib, context, D.Some(count))) + rest
    ensures Decodes(c, Etm33, s, ISync(address, mode, ib, context, D.Some(count)), rest)
  {
    hide D.SyncCounts, Take, Round, Header, BytesOf, CountBytesOf, SentAddress, FitsEtm, AtAddress;
    var contextBytes, sent := BytesOf(context, 0, c.contextIdBytes), BytesOf(SentAddress(address, mode), 0, 4);
    var counts := CountBytesOf(count.value, 0, count.n);
    Behind([Header(0x70)] + counts, contextBytes + ([ib] + sent), rest);
    Behind([Header(0x70)], counts, contextBytes + ([ib] + sent) + rest);
    Behind(contextBytes, [ib] + sent, rest);
    Behind([ib], sent, rest);
    ISyncCountRound(c, s, address, mode, ib, context, count, rest);
    StreamOfAddress(Take(s, 1 + count.n + c.contextIdBytes + 5), address, mode);
  }

  // One round of the main loop on any packet: exactly its bytes are taken, and the decoder is left in
  // the state of After.
  lemma PacketRound(c: D.Config, p: Protocol, s: D.State, k: Packet, rest: seq<Octet>)
    requires CanSend(c, p, s, k) && s.avail == Bytes(c, p, k) + rest
    ensures Round(c, p, s) == D.Running(After(c, p, s, k)) && After(c, p, s, k).avail == rest
  {
    hide After, Bytes, Round;
    match k
    case Timestamp(time, n, r, count) => TimestampDecodes(c, p, s, time, n, r, count, rest);
    case Branch(to, exception, count) => BranchDecodes(c, p, s, to, exception, count, rest);
    case Waypoint(to, info) => WaypointDecodes(c, s, to, info, rest);
    case ISync(address, mode, ib, context, cycles) =>
      if p.Pft? {
        ISyncPftDecodes(c, s, address, mode, ib, context, cycles, rest);
      } else if cycles.Some? {
        ISyncCountDecodes(c, s, address, mode, ib, context, cycles.value, rest);
      } else {
        ISyncEtmDecodes(c, s, address, mode, ib, context, rest);
      }
    case ContextId(context) => ContextIdDecodes(c, p, s, context, rest);
    case CycleCount(count) => CycleCountDecodes(c, s, count, rest);
    case Data(place, value, size) => DataDecodes(c, s, place, value, size, rest);
    case CountedAtom(taken, count) => CountedAtomDecodes(c, s, taken, count, rest);
    case _ => ShortDecodes(c, p, s, k, rest);
  }

  // A stream of packets, each of them fit for the state the decoder is in by then.
  predicate Carries(c: D.Config, p: Protocol, s: D.State, ks: seq<Packet>)
    decreases |ks|
  {
    if ks == [] then s.avail == []
    else CanSend(c, p, s, ks[0]) && Bytes(c, p, ks[0]) <= s.avail && Carries(c, p, After(c, p, s, ks[0]), ks[1..])
  }

  function AfterAll(c: D.Config, p: Protocol, s: D.State, ks: seq<Packet>): D.State
    requires Carries(c, p, s, ks)
    decreases |ks|
  {
    if ks == [] then s else AfterAll(c, p, After(c, p, s, ks[0]), ks[1..])
  }

  // The whole run on any stream of packets: all of them in order, and the waits pending at the end.
  lemma {:induction false} StreamRun(c: D.Config, p: Protocol, s: D.State, ks: seq<Packet>)
    requires Carries(c, p, s, ks)
    ensures var t := AfterAll(c, p, s, ks);
            t.avail == []
            && Run(c, p, s) == if t.waitCount != 0 then t.(lines := t.lines + [D.FinalWait(t.waitCount)]) else t
    decreases |ks|
  {
    hide IsPacketOf, Bytes, After, Round;
    if ks == [] {
      EndOfStream(c, p, s);
    } else {
      var pk := Bytes(c, p, ks[0]);
      assert s.avail == pk + s.avail[|pk|..];
      PacketRound(c, p, s, ks[0], s.avail[|pk|..]);
      var t := After(c, p, s, ks[0]);
      StreamRun(c, p, t, ks[1..]);
      assert Run(c, p, s) == Run(c, p, t);
    }
  }

  lemma EndOfStream(c: D.Config, p: Protocol, s: D.State)
    requires s.avail == []
    ensures Run(c, p, s) == if s.waitCount != 0 then s.(lines := s.lines + [D.FinalWait(s.waitCount)]) else s
  {}
}
