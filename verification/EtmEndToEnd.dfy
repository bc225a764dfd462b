/** The whole tool chain on ETMv3 instruction trace, with or without cycle counts: the P-headers, branch
    addresses, exceptions and I-syncs a tracer sends, through the decoder and the script. */
module EtmEndToEnd {
  import opened Octets
  import D = EtmDecode
  import opened EtmAddress
  import opened EtmFields
  import opened EtmTable
  import opened EtmRun
  import opened EtmPHeaders
  import opened PathRebuild
  import opened EtmPath
  import opened Formatter
  import opened FormatterPacking
  import opened TraceWire
  import P = EtmPackets
  import E = EndToEnd
  import EtmDecoder

  /** ---- The packets of the tracer ---- */

  // Both address encodings, with and without cycles, any number of context ID bytes up to four.
  predicate TraceConfig(c: D.Config) {
    !c.programFlowOnly && c.contextIdBytes <= 4
  }

  datatype Packet =
    | Header(h: Octet)
    | BranchTo(addr: int)
    | Exception(addr: int, bytes: seq<Octet>)
    | Sync(addr: int, info: Octet, context: Word, cycles: D.Option<P.Count>)

  // What can be sent: headers the protocol knows, ARM addresses, a context ID of the configured size.
  predicate CanSend(c: D.Config, k: Packet)
    requires TraceConfig(c)
  {
    match k
    case Header(h) => IsKnown(c, h)
    case BranchTo(addr) => Fits(addr)
    case Exception(addr, bytes) => Fits(addr) && bytes != [] && P.IsException(bytes)
    case Sync(addr, info, context, cycles) =>
      Fits(addr) && !info[4] && P.ContextFits(c, context) && (cycles.Some? ==> P.FitsEtm(cycles.value))
  }

  predicate AllCanSend(c: D.Config, ks: seq<Packet>)
    requires TraceConfig(c)
  {
    forall i | 0 <= i < |ks| :: CanSend(c, ks[i])
  }

  const NO_COUNT: P.Count := P.Count(Zeros(32), 0)

  // The packet on the wire, its address as short as the one last sent allows.
  function Wire(c: D.Config, base: int, k: Packet): (w: P.Packet)
    requires TraceConfig(c) && Fits(base) && CanSend(c, k)
    ensures P.IsPacketOf(c, Etm33, w)
  {
    match k
    case Header(h) => KnownHeader(c, h); P.PHeader(h)
    case BranchTo(addr) => P.Branch(TargetOf(c.altBranch, base, addr, false), [], NO_COUNT)
    case Exception(addr, bytes) => P.Branch(TargetOf(c.altBranch, base, addr, true), bytes, NO_COUNT)
    case Sync(addr, info, context, cycles) =>
      WordValue(addr);
      P.ISync(WordOf(addr), D.Arm, info, context, cycles)
  }

  lemma KnownHeader(c: D.Config, h: Octet)
    requires IsKnown(c, h)
    ensures IsPHeader(h)
  {}

  function PacketBytes(c: D.Config, base: int, k: Packet): seq<Octet>
    requires TraceConfig(c) && Fits(base) && CanSend(c, k)
  {
    P.Bytes(c, Etm33, Wire(c, base, k))
  }

  // The address last sent.
  function BaseAfter(base: int, k: Packet): int {
    if k.Header? then base else k.addr
  }

  function StreamBytes(c: D.Config, base: int, ks: seq<Packet>): seq<Octet>
    requires TraceConfig(c) && Fits(base) && AllCanSend(c, ks)
    decreases |ks|
  {
    if ks == [] then [] else PacketBytes(c, base, ks[0]) + StreamBytes(c, BaseAfter(base, ks[0]), ks[1..])
  }

  // The atoms among the events of a header.
  function AtomItems(events: seq<Event>): seq<Item> {
    if events == [] then [] else
      (if events[0].W? then [] else [AnAtom(events[0].Exec?)]) + AtomItems(events[1..])
  }

  // What a packet tells.
  function PacketItems(c: D.Config, k: Packet): seq<Item> {
    match k
    case Header(h) => AtomItems(HeaderEvents(c, h))
    case BranchTo(addr) => [AnAddress(addr)]
    case Exception(addr, _) => [AnException(addr)]
    case Sync(addr, _, _, _) => [ASync(addr)]
  }

  function StreamItems(c: D.Config, ks: seq<Packet>): seq<Item> {
    if ks == [] then [] else PacketItems(c, ks[0]) + StreamItems(c, ks[1..])
  }

  // What a tracer may send for an execution: an I-sync at its start, then its items, the atoms grouped
  // into headers in any way, with any cycles, exception bytes, information bytes and context IDs.
  predicate Sends(c: D.Config, ks: seq<Packet>, p: Program, steps: seq<Step>, end: int)
    requires TraceConfig(c) && steps != [] && Execution(p, steps, end)
  {
    AllCanSend(c, ks) && ks != [] && ks[0].Sync? && ks[0].addr == steps[0].addr
    && StreamItems(c, ks[1..]) == Items(p, steps, end)
  }

  function WholeBytesOf(c: D.Config, ks: seq<Packet>): seq<Octet>
    requires TraceConfig(c) && AllCanSend(c, ks)
  {
    ASyncBytes() + StreamBytes(c, 0, ks)
  }

  /** ---- Packets through the decoder ---- */

  lemma EventInStep(c: D.Config, s: D.State, base: int, pc: int, e: Event)
    requires TraceConfig(c) && InStep(s, base, pc)
    ensures var u, items := PrintEvent(c, s, e), AtomItems([e]);
            InStep(u, base, PcAt(pc, items)) && u.avail == s.avail
            && Heard(u.lines) == Heard(s.lines) + Lines(pc, items)
  {
    hide Heard, D.PrintInstruction;
    assert [e][1..] == [];
    if !e.W? {
      hide InStep;
      PrintInStep(c, s, base, pc, e.Exec?);
      OneLine(pc, AnAtom(e.Exec?));
    }
  }

  lemma FirstEvent(c: D.Config, s: D.State, events: seq<Event>)
    requires events != []
    ensures PrintEvents(c, s, events) == PrintEvents(c, PrintEvent(c, s, events[0]), events[1..])
    ensures AtomItems(events) == AtomItems([events[0]]) + AtomItems(events[1..])
  {
    hide D.PrintInstruction;
    assert [events[0]][1..] == [];
  }

  lemma NoEvents(c: D.Config, s: D.State, pc: int)
    ensures PrintEvents(c, s, []) == s && Lines(pc, AtomItems([])) == [] && PcAt(pc, AtomItems([])) == pc
  {}

  lemma {:induction false} EventsInStep(c: D.Config, s: D.State, base: int, pc: int, events: seq<Event>)
    requires TraceConfig(c) && InStep(s, base, pc)
    ensures var u, items := PrintEvents(c, s, events), AtomItems(events);
            InStep(u, base, PcAt(pc, items)) && u.avail == s.avail
            && Heard(u.lines) == Heard(s.lines) + Lines(pc, items)
    decreases |events|
  {
    hide Heard, PrintEvents, PrintEvent, AtomItems, Lines, PcAt, InStep;
    if events == [] {
      NoEvents(c, s, pc);
    } else {
      var e, more, u := events[0], events[1..], PrintEvent(c, s, events[0]);
      FirstEvent(c, s, events);
      EventInStep(c, s, base, pc, e);
      EventsInStep(c, u, base, PcAt(pc, AtomItems([e])), more);
      LinesConcat(pc, AtomItems([e]), AtomItems(more));
      var before, one, rest := Heard(s.lines), Lines(pc, AtomItems([e])), Lines(PcAt(pc, AtomItems([e])), AtomItems(more));
      assert before + one + rest == before + (one + rest);
    }
  }

  // The packet can be sent to a decoder in step.
  lemma WireFits(c: D.Config, s: D.State, base: int, pc: int, k: Packet)
    requires TraceConfig(c) && InStep(s, base, pc) && CanSend(c, k)
    ensures P.CanSend(c, Etm33, s, Wire(c, base, k))
  {
    hide WordOf, Enough, Aligned, IsKnown;
  }

  // What a packet does to a decoder in step.
  predicate Advances(c: D.Config, s: D.State, base: int, pc: int, k: Packet)
    requires TraceConfig(c) && Fits(base) && CanSend(c, k) && |PacketBytes(c, base, k)| <= |s.avail|
  {
    var r, items := P.After(c, Etm33, s, Wire(c, base, k)), PacketItems(c, k);
    InStep(r, BaseAfter(base, k), PcAt(pc, items)) && Heard(r.lines) == Heard(s.lines) + Lines(pc, items)
  }

  // A header prints the instructions of its atoms.
  lemma HeaderAdvances(c: D.Config, s: D.State, base: int, pc: int, h: Octet)
    requires TraceConfig(c) && InStep(s, base, pc) && Fits(base) && CanSend(c, Header(h)) && 1 <= |s.avail|
    ensures Advances(c, s, base, pc, Header(h))
  {
    hide InStep, Heard, Take, PrintEvents, HeaderEvents, AtomItems, IsKnown;
    StreamInStep(s, 1, base, pc);
    EventsInStep(c, Take(s, 1), base, pc, HeaderEvents(c, h));
  }

  lemma BranchAdvances(c: D.Config, s: D.State, base: int, pc: int, k: Packet)
    requires k.BranchTo? || k.Exception?
    requires TraceConfig(c) && InStep(s, base, pc) && Fits(base) && CanSend(c, k) && |PacketBytes(c, base, k)| <= |s.avail|
    ensures Advances(c, s, base, pc, k)
  {
    hide InStep, Heard, Take, P.Counting, P.Branched, P.Counted, EtmAddress.Encode, TargetOf;
    var exception := if k.BranchTo? then [] else k.bytes;
    BranchInStep(c, Etm33, s, base, pc, k.addr, exception, NO_COUNT, |PacketBytes(c, base, k)|);
    OneLine(pc, PacketItems(c, k)[0]);
    assert [] + [BranchLine(k.addr)] == [BranchLine(k.addr)];
  }

  lemma SyncAdvances(c: D.Config, s: D.State, base: int, pc: int, k: Packet)
    requires k.Sync?
    requires TraceConfig(c) && Fits(base) && s.Synced() && CanSend(c, k) && |PacketBytes(c, base, k)| <= |s.avail|
    ensures Advances(c, s, base, pc, k)
  {
    hide InStep, Heard, Take, P.FitsEtm, BytesOf, CountBytesOf, P.AtAddress, P.CyclesLine, P.SentAddress, EtmTable.Header;
    var n := |PacketBytes(c, base, k)|;
    var m := if k.cycles.Some? then 1 + k.cycles.value.n else 1;
    SyncInStep(s, k.addr, k.info, k.context, k.cycles, m, n);
    OneLine(pc, ASync(k.addr));
  }

  // One packet: exactly its bytes are taken, and the script hears the lines of its items.
  lemma PacketStep(c: D.Config, s: D.State, base: int, pc: int, k: Packet, rest: seq<Octet>)
    requires TraceConfig(c) && InStep(s, base, pc) && Fits(base) && CanSend(c, k)
            && s.avail == PacketBytes(c, base, k) + rest
    ensures var r, items := Round(c, Etm33, s), PacketItems(c, k);
            r.Running? && r.st.avail == rest && InStep(r.st, BaseAfter(base, k), PcAt(pc, items))
            && Heard(r.st.lines) == Heard(s.lines) + Lines(pc, items)
  {
    hide Round, Heard, InStep, P.After, P.Bytes, Wire, P.CanSend, AtomItems, HeaderEvents, IsKnown;
    WireFits(c, s, base, pc, k);
    P.PacketRound(c, Etm33, s, Wire(c, base, k), rest);
    match k
    case Header(h) =>
      OneByteHeader(c, base, h);
      HeaderAdvances(c, s, base, pc, h);
    case BranchTo(_) => BranchAdvances(c, s, base, pc, k);
    case Exception(_, _) => BranchAdvances(c, s, base, pc, k);
    case Sync(_, _, _, _) =>
      InStepFacts(s, base, pc);
      SyncAdvances(c, s, base, pc, k);
  }

  lemma OneByteHeader(c: D.Config, base: int, h: Octet)
    requires TraceConfig(c) && Fits(base) && CanSend(c, Header(h))
    ensures PacketBytes(c, base, Header(h)) == [h]
  {}

  // The decoder turns the bytes of any packets into the lines of their items, with counts between them.
  lemma {:induction false} PacketsDecode(c: D.Config, s: D.State, base: int, pc: int, ks: seq<Packet>)
    requires TraceConfig(c) && InStep(s, base, pc) && Fits(base) && AllCanSend(c, ks)
    requires s.avail == StreamBytes(c, base, ks)
    ensures Heard(Run(c, Etm33, s).lines) == Heard(s.lines) + Lines(pc, StreamItems(c, ks))
    decreases |ks|
  {
    hide Round, Heard, InStep, PacketBytes, PacketItems, BaseAfter, ItemLine, PcAfter;
    if ks == [] {
      StreamDone(c, Etm33, s);
      assert Heard(s.lines) + Lines(pc, []) == Heard(s.lines);
    } else {
      var k, more, next := ks[0], ks[1..], BaseAfter(base, ks[0]);
      assert CanSend(c, k) && forall i | 0 <= i < |more| :: more[i] == ks[i + 1];
      BaseFits(c, base, k);
      PacketStep(c, s, base, pc, k, StreamBytes(c, next, more));
      var s', items := Round(c, Etm33, s).st, PacketItems(c, k);
      PacketsDecode(c, s', next, PcAt(pc, items), more);
      LinesConcat(pc, items, StreamItems(c, more));
      assert Run(c, Etm33, s) == Run(c, Etm33, s');
      assert Heard(s.lines) + Lines(pc, items) + Lines(PcAt(pc, items), StreamItems(c, more))
          == Heard(s.lines) + Lines(pc, StreamItems(c, ks));
    }
  }

  lemma BaseFits(c: D.Config, base: int, k: Packet)
    requires TraceConfig(c) && Fits(base) && CanSend(c, k)
    ensures Fits(BaseAfter(base, k))
  {}

  /** ---- Synchronisation ---- */

  // The byte that ends the zeros is a header of one wait, or of nothing.
  lemma EndOfZeros(c: D.Config, s: D.State, rest: seq<Octet>)
    requires TraceConfig(c) && s.Synced() && s.avail == [NO_ATOMS] + rest
    ensures var r := Round(c, Etm33, s);
            r.Running? && r.st.avail == rest && r.st.lines == s.lines && r.st.Synced()
            && r.st.waitCount == s.waitCount + if c.cycleAccurate then 1 else 0
  {
    hide Take, ToNat, D.PrintInstruction;
    P.PHeaderRound(c, s, NO_ATOMS, rest);
    StaysSynced(s, 1);
    TakeKeeps(s, 1);
    NoAtoms(c, Take(s, 1));
  }

  lemma NoAtoms(c: D.Config, t: D.State)
    ensures IsKnown(c, NO_ATOMS)
    ensures PrintEvents(c, t, HeaderEvents(c, NO_ATOMS))
         == if c.cycleAccurate then t.(waitCount := t.waitCount + 1) else t
  {
    assert NO_ATOMS[2..6] == Zeros(4) && NO_ATOMS[2..5] == Zeros(3);
    ZerosAreNothing(4);
    ZerosAreNothing(3);
    assert [W][1..] == [];
    assert Repeat(Exec, 0) == [];
  }

  lemma ASyncDecodes(c: D.Config, s: D.State, rest: seq<Octet>) returns (s': D.State)
    requires TraceConfig(c) && s.sync == 0 && s.avail == ASyncBytes() + rest
    ensures Run(c, Etm33, s) == Run(c, Etm33, s') && s'.avail == rest && s'.lines == s.lines && s'.Synced()
  {
    hide Round;
    assert ASyncBytes() + rest == seq(5, i => Zeros(8)) + ([NO_ATOMS] + rest);
    var t := FiveZeros(c, Etm33, s, [NO_ATOMS] + rest);
    EndOfZeros(c, t, rest);
    s' := Round(c, Etm33, t).st;
    assert Run(c, Etm33, t) == Run(c, Etm33, s');
  }

  /** ---- Some trace ---- */

  // A header of one atom.
  function OneAtom(c: D.Config, executed: bool): Octet {
    if c.cycleAccurate then [false, true, !executed, false, true, false, false, true]
    else [false, false, executed, false, false, false, !executed, true]
  }

  lemma OneAtomItems(c: D.Config, executed: bool)
    requires TraceConfig(c)
    ensures CanSend(c, Header(OneAtom(c, executed))) && PacketItems(c, Header(OneAtom(c, executed))) == [AnAtom(executed)]
  {
    var h := OneAtom(c, executed);
    if !c.cycleAccurate {
      assert h[2..6] == [executed] + Zeros(3);
      assert h[2..6][1..] == Zeros(3);
      ZerosAreNothing(3);
      assert Repeat(Exec, 1) == [Exec] && Repeat(Exec, 0) == [];
    }
    var events := [AtomEvent(executed)];
    assert HeaderEvents(c, h) == events;
    assert events[1..] == [] && AtomItems([]) == [];
    assert AtomItems(events) == [AnAtom(executed)];
  }

  function PacketOf(c: D.Config, item: Item): Packet {
    match item
    case AnAtom(executed) => Header(OneAtom(c, executed))
    case AnAddress(addr) => BranchTo(addr)
    case AnException(addr) => Exception(addr, [Zeros(8)])
    case ASync(addr) => Sync(addr, Zeros(8), Zeros(32), D.None)
  }

  function PacketsOf(c: D.Config, items: seq<Item>): (ks: seq<Packet>)
    ensures |ks| == |items|
  {
    seq(|items|, i requires 0 <= i < |items| => PacketOf(c, items[i]))
  }

  lemma PacketOfItem(c: D.Config, item: Item)
    requires TraceConfig(c)
    ensures PacketItems(c, PacketOf(c, item)) == [item]
    ensures item.AnAtom? || Fits(item.addr) ==> CanSend(c, PacketOf(c, item))
  {
    match item
    case AnAtom(executed) => OneAtomItems(c, executed);
    case ASync(_) => assert Zeros(32)[8 * c.contextIdBytes..] == Zeros(32 - 8 * c.contextIdBytes);
    case _ =>
  }

  predicate AllFit(items: seq<Item>) {
    forall i | 0 <= i < |items| :: items[i].AnAtom? || Fits(items[i].addr)
  }

  lemma {:induction false} ItemsCanBeSent(c: D.Config, items: seq<Item>)
    requires TraceConfig(c) && AllFit(items)
    ensures AllCanSend(c, PacketsOf(c, items)) && StreamItems(c, PacketsOf(c, items)) == items
    decreases |items|
  {
    hide CanSend, PacketOf, PacketItems;
    if items != [] {
      PacketOfItem(c, items[0]);
      ItemsCanBeSent(c, items[1..]);
      var ks, more := PacketsOf(c, items), PacketsOf(c, items[1..]);
      assert ks[1..] == more;
      assert forall i | 0 < i < |ks| :: ks[i] == more[i - 1];
    }
  }

  // The addresses of the instructions that exceptions come before.
  predicate GoalsFit(steps: seq<Step>) {
    forall i | 0 <= i < |steps| :: steps[i].interrupt.Some? ==> Fits(steps[i].interrupt.value)
  }

  lemma {:induction false} ItemsFit(p: Program, steps: seq<Step>, end: int)
    requires InMemory(p) && Fits(end) && GoalsFit(steps) && Execution(p, steps, end)
    ensures AllFit(Items(p, steps, end))
    decreases |steps|
  {
    hide Fits;
    if steps != [] {
      var next := Next(steps, end);
      if |steps| > 1 { assert steps[1..][0].addr in p; }
      assert forall i | 0 <= i < |steps[1..]| :: steps[1..][i] == steps[i + 1];
      ItemsFit(p, steps[1..], end);
      assert AllFit(StepItems(p, steps[0], next));
    }
  }

  // Every execution has a trace that can be sent.
  lemma SomeTrace(c: D.Config, p: Program, steps: seq<Step>, end: int)
    requires InMemory(p) && Fits(end) && GoalsFit(steps) && TraceConfig(c) && steps != [] && Execution(p, steps, end)
    ensures exists ks :: Sends(c, ks, p, steps, end)
  {
    hide Items, StreamItems, PacketsOf, CanSend;
    var items, first := Items(p, steps, end), PacketOf(c, ASync(steps[0].addr));
    ItemsFit(p, steps, end);
    ItemsCanBeSent(c, items);
    PacketOfItem(c, ASync(steps[0].addr));
    var ks := [first] + PacketsOf(c, items);
    assert ks[1..] == PacketsOf(c, items);
    assert Sends(c, ks, p, steps, end);
  }

  /** ---- The tools in a row ---- */

  lemma StreamStarts(c: D.Config, ks: seq<Packet>)
    requires TraceConfig(c) && AllCanSend(c, ks) && ks != [] && ks[0].Sync?
    ensures CanSend(c, ks[0]) && AllCanSend(c, ks[1..])
    ensures StreamBytes(c, 0, ks) == PacketBytes(c, 0, ks[0]) + StreamBytes(c, ks[0].addr, ks[1..])
  {
    hide PacketBytes;
    assert CanSend(c, ks[0]);
    assert forall i | 0 <= i < |ks[1..]| :: ks[1..][i] == ks[i + 1];
  }

  // The first I-sync, which brings the decoder in step.
  lemma FirstSync(c: D.Config, s: D.State, k: Packet, rest: seq<Octet>)
    requires TraceConfig(c) && k.Sync? && CanSend(c, k) && s.Synced() && s.avail == PacketBytes(c, 0, k) + rest
    ensures var r := Round(c, Etm33, s);
            r.Running? && r.st.avail == rest && InStep(r.st, k.addr, k.addr)
                && Heard(r.st.lines) == Heard(s.lines) + [ISyncLine(k.addr)]
  {
    hide Round, Heard, InStep, P.After, P.Bytes;
    P.PacketRound(c, Etm33, s, Wire(c, 0, k), rest);
    SyncAdvances(c, s, 0, k.addr, k);
    OneLine(k.addr, ASync(k.addr));
  }

  // A decoder started on the bytes a tracer may send for an execution prints exactly the lines of its
  // items for the script.
  lemma WholeTraceDecodes(c: D.Config, s: D.State, ks: seq<Packet>, p: Program, steps: seq<Step>, end: int)
    requires TraceConfig(c) && steps != [] && Execution(p, steps, end) && Sends(c, ks, p, steps, end)
    requires s.avail == WholeBytesOf(c, ks) && s.sync == 0 && s.lines == []
    ensures var a := steps[0].addr; Heard(Run(c, Etm33, s).lines) == Lines(a, [ASync(a)] + Items(p, steps, end))
  {
    hide Round, Heard, InStep, PacketBytes, ASyncBytes, StreamBytes, StreamItems, Items, Lines, P.Bytes, Wire;
    var a, first, more := steps[0].addr, ks[0], ks[1..];
    StreamStarts(c, ks);
    var body := StreamBytes(c, a, more);
    var s1 := ASyncDecodes(c, s, PacketBytes(c, 0, first) + body);
    FirstSync(c, s1, first, body);
    var s2 := Round(c, Etm33, s1).st;
    PacketsDecode(c, s2, a, a, more);
    E.NothingHeard();
    OneLine(a, ASync(a));
    LinesConcat(a, [ASync(a)], Items(p, steps, end));
    assert [] + [ISyncLine(a)] + Lines(a, Items(p, steps, end)) == [ISyncLine(a)] + Lines(a, Items(p, steps, end));
    assert Run(c, Etm33, s1) == Run(c, Etm33, s2);
  }

  // What the script prints for the bytes of a trace: the executed instructions if and only if the pc
  // holds.
  lemma DecodedPath(c: D.Config, s: D.State, ks: seq<Packet>, p: Program, steps: seq<Step>, end: int)
    requires InMemory(p) && TraceConfig(c) && steps != [] && Execution(p, steps, end) && Sends(c, ks, p, steps, end)
    requires s.avail == WholeBytesOf(c, ks) && s.sync == 0 && s.lines == []
    ensures Process(p, START, ParseAll(Run(c, Etm33, s).lines)).out == EtmPath.Expected(steps)
            <==> PcHolds(p, steps[0].addr, steps, end)
  {
    hide Run, ParseAll, Heard, Process, PcHolds, WholeBytesOf, Sends, Lines, Items;
    WholeTraceDecodes(c, s, ks, p, steps, end);
    ProcessHeard(p, START, Run(c, Etm33, s).lines);
    EtmPath.PathRebuilt(p, steps, end);
  }

  // The whole way: the trace bytes of one execution, packed into formatter frames together with any
  // bytes of sources outside the mask, decoded and rebuilt, are the executed instructions.
  method DecodeAndRebuild(c: D.Config, mask: Word, items: seq<Tagged>, p: Program,
                          ghost ks: seq<Packet>, ghost steps: seq<Step>, ghost end: int)
    returns (out: seq<Out>)
    requires InMemory(p) && TraceConfig(c) && steps != [] && Execution(p, steps, end) && Sends(c, ks, p, steps, end)
    requires IdsFit(items) && !Matches(mask, 0) && Pick(items, mask) == WholeBytesOf(c, ks)
    ensures out == EtmPath.Expected(steps) <==> PcHolds(p, steps[0].addr, steps, end)
  {
    hide Run, ParseAll, Process, PcHolds, WholeBytesOf, Pick, Tag, StreamSymbols, Pack, D.SyncCounts, Sends;
    ReadBack(items, mask);
    var decoder := new EtmDecoder.Decoder(c, Etm33, true, mask, Pack(items, 0));
    ghost var s := decoder.Snapshot();
    decoder.Decode();
    DecodedPath(c, s, ks, p, steps, end);
    var script := new Rebuilder(p);
    script.Rebuild(ParseAll(decoder.lines));
    out := script.out;
  }
}
