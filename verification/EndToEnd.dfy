/** The whole tool chain on program-flow trace: the bytes a tracer sends, through the decoder and the
    script, give the executed path back. */
module EndToEnd {
  import opened Octets
  import D = EtmDecode
  import opened EtmAddress
  import opened EtmFields
  import opened EtmTable
  import opened EtmRun
  import opened PathRebuild
  import opened PathCorrect
  import opened Formatter
  import opened FormatterPacking
  import opened TraceWire
  import P = EtmPackets
  import EtmDecoder

  /** ---- The packets of the tracer ---- */

  // With or without cycle counts, any number of context ID bytes up to four.
  predicate FlowConfig(c: D.Config) {
    c.altBranch && c.programFlowOnly && c.contextIdBytes <= 4
  }

  // A packet of the tracer: up to five atoms, a branch address, an exception with its bytes, or an I-sync
  // with its information byte and context ID; each with its count in a cycle-accurate trace.
  datatype Packet =
    | Atoms(executed: seq<bool>, count: P.Count)
    | BranchTo(addr: int, count: P.Count)
    | Exception(addr: int, bytes: seq<Octet>, count: P.Count)
    | Sync(addr: int, info: Octet, context: Word, cycles: D.Option<P.Count>)

  // What can be sent: ARM addresses, one atom for each count, and a context ID of the configured size.
  predicate CanSend(c: D.Config, k: Packet)
    requires FlowConfig(c)
  {
    match k
    case Atoms(executed, count) => if c.cycleAccurate then |executed| == 1 && P.FitsPft(count) else 1 <= |executed| <= 5
    case BranchTo(addr, count) => Fits(addr) && (c.cycleAccurate ==> P.FitsPft(count))
    case Exception(addr, bytes, count) =>
      Fits(addr) && bytes != [] && P.IsException(bytes) && (c.cycleAccurate ==> P.FitsPft(count))
    case Sync(addr, info, context, cycles) =>
      Fits(addr) && !info[4] && P.ContextFits(c, context)
      && (cycles.Some? <==> c.cycleAccurate && (info[5] || info[6])) && (cycles.Some? ==> P.FitsPft(cycles.value))
  }

  predicate AllCanSend(c: D.Config, ks: seq<Packet>)
    requires FlowConfig(c)
  {
    forall i | 0 <= i < |ks| :: CanSend(c, ks[i])
  }

  // The packet on the wire, its address as short as the one last sent allows.
  function Wire(c: D.Config, base: int, k: Packet): (w: P.Packet)
    requires FlowConfig(c) && Fits(base) && CanSend(c, k)
    ensures P.IsPacketOf(c, Pft, w)
  {
    match k
    case Atoms(executed, count) => if c.cycleAccurate then P.CountedAtom(executed[0], count) else P.Atoms(executed)
    case BranchTo(addr, count) => P.Branch(TargetOf(true, base, addr, false), [], count)
    case Exception(addr, bytes, count) => P.Branch(TargetOf(true, base, addr, true), bytes, count)
    case Sync(addr, info, context, cycles) =>
      WordValue(addr);
      P.ISync(WordOf(addr), D.Arm, info, context, cycles)
  }

  function PacketBytes(c: D.Config, base: int, k: Packet): seq<Octet>
    requires FlowConfig(c) && Fits(base) && CanSend(c, k)
  {
    P.Bytes(c, Pft, Wire(c, base, k))
  }

  // The address last sent.
  function BaseAfter(base: int, k: Packet): int {
    if k.Atoms? then base else k.addr
  }

  function StreamBytes(c: D.Config, base: int, ks: seq<Packet>): seq<Octet>
    requires FlowConfig(c) && Fits(base) && AllCanSend(c, ks)
    decreases |ks|
  {
    if ks == [] then [] else PacketBytes(c, base, ks[0]) + StreamBytes(c, BaseAfter(base, ks[0]), ks[1..])
  }

  /** ---- The packets of an execution ---- */

  function AtomLines(base: int, executed: seq<bool>): seq<TraceLine> {
    if executed == [] then [] else [Execute(executed[0], base, true)] + AtomLines(base, executed[1..])
  }

  // The lines a packet stands for. A branch packet is an executed atom, too, unless it is an exception.
  function PacketLines(base: int, k: Packet): seq<TraceLine> {
    match k
    case Atoms(executed, _) => AtomLines(base, executed)
    case BranchTo(addr, _) => [Execute(true, base, true), BranchLine(addr)]
    case Exception(addr, _, _) => [BranchLine(addr)]
    case Sync(addr, _, _, _) => [ISyncLine(addr)]
  }

  function StreamLines(base: int, ks: seq<Packet>): seq<TraceLine>
    decreases |ks|
  {
    if ks == [] then [] else PacketLines(base, ks[0]) + StreamLines(BaseAfter(base, ks[0]), ks[1..])
  }

  const NO_COUNT: P.Count := P.Count(Zeros(32), 0)

  // One packet for each atom.
  function Singles(executed: seq<bool>): (ks: seq<Packet>) {
    if executed == [] then [] else [Atoms([executed[0]], NO_COUNT)] + Singles(executed[1..])
  }

  function PlainException(addr: int): Packet {
    Exception(addr, [Zeros(8)], NO_COUNT)
  }

  function PlainSync(addr: int): Packet {
    Sync(addr, Zeros(8), Zeros(32), D.None)
  }

  // The same packets with every atom on its own, and nothing but addresses in the others.
  function Bare(ks: seq<Packet>): seq<Packet>
    decreases |ks|
  {
    if ks == [] then [] else
      (match ks[0]
       case Atoms(executed, _) => Singles(executed)
       case BranchTo(addr, _) => [BranchTo(addr, NO_COUNT)]
       case Exception(addr, _, _) => [PlainException(addr)]
       case Sync(addr, _, _, _) => [PlainSync(addr)])
      + Bare(ks[1..])
  }

  // The packets for one branch instruction.
  function StepPackets(p: Program, t: Tracer, s: Step, next: int): seq<Packet>
    requires s.addr in p && p[s.addr].Branch?
  {
    [if s.taken && p[s.addr].target.None? && !AtomOnlyReturn(p, t, s, next) then BranchTo(Goal(s, next), NO_COUNT)
     else Atoms([s.taken], NO_COUNT)]
    + (if s.interrupt.Some? then [PlainException(next)] else [])
    + (if s.resync then [PlainSync(next)] else [])
  }

  function TracePackets(p: Program, t: Tracer, steps: seq<Step>, end: int): seq<Packet>
    requires Execution(p, steps, end)
    decreases |steps|
  {
    if steps == [] then []
    else if p[steps[0].addr].Plain? then TracePackets(p, t, steps[1..], end)
    else
      var next := Next(steps, end);
      StepPackets(p, t, steps[0], next) + TracePackets(p, TracerAfter(p, t, steps[0], next), steps[1..], end)
  }

  // What a tracer may send for an execution: an I-sync at its start, then its packets, the atoms grouped
  // in any way, with any counts, exception bytes, information bytes and context IDs.
  predicate Sends(c: D.Config, ks: seq<Packet>, p: Program, depth: nat, steps: seq<Step>, end: int)
    requires FlowConfig(c) && steps != [] && Execution(p, steps, end)
  {
    AllCanSend(c, ks) && ks != [] && ks[0].Sync? && ks[0].addr == steps[0].addr
    && Bare(ks[1..]) == TracePackets(p, Tracer(steps[0].addr, [], depth), steps, end)
  }

  function WholeBytesOf(c: D.Config, ks: seq<Packet>): seq<Octet>
    requires FlowConfig(c) && AllCanSend(c, ks)
  {
    ASyncBytes() + StreamBytes(c, 0, ks)
  }

  lemma {:induction false} LinesConcat(base: int, a: seq<Packet>, b: seq<Packet>)
    ensures StreamLines(base, a + b) == StreamLines(base, a) + StreamLines(StreamBase(base, a), b)
    ensures StreamBase(base, a + b) == StreamBase(StreamBase(base, a), b)
    decreases |a|
  {
    if a == [] {
      assert a + b == b;
    } else {
      assert (a + b)[1..] == a[1..] + b;
      LinesConcat(BaseAfter(base, a[0]), a[1..], b);
    }
  }

  function StreamBase(base: int, ks: seq<Packet>): int
    decreases |ks|
  {
    if ks == [] then base else StreamBase(BaseAfter(base, ks[0]), ks[1..])
  }

  lemma {:induction false} SinglesSame(base: int, executed: seq<bool>)
    ensures StreamLines(base, Singles(executed)) == AtomLines(base, executed) && StreamBase(base, Singles(executed)) == base
  {
    if executed != [] {
      SinglesSame(base, executed[1..]);
      OneAtomLine(base, executed[0]);
      assert Singles(executed)[1..] == Singles(executed[1..]);
    }
  }

  lemma OneAtomLine(base: int, executed: bool)
    ensures AtomLines(base, [executed]) == [Execute(executed, base, true)]
  {
    assert [executed][1..] == [];
  }

  lemma OnePacket(base: int, k: Packet)
    ensures StreamLines(base, [k]) == PacketLines(base, k) && StreamBase(base, [k]) == BaseAfter(base, k)
    ensures StreamLines(base, []) == [] && StreamBase(base, []) == base
  {
    assert [k][1..] == [];
  }

  // Grouping changes no line, nor do counts and what comes with an exception or an I-sync.
  lemma {:induction false} BareSame(base: int, ks: seq<Packet>)
    ensures StreamLines(base, Bare(ks)) == StreamLines(base, ks)
    decreases |ks|
  {
    if ks != [] {
      var next := BaseAfter(base, ks[0]);
      BareSame(next, ks[1..]);
      var first := Bare([ks[0]]);
      assert [ks[0]][1..] == [] && Bare([]) == [];
      LinesConcat(base, first, Bare(ks[1..]));
      match ks[0]
      case Atoms(executed, _) =>
        assert first == Singles(executed);
        SinglesSame(base, executed);
      case BranchTo(addr, _) => OnePacket(base, BranchTo(addr, NO_COUNT));
      case Exception(addr, _, _) => OnePacket(base, PlainException(addr));
      case Sync(addr, _, _, _) => OnePacket(base, PlainSync(addr));
    }
  }

  // The packets of one branch instruction stand for its lines.
  lemma StepLines(p: Program, t: Tracer, s: Step, next: int)
    requires s.addr in p && p[s.addr].Branch?
    ensures StreamLines(t.base, StepPackets(p, t, s, next)) == LinesOf(p, t, s, next)
    ensures StreamBase(t.base, StepPackets(p, t, s, next)) == TracerAfter(p, t, s, next).base
  {
    hide StreamLines, StreamBase, AtomLines, AtomOnlyReturn;
    var first := StepPackets(p, t, s, next)[..1];
    var exception := if s.interrupt.Some? then [PlainException(next)] else [];
    var sync := if s.resync then [PlainSync(next)] else [];
    assert first == [first[0]] && StepPackets(p, t, s, next) == first + exception + sync;
    LinesConcat(t.base, first + exception, sync);
    LinesConcat(t.base, first, exception);
    FirstLines(p, t, s, next);
    var b := StreamBase(t.base, first);
    OnePacket(b, PlainException(next));
    OnePacket(StreamBase(b, exception), PlainSync(next));
  }

  lemma FirstLines(p: Program, t: Tracer, s: Step, next: int)
    requires s.addr in p && p[s.addr].Branch?
    ensures var first := StepPackets(p, t, s, next)[..1];
            var sent := s.taken && p[s.addr].target.None? && !AtomOnlyReturn(p, t, s, next);
            StreamLines(t.base, first) == [Execute(s.taken, t.base, true)]
                + (if sent then [BranchLine(Goal(s, next))] else [])
            && StreamBase(t.base, first) == AfterBranch(p, t, s, next).base
  {
    hide StreamLines, StreamBase, AtomLines;
    OneAtomLine(t.base, s.taken);
    OnePacket(t.base, StepPackets(p, t, s, next)[0]);
    assert StepPackets(p, t, s, next)[..1] == [StepPackets(p, t, s, next)[0]];
  }

  lemma {:induction false} TraceLinesSame(p: Program, t: Tracer, steps: seq<Step>, end: int)
    requires Execution(p, steps, end)
    ensures StreamLines(t.base, TracePackets(p, t, steps, end)) == Trace(p, t, steps, end)
    decreases |steps|
  {
    hide StepPackets, LinesOf;
    if steps != [] {
      if p[steps[0].addr].Plain? {
        TraceLinesSame(p, t, steps[1..], end);
      } else {
        var next := Next(steps, end);
        var t' := TracerAfter(p, t, steps[0], next);
        StepLines(p, t, steps[0], next);
        TraceLinesSame(p, t', steps[1..], end);
        LinesConcat(t.base, StepPackets(p, t, steps[0], next), TracePackets(p, t', steps[1..], end));
      }
    }
  }

  lemma {:induction false} BareConcat(a: seq<Packet>, b: seq<Packet>)
    ensures Bare(a + b) == Bare(a) + Bare(b)
    decreases |a|
  {
    hide Singles, PlainException, PlainSync;
    if a == [] {
      assert a + b == b;
    } else {
      assert (a + b)[1..] == a[1..] + b;
      BareConcat(a[1..], b);
    }
  }

  // A trace without cycle counts, or with those of nothing.
  lemma BareStep(c: D.Config, p: Program, t: Tracer, s: Step, next: int)
    requires FlowConfig(c) && s.addr in p && p[s.addr].Branch? && Fits(next) && Fits(Goal(s, next))
    ensures Bare(StepPackets(p, t, s, next)) == StepPackets(p, t, s, next) && AllCanSend(c, StepPackets(p, t, s, next))
  {
    hide Bare, CanSend, Fits;
    var first := StepPackets(p, t, s, next)[..1];
    var exception := if s.interrupt.Some? then [PlainException(next)] else [];
    var sync := if s.resync then [PlainSync(next)] else [];
    assert first == [first[0]] && StepPackets(p, t, s, next) == first + exception + sync;
    BareConcat(first + exception, sync);
    BareConcat(first, exception);
    BareOne(c, Goal(s, next), s.taken);
    BareOne(c, next, s.taken);
  }

  lemma BareOne(c: D.Config, a: int, taken: bool)
    requires FlowConfig(c) && Fits(a)
    ensures Bare([Atoms([taken], NO_COUNT)]) == [Atoms([taken], NO_COUNT)] && CanSend(c, Atoms([taken], NO_COUNT))
    ensures Bare([BranchTo(a, NO_COUNT)]) == [BranchTo(a, NO_COUNT)] && CanSend(c, BranchTo(a, NO_COUNT))
    ensures Bare([PlainException(a)]) == [PlainException(a)] && CanSend(c, PlainException(a))
    ensures Bare([PlainSync(a)]) == [PlainSync(a)] && CanSend(c, PlainSync(a))
    ensures Bare([]) == []
  {
    assert [taken][1..] == [] && Singles([]) == [] && Singles([taken]) == [Atoms([taken], NO_COUNT)];
    assert [Atoms([taken], NO_COUNT)][1..] == [] && [BranchTo(a, NO_COUNT)][1..] == [];
    assert [PlainException(a)][1..] == [] && [PlainSync(a)][1..] == [];
    assert Zeros(32)[8 * c.contextIdBytes..] == Zeros(32 - 8 * c.contextIdBytes);
    assert Zeros(32)[4..] == Zeros(28);
  }

  lemma {:induction false} TraceCanBeSent(c: D.Config, p: Program, t: Tracer, steps: seq<Step>, end: int)
    requires FlowConfig(c) && InMemory(p) && Fits(end) && Execution(p, steps, end)
    ensures var ks := TracePackets(p, t, steps, end); Bare(ks) == ks && AllCanSend(c, ks)
    decreases |steps|
  {
    hide StepPackets, CanSend, Fits;
    if steps != [] {
      if |steps| > 1 { assert steps[1..][0].addr in p; }
      if p[steps[0].addr].Plain? {
        TraceCanBeSent(c, p, t, steps[1..], end);
      } else {
        var next := Next(steps, end);
        var t' := TracerAfter(p, t, steps[0], next);
        TraceCanBeSent(c, p, t', steps[1..], end);
        BareStep(c, p, t, steps[0], next);
        BareConcat(StepPackets(p, t, steps[0], next), TracePackets(p, t', steps[1..], end));
      }
    }
  }

  // Every execution has a trace that can be sent.
  lemma SomeTrace(c: D.Config, p: Program, depth: nat, steps: seq<Step>, end: int)
    requires FlowConfig(c) && InMemory(p) && Fits(end) && steps != [] && Execution(p, steps, end)
    ensures exists ks :: Sends(c, ks, p, depth, steps, end)
  {
    var a := steps[0].addr;
    var more := TracePackets(p, Tracer(a, [], depth), steps, end);
    hide Bare, TracePackets;
    TraceCanBeSent(c, p, Tracer(a, [], depth), steps, end);
    BareOne(c, a, true);
    var ks := [PlainSync(a)] + more;
    assert ks[1..] == more;
    assert Sends(c, ks, p, depth, steps, end);
  }

  /** ---- Packets through the decoder ---- */

  lemma {:induction false} PrintAllInStep(c: D.Config, t: D.State, base: int, executed: seq<bool>)
    requires FlowConfig(c) && InStep(t, base, base)
    ensures var u := PrintAll(c, t, executed);
            InStep(u, base, base) && u.avail == t.avail && Heard(u.lines) == Heard(t.lines) + AtomLines(base, executed)
    decreases |executed|
  {
    hide InStep, Heard, D.PrintInstruction;
    if executed == [] {
      assert Heard(t.lines) + [] == Heard(t.lines);
    } else {
      PrintInStep(c, t, base, base, executed[0]);
      PrintAllInStep(c, D.PrintInstruction(c, t, executed[0]), base, executed[1..]);
      assert Heard(t.lines) + [Execute(executed[0], base, true)] + AtomLines(base, executed[1..])
          == Heard(t.lines) + AtomLines(base, executed);
    }
  }

  // The packet can be sent to a decoder in step.
  lemma WireFits(c: D.Config, s: D.State, base: int, k: Packet)
    requires FlowConfig(c) && InStep(s, base, base) && CanSend(c, k)
    ensures P.CanSend(c, Pft, s, Wire(c, base, k))
  {
    hide WordOf, Enough, Aligned;
  }

  // What a packet does to a decoder in step.
  predicate Advances(c: D.Config, s: D.State, base: int, k: Packet)
    requires FlowConfig(c) && Fits(base) && CanSend(c, k) && |PacketBytes(c, base, k)| <= |s.avail|
  {
    var r := P.After(c, Pft, s, Wire(c, base, k));
    InStep(r, BaseAfter(base, k), BaseAfter(base, k)) && Heard(r.lines) == Heard(s.lines) + PacketLines(base, k)
  }

  // Atoms print a line for each.
  lemma AtomsAdvance(c: D.Config, s: D.State, base: int, executed: seq<bool>, count: P.Count)
    requires FlowConfig(c) && InStep(s, base, base) && Fits(base) && CanSend(c, Atoms(executed, count))
    requires |PacketBytes(c, base, Atoms(executed, count))| <= |s.avail|
    ensures Advances(c, s, base, Atoms(executed, count))
  {
    hide InStep, Heard, D.PrintInstruction, Take, PrintAll, P.FitsPft, CountHeader, CountBytesOf, AtomsByte;
    var n := |PacketBytes(c, base, Atoms(executed, count))|;
    StreamInStep(s, n, base, base);
    if c.cycleAccurate {
      var line := D.CycleCount(P.SyncedAfter(s, n), count.value);
      var t := Take(s, n).(lines := s.lines + [line]);
      OtherLines(Take(s, n), t.lines, base);
      SilentLine(s.lines, line);
      PrintInStep(c, t, base, base, executed[0]);
      OneAtomLine(base, executed[0]);
      assert executed == [executed[0]];
    } else {
      PrintAllInStep(c, Take(s, n), base, executed);
    }
  }

  lemma OtherLines(s: D.State, lines: seq<D.Line>, base: int)
    requires InStep(s, base, base)
    ensures InStep(s.(lines := lines), base, base)
  {}

  lemma BranchAdvances(c: D.Config, s: D.State, base: int, k: Packet)
    requires k.BranchTo? || k.Exception?
    requires FlowConfig(c) && InStep(s, base, base) && Fits(base) && CanSend(c, k) && |PacketBytes(c, base, k)| <= |s.avail|
    ensures Advances(c, s, base, k)
  {
    hide InStep, Heard, Take, P.FitsPft, P.Counting, P.Branched, P.Counted, EtmAddress.Encode, TargetOf;
    var exception := if k.BranchTo? then [] else k.bytes;
    BranchInStep(c, Pft, s, base, base, k.addr, exception, k.count, |PacketBytes(c, base, k)|);
  }

  lemma SyncAdvances(c: D.Config, s: D.State, base: int, k: Packet)
    requires k.Sync?
    requires FlowConfig(c) && Fits(base) && s.Synced() && CanSend(c, k) && |PacketBytes(c, base, k)| <= |s.avail|
    ensures Advances(c, s, base, k)
  {
    hide InStep, Heard, Take, P.FitsPft, BytesOf, P.PftCount, P.AtAddress, P.CyclesLine, P.SentAddress, Header;
    var n := |PacketBytes(c, base, k)|;
    var m := if k.cycles.Some? then 7 + k.cycles.value.n else 6;
    SyncInStep(s, k.addr, k.info, k.context, k.cycles, m, n);
  }

  // One packet: exactly its bytes are taken, and the script hears its lines.
  lemma PacketStep(c: D.Config, s: D.State, base: int, k: Packet, rest: seq<Octet>)
    requires FlowConfig(c) && InStep(s, base, base) && Fits(base) && CanSend(c, k)
            && s.avail == PacketBytes(c, base, k) + rest
    ensures var r := Round(c, Pft, s);
            r.Running? && r.st.avail == rest && InStep(r.st, BaseAfter(base, k), BaseAfter(base, k))
            && Heard(r.st.lines) == Heard(s.lines) + PacketLines(base, k)
  {
    hide Round, Heard, InStep, P.After, P.Bytes, Wire, P.CanSend;
    WireFits(c, s, base, k);
    P.PacketRound(c, Pft, s, Wire(c, base, k), rest);
    match k
    case Atoms(executed, count) => AtomsAdvance(c, s, base, executed, count);
    case BranchTo(_, _) => BranchAdvances(c, s, base, k);
    case Exception(_, _, _) => BranchAdvances(c, s, base, k);
    case Sync(_, _, _, _) =>
      InStepFacts(s, base, base);
      SyncAdvances(c, s, base, k);
  }

  // The decoder turns the bytes of any packets into their lines, with counts between them.
  lemma {:induction false} PacketsDecode(c: D.Config, s: D.State, base: int, ks: seq<Packet>)
    requires FlowConfig(c) && InStep(s, base, base) && Fits(base) && AllCanSend(c, ks)
    requires s.avail == StreamBytes(c, base, ks)
    ensures Heard(Run(c, Pft, s).lines) == Heard(s.lines) + StreamLines(base, ks)
    decreases |ks|
  {
    hide Round, Heard, InStep, PacketBytes, PacketLines;
    if ks == [] {
      StreamDone(c, Pft, s);
      assert Heard(s.lines) + [] == Heard(s.lines);
    } else {
      var k, more, next := ks[0], ks[1..], BaseAfter(base, ks[0]);
      assert CanSend(c, k) && forall i | 0 <= i < |more| :: more[i] == ks[i + 1];
      PacketStep(c, s, base, k, StreamBytes(c, next, more));
      var s' := Round(c, Pft, s).st;
      PacketsDecode(c, s', next, more);
      assert Run(c, Pft, s) == Run(c, Pft, s');
      assert Heard(s.lines) + PacketLines(base, k) + StreamLines(next, more) == Heard(s.lines) + StreamLines(base, ks);
    }
  }

  /** ---- Synchronisation ---- */

  // The byte that ends the zeros is nothing in a plain trace. In a cycle-accurate one it is taken for an
  // executed instruction, which the script hears if all of the address is known already.
  lemma EndOfZeros(c: D.Config, s: D.State, rest: seq<Octet>)
    requires FlowConfig(c) && s.Synced() && s.avail == [NO_ATOMS] + rest
    ensures var r := Round(c, Pft, s);
            r.Running? && r.st.avail == rest && r.st.Synced()
            && Heard(r.st.lines)
               == Heard(s.lines)
                  + if c.cycleAccurate && s.iaddrValid == Ones(32) then [Execute(true, ToNat(s.pc), true)] else []
  {
    if c.cycleAccurate {
      CountedEnd(c, s, rest);
    } else {
      hide Dispatch, Starts, ToByte, Take;
      P.FirstByte(c, Pft, s, NO_ATOMS, rest);
      P.AtomStarts(NO_ATOMS);
      P.Handles(c, Take(s, 1), HAtom);
      assert D.AtomCount(NO_ATOMS, 5) == 0;
      StaysSynced(s, 1);
      assert Heard(s.lines) + [] == Heard(s.lines);
    }
  }

  lemma CountedEnd(c: D.Config, s: D.State, rest: seq<Octet>)
    requires FlowConfig(c) && c.cycleAccurate && s.Synced() && s.avail == [NO_ATOMS] + rest
    ensures var r := Round(c, Pft, s);
            r.Running? && r.st.avail == rest && r.st.Synced()
            && Heard(r.st.lines)
               == Heard(s.lines) + if s.iaddrValid == Ones(32) then [Execute(true, ToNat(s.pc), true)] else []
  {
    hide Round, Take, Heard, ToNat;
    assert CountHeader(Zeros(32), 0, [false, false], true) == NO_ATOMS;
    assert Zeros(32)[4..] == Zeros(28) && CountBytesOf(Zeros(32), 4, 0) == [];
    assert s.avail == [NO_ATOMS] + ([] + rest);
    P.CountedAtomRound(c, s, true, NO_COUNT, rest);
    var t := Take(s, 1);
    StaysSynced(s, 1);
    TakeKeeps(s, 1);
    var line := D.CycleCount(t.Synced(), Zeros(32));
    var u := t.(lines := s.lines + [line]);
    SilentLine(s.lines, line);
    var v := D.PrintInstruction(c, u, true);
    HeardSnoc(u.lines, v.lines[|v.lines| - 1]);
    assert v.lines == u.lines + [v.lines[|v.lines| - 1]];
  }

  // A decoder without an address is synchronised by the zeros and the byte behind, and the script hears
  // nothing of it.
  lemma ASyncDecodes(c: D.Config, s: D.State, rest: seq<Octet>) returns (s': D.State)
    requires FlowConfig(c) && s.sync == 0 && s.iaddrValid != Ones(32) && s.avail == ASyncBytes() + rest
    ensures Run(c, Pft, s) == Run(c, Pft, s') && s'.avail == rest && Heard(s'.lines) == Heard(s.lines) && s'.Synced()
  {
    hide Round, Heard;
    assert ASyncBytes() + rest == seq(5, i => Zeros(8)) + ([NO_ATOMS] + rest);
    var t := FiveZeros(c, Pft, s, [NO_ATOMS] + rest);
    EndOfZeros(c, t, rest);
    s' := Round(c, Pft, t).st;
    assert Heard(s.lines) + [] == Heard(s.lines);
    assert Run(c, Pft, t) == Run(c, Pft, s');
  }

  // The five zero bytes may lie apart: here with an atom byte between the first and the second.
  lemma ScatteredZeros(c: D.Config, s: D.State, rest: seq<Octet>)
    requires FlowConfig(c) && !c.cycleAccurate && s.sync == 0
    requires s.avail == [Zeros(8), NO_ATOMS, Zeros(8), Zeros(8), Zeros(8), Zeros(8)] + rest
    ensures var r := Rounds(c, Pft, s, 6);
            r.Running? && r.st.Synced() && r.st.avail == rest && r.st.lines == s.lines
  {
    hide Round, D.Get;
    var z := Zeros(8);
    assert s.avail == [z] + ([NO_ATOMS] + ([z] + ([z] + ([z] + ([z] + rest)))));
    ZeroStep(c, Pft, s, [NO_ATOMS] + ([z] + ([z] + ([z] + ([z] + rest)))));
    var s1 := D.Get(s).st;
    NoAtomStep(c, s1, [z] + ([z] + ([z] + ([z] + rest))));
    var s2 := Round(c, Pft, s1).st;
    ZeroStep(c, Pft, s2, [z] + ([z] + ([z] + rest)));
    var s3 := D.Get(s2).st;
    ZeroStep(c, Pft, s3, [z] + ([z] + rest));
    var s4 := D.Get(s3).st;
    ZeroStep(c, Pft, s4, [z] + rest);
    var s5 := D.Get(s4).st;
    ZeroStep(c, Pft, s5, rest);
    var s6 := D.Get(s5).st;
    assert Rounds(c, Pft, s, 1) == D.Running(s1);
    assert Rounds(c, Pft, s, 2) == D.Running(s2);
    assert Rounds(c, Pft, s, 3) == D.Running(s3);
    assert Rounds(c, Pft, s, 4) == D.Running(s4);
    assert Rounds(c, Pft, s, 5) == D.Running(s5);
    assert Rounds(c, Pft, s, 6) == D.Running(s6);
  }

  lemma NoAtomStep(c: D.Config, s: D.State, rest: seq<Octet>)
    requires !c.cycleAccurate && s.avail == [NO_ATOMS] + rest
    ensures var r := Round(c, Pft, s);
            r.Running? && r.st.avail == rest && r.st.lines == s.lines && r.st.sync == s.sync
  {
    hide Dispatch, Starts, ToByte;
    P.FirstByte(c, Pft, s, NO_ATOMS, rest);
    P.AtomStarts(NO_ATOMS);
    P.Handles(c, Take(s, 1), HAtom);
    assert D.AtomCount(NO_ATOMS, 5) == 0;
    P.OneByte(s);
  }

  // A decoder started on the bytes a tracer may send for an execution prints exactly the lines of its
  // trace for the script.
  lemma WholeTraceDecodes(c: D.Config, s: D.State, ks: seq<Packet>, p: Program, depth: nat, steps: seq<Step>, end: int)
    requires FlowConfig(c) && steps != [] && Execution(p, steps, end) && Sends(c, ks, p, depth, steps, end)
    requires s.avail == WholeBytesOf(c, ks) && s.sync == 0 && s.iaddrValid != Ones(32) && s.lines == []
    ensures Heard(Run(c, Pft, s).lines) == WholeTrace(p, depth, steps, end)
  {
    hide Round, Heard, InStep, ASyncBytes, StreamBytes, PacketBytes, StreamLines, Trace, TracePackets, Bare, P.Bytes, Wire;
    var a, first, more := steps[0].addr, ks[0], ks[1..];
    StreamStarts(c, ks);
    var body := StreamBytes(c, a, more);
    var s1 := ASyncDecodes(c, s, PacketBytes(c, 0, first) + body);
    FirstSync(c, s1, first, body);
    var s2 := Round(c, Pft, s1).st;
    PacketsDecode(c, s2, a, more);
    BareSame(a, more);
    TraceLinesSame(p, Tracer(a, [], depth), steps, end);
    NothingHeard();
    assert [] + [ISyncLine(a)] + Trace(p, Tracer(a, [], depth), steps, end) == WholeTrace(p, depth, steps, end);
    assert Run(c, Pft, s1) == Run(c, Pft, s2);
  }

  // The first I-sync, which brings the decoder in step.
  lemma FirstSync(c: D.Config, s: D.State, k: Packet, rest: seq<Octet>)
    requires FlowConfig(c) && k.Sync? && CanSend(c, k) && s.Synced() && s.avail == PacketBytes(c, 0, k) + rest
    ensures var r := Round(c, Pft, s);
            r.Running? && r.st.avail == rest && InStep(r.st, k.addr, k.addr)
                && Heard(r.st.lines) == Heard(s.lines) + [ISyncLine(k.addr)]
  {
    hide Round, Heard, InStep, P.After, P.Bytes;
    P.PacketRound(c, Pft, s, Wire(c, 0, k), rest);
    SyncAdvances(c, s, 0, k);
  }

  lemma NothingHeard()
    ensures Heard([]) == []
  {}

  lemma StreamStarts(c: D.Config, ks: seq<Packet>)
    requires FlowConfig(c) && AllCanSend(c, ks) && ks != [] && ks[0].Sync?
    ensures CanSend(c, ks[0]) && AllCanSend(c, ks[1..])
    ensures StreamBytes(c, 0, ks) == PacketBytes(c, 0, ks[0]) + StreamBytes(c, ks[0].addr, ks[1..])
  {
    hide PacketBytes;
    assert CanSend(c, ks[0]);
    assert forall i | 0 <= i < |ks[1..]| :: ks[1..][i] == ks[i + 1];
  }

  /** ---- The tools in a row ---- */

  // What the script prints for the bytes of a trace: the executed path if and only if every return left
  // out of the trace goes back to the last call the script has not matched.
  lemma DecodedPath(c: D.Config, s: D.State, ks: seq<Packet>, p: Program, depth: nat, steps: seq<Step>, end: int)
    requires FlowConfig(c) && steps != [] && Execution(p, steps, end) && Sends(c, ks, p, depth, steps, end)
    requires s.avail == WholeBytesOf(c, ks) && s.sync == 0 && s.iaddrValid != Ones(32) && s.lines == []
    ensures forall i | 0 <= i < |steps| :: steps[i].addr in p
    ensures Process(p, START, ParseAll(Run(c, Pft, s).lines)).out == Expected(p, steps)
            <==> ReturnsMatch(p, Tracer(steps[0].addr, [], depth), [], steps, end)
  {
    hide Run, ParseAll, Heard, Process, ReturnsMatch, WholeBytesOf, Sends;
    WholeTraceDecodes(c, s, ks, p, depth, steps, end);
    ProcessHeard(p, START, Run(c, Pft, s).lines);
    PathRebuilt(p, depth, steps, end);
  }

  // The whole way: the trace bytes of one execution, packed into formatter frames together with any
  // bytes of sources outside the mask, decoded and rebuilt, are the executed instructions under the same
  // condition, and always if calls are taken and returns go on.
  method DecodeAndRebuild(c: D.Config, mask: Word, items: seq<Tagged>, p: Program,
                          ghost ks: seq<Packet>, ghost depth: nat, ghost steps: seq<Step>, ghost end: int)
    returns (out: seq<Out>)
    requires FlowConfig(c) && steps != [] && Execution(p, steps, end) && Sends(c, ks, p, depth, steps, end)
    requires IdsFit(items) && !Matches(mask, 0) && Pick(items, mask) == WholeBytesOf(c, ks)
    ensures forall i | 0 <= i < |steps| :: steps[i].addr in p
    ensures out == Expected(p, steps) <==> ReturnsMatch(p, Tracer(steps[0].addr, [], depth), [], steps, end)
    ensures CallsTaken(p, steps) && ReturnsGoOn(p, steps) ==> out == Expected(p, steps)
  {
    hide Run, ParseAll, Process, ReturnsMatch, WholeBytesOf, Pick, Tag, StreamSymbols, Pack, D.SyncCounts, Sends,
         CallsTaken, ReturnsGoOn;
    ReadBack(items, mask);
    var decoder := new EtmDecoder.Decoder(c, Pft, true, mask, Pack(items, 0));
    ghost var s := decoder.Snapshot();
    decoder.Decode();
    NoAddress();
    DecodedPath(c, s, ks, p, depth, steps, end);
    if CallsTaken(p, steps) && ReturnsGoOn(p, steps) {
      TakenCallsMatch(p, Tracer(steps[0].addr, [], depth), [], steps, end);
    }
    var script := new Rebuilder(p);
    script.Rebuild(ParseAll(decoder.lines));
    out := script.out;
  }

  lemma NoAddress()
    ensures Zeros(32) != Ones(32)
  {
    assert Ones(32)[0] != Zeros(32)[0];
  }
}
