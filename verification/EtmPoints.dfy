/** The branch points of program-flow trace: the number printed with each instruction. */
module EtmPoints {
  import opened Octets
  import D = EtmDecode
  import opened EtmAddress
  import opened EtmFields
  import opened EtmTable
  import opened EtmRun
  import opened EtmPackets

  // The lines that tell an address, from which the points count anew.
  predicate TellsAddress(line: D.Line) {
    line.BranchTo? || line.Waypoint? || line.ISync?
  }

  // The instructions printed since the last address.
  function Since(lines: seq<D.Line>): nat {
    if lines == [] then 0 else
      var last := lines[|lines| - 1];
      if TellsAddress(last) then 0 else Since(lines[..|lines| - 1]) + (if last.Instruction? then 1 else 0)
  }

  // Every instruction carries their number, itself counted.
  predicate Numbered(lines: seq<D.Line>) {
    forall i | 0 <= i < |lines| && lines[i].Instruction? :: lines[i].points == D.Some(Since(lines[..i]) + 1)
  }

  predicate Counts(s: D.State) {
    Numbered(s.lines) && s.branchCount == Since(s.lines)
  }

  lemma OneLine(lines: seq<D.Line>, line: D.Line)
    requires Numbered(lines) && (line.Instruction? ==> line.points == D.Some(Since(lines) + 1))
    ensures Numbered(lines + [line])
    ensures Since(lines + [line]) == if TellsAddress(line) then 0 else Since(lines) + if line.Instruction? then 1 else 0
  {
    hide Since;
    var more := lines + [line];
    assert more[..|lines|] == lines;
    SinceLast(more);
    forall i | 0 <= i < |more| && more[i].Instruction?
      ensures more[i].points == D.Some(Since(more[..i]) + 1)
    {
      assert more[..i] == lines[..i];
    }
  }

  lemma SinceLast(lines: seq<D.Line>)
    requires lines != []
    ensures var last, before := lines[|lines| - 1], lines[..|lines| - 1];
            Since(lines) == if TellsAddress(last) then 0 else Since(before) + if last.Instruction? then 1 else 0
  {}

  lemma InstructionCounts(c: D.Config, s: D.State, executed: bool)
    requires c.programFlowOnly && Counts(s)
    ensures Counts(D.PrintInstruction(c, s, executed))
  {
    hide Since, Numbered, D.SyncCounts;
    var t := D.PrintInstruction(c, s, executed);
    OneLine(s.lines, t.lines[|t.lines| - 1]);
  }

  lemma {:induction false} AtomsCount(c: D.Config, s: D.State, executed: seq<bool>)
    requires c.programFlowOnly && Counts(s)
    ensures Counts(PrintAll(c, s, executed))
    decreases |executed|
  {
    hide Counts, D.PrintInstruction;
    if executed != [] {
      InstructionCounts(c, s, executed[0]);
      AtomsCount(c, D.PrintInstruction(c, s, executed[0]), executed[1..]);
    }
  }

  // A line that is neither, with or without a count behind it.
  lemma OtherLine(s: D.State, t: D.State, line: D.Line)
    requires Counts(s) && !TellsAddress(line) && !line.Instruction?
    requires t.lines == s.lines + [line] && t.branchCount == s.branchCount
    ensures Counts(t)
  {
    hide Since, Numbered;
    OneLine(s.lines, line);
  }

  lemma AddressLine(before: seq<D.Line>, t: D.State, line: D.Line)
    requires Numbered(before) && TellsAddress(line) && t.lines == before + [line] && t.branchCount == 0
    ensures Counts(t)
  {
    hide Since, Numbered;
    OneLine(before, line);
  }

  lemma CountingCounts(c: D.Config, s: D.State, u: D.State, n: nat, count: Count)
    requires n <= |s.avail| && Counts(u)
    ensures Counts(Counting(c, Pft, s, u, n, count))
  {
    hide Counts, Take;
    var t := Counting(c, Pft, s, u, n, count);
    if IsCounted(c, Pft) {
      OtherLine(u, t, t.lines[|t.lines| - 1]);
    } else {
      assert u.lines + [] == u.lines;
      SameLines(u, t);
    }
  }

  lemma SameLines(s: D.State, t: D.State)
    requires Counts(s) && t.lines == s.lines && t.branchCount == s.branchCount
    ensures Counts(t)
  {}

  lemma TakeCounts(s: D.State, n: nat)
    requires n <= |s.avail| && Counts(s)
    ensures Counts(Take(s, n)) && Take(s, n).lines == s.lines && Take(s, n).branchCount == s.branchCount
  {
    hide Counts, Take;
    TakeKeeps(s, n);
    SameLines(s, Take(s, n));
  }

  lemma ArrivedCounts(c: D.Config, t: D.State, to: Target, exception: bool)
    requires c.programFlowOnly && 1 <= to.n <= 5 && Counts(t)
    ensures var a := Arrived(c, t, to.address, to.mode, to.n, exception); Numbered(a.lines) && a.branchCount == 0
  {
    hide Since, Numbered, D.PrintInstruction;
    InstructionCounts(c, t, true);
  }

  lemma BranchCounts(c: D.Config, s: D.State, to: Target, exception: seq<Octet>)
    requires c.programFlowOnly && 1 <= to.n <= 5 && to.n + |exception| <= |s.avail| && Counts(s)
    ensures Counts(Branched(c, s, to, exception))
  {
    hide Counts, Numbered, Take, Arrived;
    TakeCounts(s, to.n);
    ArrivedCounts(c, Take(s, to.n), to, exception != []);
    var a := Arrived(c, Take(s, to.n), to.address, to.mode, to.n, exception != []);
    AddressLine(a.lines, Branched(c, s, to, exception), BranchLine(s, to.n + |exception|, to, exception, a));
  }

  lemma ISyncCounts(s: D.State, t: D.State, cycles: D.Option<Count>, m: nat, line: D.Line)
    requires Counts(s) && m <= |s.avail| && TellsAddress(line)
    requires t.lines == s.lines + CyclesLine(s, cycles, m) + [line] && t.branchCount == 0
    ensures Counts(t)
  {
    hide Since, Numbered;
    if cycles.Some? {
      OneLine(s.lines, CyclesLine(s, cycles, m)[0]);
    } else {
      assert s.lines + [] == s.lines;
    }
    AddressLine(s.lines + CyclesLine(s, cycles, m), t, line);
  }

  // Whatever the packet.
  lemma PacketCounts(c: D.Config, s: D.State, k: Packet)
    requires c.programFlowOnly && IsPacketOf(c, Pft, k) && |Bytes(c, Pft, k)| <= |s.avail| && Counts(s)
    ensures Counts(After(c, Pft, s, k))
  {
    hide Counts, Bytes, Take, PrintAll, D.PrintInstruction, Counting, Branched, Arrived, CyclesLine;
    var t, r := Take(s, |Bytes(c, Pft, k)|), After(c, Pft, s, k);
    TakeCounts(s, |Bytes(c, Pft, k)|);
    match k
    case ASync => assert r == t;
    case Ignore => assert r == t;
    case Atoms(executed) => AtomsCount(c, t, executed);
    case Branch(_, _, _) => BranchPacket(c, s, k);
    case Waypoint(_, _) => WaypointPacket(c, s, k);
    case Timestamp(_, _, _, _) => TimestampPacket(c, s, k);
    case ISync(_, _, _, _, _) => ISyncPacket(c, s, k);
    case CountedAtom(taken, count) =>
      var u := t.(lines := s.lines + [D.CycleCount(SyncedAfter(s, |Bytes(c, Pft, k)|), count.value)]);
      OtherLine(s, u, u.lines[|u.lines| - 1]);
      InstructionCounts(c, u, taken);
    case Trigger => OtherLine(s, r, r.lines[|r.lines| - 1]);
    case ExceptionReturn => OtherLine(s, r, r.lines[|r.lines| - 1]);
    case ContextId(_) => OtherLine(s, r, r.lines[|r.lines| - 1]);
    case Vmid(_) => OtherLine(s, r, r.lines[|r.lines| - 1]);
    case Undecoded(_) => OtherLine(s, r, r.lines[|r.lines| - 1]);
    case _ =>
  }

  lemma BranchPacket(c: D.Config, s: D.State, k: Packet)
    requires k.Branch? && c.programFlowOnly && IsPacketOf(c, Pft, k) && |Bytes(c, Pft, k)| <= |s.avail| && Counts(s)
    ensures Counts(After(c, Pft, s, k))
  {
    hide Counts, Take, Counting, Branched, Encode;
    BranchCounts(c, s, k.to, k.exception);
    CountingCounts(c, s, Branched(c, s, k.to, k.exception), |Bytes(c, Pft, k)|, k.count);
  }

  lemma TimestampPacket(c: D.Config, s: D.State, k: Packet)
    requires k.Timestamp? && c.programFlowOnly && IsPacketOf(c, Pft, k) && |Bytes(c, Pft, k)| <= |s.avail| && Counts(s)
    ensures Counts(After(c, Pft, s, k))
  {
    hide Counts, Take, Counting, TimestampBytesOf;
    TakeCounts(s, 1 + k.n);
    var u := TimeTaken(s, k.time, k.n);
    OtherLine(s, u, u.lines[|u.lines| - 1]);
    CountingCounts(c, s, u, |Bytes(c, Pft, k)|, k.count);
  }

  lemma WaypointPacket(c: D.Config, s: D.State, k: Packet)
    requires k.Waypoint? && c.programFlowOnly && IsPacketOf(c, Pft, k) && |Bytes(c, Pft, k)| <= |s.avail| && Counts(s)
    ensures Counts(After(c, Pft, s, k))
  {
    hide Counts, Numbered, Take, Arrived, Encode;
    TakeCounts(s, 1 + k.to.n);
    ArrivedCounts(c, Take(s, 1 + k.to.n), k.to, k.info.Some?);
    var r := After(c, Pft, s, k);
    var a := Arrived(c, Take(s, 1 + k.to.n), k.to.address, k.to.mode, k.to.n, k.info.Some?);
    AddressLine(a.lines, r, r.lines[|r.lines| - 1]);
  }

  lemma ISyncPacket(c: D.Config, s: D.State, k: Packet)
    requires k.ISync? && c.programFlowOnly && IsPacketOf(c, Pft, k) && |Bytes(c, Pft, k)| <= |s.avail| && Counts(s)
    ensures Counts(After(c, Pft, s, k))
  {
    hide Counts, Take, BytesOf, PftCount, CyclesLine;
    var r := After(c, Pft, s, k);
    ISyncCounts(s, r, k.cycles, 6 + if k.cycles.None? then 0 else 1 + k.cycles.value.n, r.lines[|r.lines| - 1]);
  }

  // Over any stream of program-flow packets every instruction is printed with the number of branch points
  // since the last address.
  lemma {:induction false} StreamCounts(c: D.Config, s: D.State, ks: seq<Packet>)
    requires c.programFlowOnly && Carries(c, Pft, s, ks) && Counts(s)
    ensures Counts(AfterAll(c, Pft, s, ks)) && Numbered(Run(c, Pft, s).lines)
    decreases |ks|
  {
    hide Counts, Numbered, After, Bytes, IsPacketOf, Run;
    StreamRun(c, Pft, s, ks);
    if ks == [] {
      LastLine(s);
    } else {
      PacketCounts(c, s, ks[0]);
      StreamCounts(c, After(c, Pft, s, ks[0]), ks[1..]);
      LastLine(AfterAll(c, Pft, s, ks));
    }
  }

  lemma LastLine(t: D.State)
    requires Counts(t)
    ensures Numbered(t.lines) && Numbered(t.lines + [D.FinalWait(t.waitCount)])
  {
    OneLine(t.lines, D.FinalWait(t.waitCount));
  }
}
