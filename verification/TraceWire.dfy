/** What the two traces of ARM code have in common: addresses on the wire, the lines of the decoder as the
    script reads them, and a decoder in step with the tracer. */
module TraceWire {
  import opened Octets
  import opened WordBits
  import D = EtmDecode
  import opened EtmAddress
  import opened EtmFields
  import opened EtmTable
  import opened EtmRun
  import opened PathRebuild
  import P = EtmPackets

  /** ---- Addresses of ARM instructions ---- */

  function WordOf(a: int): Word
    requires Fits(a)
  {
    FromNat(a, 32)
  }

  lemma WordValue(a: int)
    requires Fits(a)
    ensures ToNat(WordOf(a)) == a && EtmAddress.Aligned(WordOf(a), D.Arm) && !WordOf(a)[0]
  {
    WordPowers();
    hide Pow2;
    ToNatFromNat(a, 32);
    assert FromNat(a, 32) == [a % 2 == 1] + FromNat(a / 2, 31);
    assert FromNat(a / 2, 31) == [(a / 2) % 2 == 1] + FromNat(a / 2 / 2, 30);
    assert WordOf(a)[..2] == [false, false] == Zeros(2);
  }

  // The address a, sent as short as the address last sent allows; an exception needs room for its flag.
  function TargetOf(alt: bool, base: int, a: int, exception: bool): (to: P.Target)
    requires Fits(base) && Fits(a)
    ensures P.IsTarget(to) && (exception ==> CanCarry(alt, to.n))
    ensures EtmAddress.Enough(alt, WordOf(base), D.Arm, to.address, to.mode, to.n)
  {
    WordValue(a);
    var least := if !exception then 1 else if alt then 2 else 5;
    P.Target(WordOf(a), D.Arm, EtmAddress.Shortest(alt, WordOf(base), D.Arm, WordOf(a), D.Arm, least))
  }

  /** ---- Decoded lines as the script reads them ---- */

  // A line with a question mark in front, or an atom with an uncertain address, is not recognised.
  function Parse(line: D.Line): TraceLine {
    match line
    case Instruction(synced, executed, pc, points, valid, waited) =>
      if synced && valid == Ones(32) then Execute(executed, ToNat(pc), points.Some?) else OtherLine
    case BranchTo(synced, addr, _, _, _) => if synced then BranchLine(ToNat(addr)) else OtherLine
    case ISync(synced, _, _, addr) => if synced then ISyncLine(ToNat(addr)) else OtherLine
    case _ => OtherLine
  }

  function ParseAll(lines: seq<D.Line>): (parsed: seq<TraceLine>)
    ensures |parsed| == |lines|
  {
    seq(|lines|, i requires 0 <= i < |lines| => Parse(lines[i]))
  }

  // The lines the script acts on.
  function Heard(lines: seq<D.Line>): seq<TraceLine> {
    if lines == [] then []
    else Heard(lines[..|lines| - 1]) + HeardOf(lines[|lines| - 1])
  }

  function HeardOf(line: D.Line): seq<TraceLine> {
    if Parse(line).OtherLine? then [] else [Parse(line)]
  }

  lemma HeardSnoc(lines: seq<D.Line>, line: D.Line)
    ensures Heard(lines + [line]) == Heard(lines) + HeardOf(line)
  {
    assert (lines + [line])[..|lines|] == lines;
  }

  // It makes of them what it makes of all lines.
  lemma {:induction false} ProcessHeard(p: Program, s: Script, lines: seq<D.Line>)
    ensures Process(p, s, ParseAll(lines)) == Process(p, s, Heard(lines))
    decreases |lines|
  {
    hide ProcessLine, Parse;
    if lines != [] {
      var before, last := lines[..|lines| - 1], lines[|lines| - 1];
      assert ParseAll(lines) == ParseAll(before) + [Parse(last)];
      ProcessHeard(p, s, before);
      ProcessConcat(p, s, ParseAll(before), [Parse(last)]);
      ProcessConcat(p, s, Heard(before), HeardOf(last));
      OtherLineIgnored(p, Process(p, s, Heard(before)));
      if Parse(last).OtherLine? { assert Heard(before) + [] == Heard(before); }
    }
  }

  lemma OtherLineIgnored(p: Program, s: Script)
    ensures Process(p, s, [OtherLine]) == s
  {
    assert [OtherLine][1..] == [];
  }

  /** ---- In step ---- */

  // The decoder is in step with the tracer: synchronised, in ARM state, at the pc, and with the address
  // last sent.
  predicate InStep(s: D.State, base: int, pc: int) {
    Fits(base) && Fits(pc) && s.Synced() && s.iaddrValid == Ones(32) && s.mode.Arm?
    && s.iaddr == WordOf(base) && s.pc == WordOf(pc)
  }

  lemma InStepFacts(s: D.State, base: int, pc: int)
    requires InStep(s, base, pc)
    ensures s.Synced() && s.mode.Arm? && s.iaddr == WordOf(base)
  {}

  // Bytes do not disturb a synchronised decoder.
  lemma {:induction false} StaysSynced(s: D.State, n: nat)
    requires n <= |s.avail| && s.Synced()
    ensures P.SyncedAfter(s, n) && Take(s, n).sync == s.sync
    decreases n
  {
    if n != 0 { StaysSynced(D.Get(s).st, n - 1); }
  }

  lemma StreamInStep(s: D.State, n: nat, base: int, pc: int)
    requires n <= |s.avail| && InStep(s, base, pc)
    ensures InStep(Take(s, n), base, pc) && Take(s, n).lines == s.lines
  {
    hide Take, D.SyncCounts;
    StaysSynced(s, n);
    TakeKeeps(s, n);
  }

  // The pc behind an instruction.
  function NextPc(c: D.Config, pc: int): int {
    if c.programFlowOnly then pc else if pc + 4 == 0x1_0000_0000 then 0 else pc + 4
  }

  lemma {:induction false} PowerIsNothing(n: nat)
    ensures FromNat(Pow2(n), n) == FromNat(0, n)
  {
    if n != 0 { PowerIsNothing(n - 1); }
  }

  lemma WordGoesRound()
    ensures FromNat(0x1_0000_0000, 32) == FromNat(0, 32) && Pow2(2) == 4
  {
    WordPowers();
    assert Pow2(2) == 4;
    hide Pow2, FromNat;
    PowerIsNothing(32);
  }

  // One instruction on, from the last address to the first.
  lemma NextWord(pc: int)
    requires Fits(pc)
    ensures var next := if pc + 4 == 0x1_0000_0000 then 0 else pc + 4;
            Fits(next) && Pow2(2) == 4 && D.AddTo(WordOf(pc), 4) == WordOf(next)
  {
    hide Pow2, FromNat, ToNat;
    WordGoesRound();
    WordValue(pc);
    FourOn(pc);
  }

  lemma FourOn(pc: int)
    requires Fits(pc)
    ensures pc + 4 == 0x1_0000_0000 || Fits(pc + 4)
  {}

  // One more instruction line.
  lemma PrintInStep(c: D.Config, s: D.State, base: int, pc: int, executed: bool)
    requires InStep(s, base, pc)
    ensures var u := D.PrintInstruction(c, s, executed);
            InStep(u, base, NextPc(c, pc)) && u.avail == s.avail
            && Heard(u.lines) == Heard(s.lines) + [Execute(executed, pc, c.programFlowOnly)]
  {
    hide D.SyncCounts, ToNat, FromNat, Heard, D.ZeroBytes, D.AddTo, Pow2;
    var u := D.PrintInstruction(c, s, executed);
    HeardSnoc(s.lines, u.lines[|u.lines| - 1]);
    WordValue(pc);
    NextWord(pc);
  }

  // A line the script ignores.
  lemma SilentLine(lines: seq<D.Line>, line: D.Line)
    requires line.CycleCount? || line.FinalWait?
    ensures Heard(lines + [line]) == Heard(lines)
  {
    hide Heard, ToNat;
    HeardSnoc(lines, line);
    assert HeardOf(line) == [] && Heard(lines) + [] == Heard(lines);
  }

  // An address packet of the decoder in step, known in all bits as before.
  lemma ArrivedInStep(c: D.Config, s: D.State, base: int, pc: int, a: int, n: nat, exception: bool)
    requires InStep(s, base, pc) && Fits(a) && 1 <= n <= 5
    ensures var r := Arrived(c, s, WordOf(a), D.Arm, n, exception);
            InStep(r, a, a)
            && Heard(r.lines)
               == Heard(s.lines) + (if !exception && c.programFlowOnly then [Execute(true, pc, true)] else [])
  {
    hide D.SyncCounts, ToNat, Heard, D.PrintInstruction, KnownBits, Shl, WordOf;
    OnesAreTop(Shl(KnownBits(c.altBranch, n), 3));
    PrintInStep(c, s, base, pc, true);
    assert Heard(s.lines) + [] == Heard(s.lines);
  }

  // What a branch makes the script hear: the atom it implies in program-flow trace without an exception,
  // and the address.
  function BranchHeard(c: D.Config, pc: int, a: int, exception: bool): seq<TraceLine> {
    (if !exception && c.programFlowOnly then [Execute(true, pc, true)] else []) + [BranchLine(a)]
  }

  lemma BranchInStep(c: D.Config, p: Protocol, s: D.State, base: int, pc: int, a: int, exception: seq<Octet>,
                     count: P.Count, n: nat)
    requires InStep(s, base, pc) && Fits(a)
    requires var to := TargetOf(c.altBranch, base, a, exception != []); to.n + |exception| <= n <= |s.avail|
    ensures var to := TargetOf(c.altBranch, base, a, exception != []);
            var r := P.Counting(c, p, s, P.Branched(c, s, to, exception), n, count);
            InStep(r, a, a) && Heard(r.lines) == Heard(s.lines) + BranchHeard(c, pc, a, exception != [])
  {
    hide D.SyncCounts, ToNat, Heard, Take, Arrived, WordOf, P.ExceptionValue;
    var to := TargetOf(c.altBranch, base, a, exception != []);
    StreamInStep(s, to.n, base, pc);
    var r := Arrived(c, Take(s, to.n), WordOf(a), D.Arm, to.n, exception != []);
    ArrivedInStep(c, Take(s, to.n), base, pc, a, to.n, exception != []);
    StaysSynced(s, to.n + |exception|);
    StaysSynced(s, n);
    WordValue(a);
    var m := to.n + |exception|;
    var line := P.BranchLine(s, m, to, exception, r);
    HeardSnoc(r.lines, line);
    SilentLine(r.lines + [line], D.CycleCount(P.SyncedAfter(s, n), count.value));
    assert r.lines + [line] + [] == r.lines + [line];
  }

  // An I-sync sets address and instruction set, whatever was before.
  lemma SyncInStep(s: D.State, a: int, ib: Octet, context: Word, cycles: D.Option<P.Count>, m: nat, n: nat)
    requires s.Synced() && Fits(a) && m <= n <= |s.avail|
    ensures var lines := s.lines + P.CyclesLine(s, cycles, m) + [D.ISync(P.SyncedAfter(s, n), context, ib, WordOf(a))];
            var r := P.AtAddress(Take(s, n), WordOf(a), D.Arm).(lines := lines);
            InStep(r, a, a) && Heard(r.lines) == Heard(s.lines) + [ISyncLine(a)]
  {
    hide D.SyncCounts, ToNat, Heard, Take, WordOf;
    StaysSynced(s, n);
    WordValue(a);
    var counts := P.CyclesLine(s, cycles, m);
    HeardSnoc(s.lines + counts, D.ISync(P.SyncedAfter(s, n), context, ib, WordOf(a)));
    if cycles.Some? { SilentLine(s.lines, counts[0]); } else { assert s.lines + [] == s.lines; }
  }

  // At the end of the stream the script hears nothing more.
  lemma StreamDone(c: D.Config, p: Protocol, s: D.State)
    requires s.avail == []
    ensures Heard(Run(c, p, s).lines) == Heard(s.lines)
  {
    hide Heard;
    P.EndOfStream(c, p, s);
    SilentLine(s.lines, D.FinalWait(s.waitCount));
  }

  /** ---- Synchronisation ---- */

  // A program-flow header of no atoms, an ETMv3 header of one wait or of nothing.
  const NO_ATOMS: Octet := [false, false, false, false, false, false, false, true]

  // Five zero bytes and a byte that ends them.
  function ASyncBytes(): seq<Octet> {
    seq(5, i => Zeros(8)) + [NO_ATOMS]
  }

  lemma ZeroStep(c: D.Config, p: Protocol, s: D.State, rest: seq<Octet>)
    requires s.avail == [Zeros(8)] + rest && -4 <= s.sync <= 0
    ensures Round(c, p, s) == D.Get(s)
    ensures var t := D.Get(s).st;
            t.avail == rest && t.lines == s.lines && t.iaddrValid == s.iaddrValid
            && t.sync == if s.sync == -4 then 1 else s.sync - 1
  {
    hide Round, Header;
    ZeroHeader();
    P.AsyncRound(c, p, s, 0x00, rest);
    P.OneByte(s);
  }

  lemma ZeroHeader()
    ensures Header(0x00) == Zeros(8)
  {}

  // Five zero bytes synchronise the decoder.
  lemma FiveZeros(c: D.Config, p: Protocol, s: D.State, rest: seq<Octet>) returns (t: D.State)
    requires s.sync == 0 && s.avail == seq(5, i => Zeros(8)) + rest
    ensures Run(c, p, s) == Run(c, p, t) && t.avail == rest && t.lines == s.lines && t.iaddrValid == s.iaddrValid
            && t.Synced()
  {
    hide Round, D.Get;
    t := s;
    for n := 0 to 5
      invariant Run(c, p, s) == Run(c, p, t) && t.avail == seq(5 - n, i => Zeros(8)) + rest
      invariant t.lines == s.lines && t.iaddrValid == s.iaddrValid && t.sync == if n == 5 then 1 else -n
    {
      var more := seq(4 - n, i => Zeros(8)) + rest;
      assert t.avail == [Zeros(8)] + more;
      ZeroStep(c, p, t, more);
      assert Run(c, p, t) == Run(c, p, D.Get(t).st);
      t := D.Get(t).st;
    }
    assert seq(0, i => Zeros(8)) + rest == rest;
  }
}
