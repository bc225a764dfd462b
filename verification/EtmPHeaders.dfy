/** P-headers as the ETMv3 protocol defines them, cycles and atoms, and how the decoder's output
    accounts for every one of them. */
module EtmPHeaders {
  import opened Octets
  import opened EtmDecode
  import opened EtmTable
  import opened EtmRun

  // A cycle without an instruction, an executed instruction, an instruction that was not executed.
  datatype Event = W | Exec | NotExec

  function AtomEvent(executed: bool): Event {
    if executed then Exec else NotExec
  }

  function Repeat(e: Event, n: nat): (r: seq<Event>)
    ensures |r| == n
  {
    seq(n, i => e)
  }

  // n times a wait followed by an instruction.
  function WaitedAtoms(e: Event, n: nat): seq<Event> {
    if n == 0 then [] else [W, e] + WaitedAtoms(e, n - 1)
  }

  // Headers the cycle-accurate protocol knows, and what they stand for (section 7.4 of Arm IHI 0014).
  predicate IsCycleAccurate(h: Octet) {
    h[7] && !h[0]
    && if h[1] then !h[6] && !h[5] && (h[4] ==> !h[3]) else true
  }

  function Meaning(h: Octet): seq<Event>
    requires IsCycleAccurate(h)
  {
    if h[1] then
      if h[4] then [AtomEvent(!h[2])]                                 // format 4
      else [W, AtomEvent(!h[3]), AtomEvent(!h[2])]                    // format 2
    else if !h[5] then
      if !h[6] && ToNat(h[2..5]) == 0 then [W]                         // format 0
      else WaitedAtoms(Exec, ToNat(h[2..5])) + (if h[6] then [W, NotExec] else [])   // format 1
    else
      Repeat(W, ToNat(h[2..5]) + 1) + (if h[6] then [Exec] else [])   // format 3
  }

  /** ---- Printing events ---- */

  // The decoder on one event, and on the events of a header.
  function PrintEvent(c: Config, s: State, e: Event): State {
    if e.W? then s.(waitCount := s.waitCount + 1) else PrintInstruction(c, s, e.Exec?)
  }

  function PrintEvents(c: Config, s: State, events: seq<Event>): State
    decreases |events|
  {
    if events == [] then s else
      PrintEvents(c, PrintEvent(c, s, events[0]), events[1..])
  }

  lemma {:induction false} PrintConcat(c: Config, s: State, a: seq<Event>, b: seq<Event>)
    ensures PrintEvents(c, s, a + b) == PrintEvents(c, PrintEvents(c, s, a), b)
    decreases |a|
  {
    hide PrintInstruction;
    if a == [] {
      assert a + b == b;
    } else {
      assert (a + b)[1..] == a[1..] + b;
      PrintConcat(c, PrintEvent(c, s, a[0]), a[1..], b);
    }
  }

  lemma PrintOne(c: Config, s: State, executed: bool)
    ensures PrintEvents(c, s, [AtomEvent(executed)]) == PrintInstruction(c, s, executed)
    ensures PrintEvents(c, s, []) == s
  {
    hide PrintInstruction;
    assert [AtomEvent(executed)][1..] == [];
  }

  lemma {:induction false} PrintWaits(c: Config, s: State, n: nat)
    ensures PrintEvents(c, s, Repeat(W, n)) == s.(waitCount := s.waitCount + n)
    decreases n
  {
    if n != 0 {
      assert Repeat(W, n)[1..] == Repeat(W, n - 1);
      PrintWaits(c, s.(waitCount := s.waitCount + 1), n - 1);
    }
  }

  lemma {:induction false} PrintWaited(c: Config, s: State, executed: bool, n: nat)
    ensures PrintEvents(c, s, WaitedAtoms(AtomEvent(executed), n)) == PrintMany(c, s, executed, n, true)
    decreases n
  {
    hide PrintInstruction, SyncCounts;
    if n != 0 {
      var e := AtomEvent(executed);
      var rest := WaitedAtoms(e, n - 1);
      assert ([W, e] + rest)[1..] == [e] + rest && ([e] + rest)[1..] == rest;
      PrintWaited(c, PrintInstruction(c, s.(waitCount := s.waitCount + 1), executed), executed, n - 1);
    }
  }

  lemma {:induction false} PrintRow(c: Config, s: State, executed: bool, n: nat)
    ensures PrintEvents(c, s, Repeat(AtomEvent(executed), n)) == PrintMany(c, s, executed, n, false)
    decreases n
  {
    hide PrintInstruction, SyncCounts;
    if n != 0 {
      assert Repeat(AtomEvent(executed), n)[1..] == Repeat(AtomEvent(executed), n - 1);
      PrintRow(c, PrintInstruction(c, s, executed), executed, n - 1);
    }
  }

  lemma PrintTwo(c: Config, s: State, first: bool, second: bool)
    ensures PrintEvents(c, s, [AtomEvent(first), AtomEvent(second)])
         == PrintInstruction(c, PrintInstruction(c, s, first), second)
  {
    hide PrintInstruction, PrintEvents;
    assert [AtomEvent(first), AtomEvent(second)] == [AtomEvent(first)] + [AtomEvent(second)];
    PrintConcat(c, s, [AtomEvent(first)], [AtomEvent(second)]);
    PrintOne(c, s, first);
    PrintOne(c, PrintInstruction(c, s, first), second);
  }

  lemma ThreeBits(d: Octet)
    ensures ToNat(d[2..5]) == 0 <==> !d[2] && !d[3] && !d[4]
  {
    var b := d[2..5];
    assert b[1..] == d[3..5] && b[1..][1..] == d[4..5] && b[1..][1..][1..] == [];
    assert ToNat(d[4..5]) == if d[4] then 1 else 0;
    assert ToNat(d[3..5]) == (if d[3] then 1 else 0) + 2 * ToNat(d[4..5]);
  }

  // A header with cycles prints exactly its events.
  lemma CycleHeaderPrints(c: Config, s: State)
    requires IsCycleAccurate(s.data)
    ensures PHeaderCycleAccurate(c, s) == PrintEvents(c, s, Meaning(s.data))
  {
    hide PHeaderCycleAccurate, Meaning;
    if s.data[1] { PairPrints(c, s); } else if s.data[5] { WaitsPrint(c, s); } else { WaitedPrint(c, s); }
  }

  lemma PairPrints(c: Config, s: State)
    requires IsCycleAccurate(s.data) && s.data[1]
    ensures PHeaderCycleAccurate(c, s) == PrintEvents(c, s, Meaning(s.data))
  {
    hide PrintInstruction, PrintMany, SyncCounts, ToNat, PrintEvents;
    var d := s.data;
    if d[4] {
      PrintOne(c, s, !d[2]);
    } else {
      var e, f := AtomEvent(!d[3]), AtomEvent(!d[2]);
      assert [W, e, f] == Repeat(W, 1) + [e, f];
      PrintConcat(c, s, Repeat(W, 1), [e, f]);
      PrintWaits(c, s, 1);
      PrintTwo(c, s.(waitCount := s.waitCount + 1), !d[3], !d[2]);
    }
  }

  lemma WaitedPrint(c: Config, s: State)
    requires IsCycleAccurate(s.data) && !s.data[1] && !s.data[5]
    ensures PHeaderCycleAccurate(c, s) == PrintEvents(c, s, Meaning(s.data))
  {
    hide PrintInstruction, PrintMany, SyncCounts, PrintEvents, ToNat;
    var d := s.data;
    ThreeBits(d);
    if !d[2] && !d[3] && !d[4] && !d[6] {
      PrintWaits(c, s, 1);
      assert Repeat(W, 1) == [W];
      assert d == [false, false, false, false, false, false, false, true];
    } else {
      var n := ToNat(d[2..5]);
      var tail := if d[6] then [W, NotExec] else [];
      PrintWaited(c, s, true, n);
      PrintWaited(c, PrintMany(c, s, true, n, true), false, if d[6] then 1 else 0);
      assert WaitedAtoms(NotExec, 1) == [W, NotExec] && WaitedAtoms(NotExec, 0) == [];
      PrintConcat(c, s, WaitedAtoms(Exec, n), tail);
    }
  }

  lemma WaitsPrint(c: Config, s: State)
    requires IsCycleAccurate(s.data) && !s.data[1] && s.data[5]
    ensures PHeaderCycleAccurate(c, s) == PrintEvents(c, s, Meaning(s.data))
  {
    hide PrintInstruction, PrintMany, SyncCounts, PrintEvents, ToNat;
    var d := s.data;
    var n := ToNat(d[2..5]) + 1;
    var tail := if d[6] then [Exec] else [];
    PrintWaits(c, s, n);
    PrintRow(c, s.(waitCount := s.waitCount + n), true, if d[6] then 1 else 0);
    assert tail == Repeat(Exec, if d[6] then 1 else 0);
    PrintConcat(c, s, Repeat(W, n), tail);
  }

  /** ---- Headers without cycles ---- */

  predicate IsNonCycleAccurate(h: Octet) {
    h[7] && !h[0] && (h[1] ==> !h[6] && !h[5] && !h[4])
  }

  // Up to fifteen executed and one not executed, or two of any kind.
  function PlainMeaning(h: Octet): seq<Event>
    requires IsNonCycleAccurate(h)
  {
    if h[1] then [AtomEvent(!h[3]), AtomEvent(!h[2])]
    else Repeat(Exec, ToNat(h[2..6])) + (if h[6] then [NotExec] else [])
  }

  // A header without cycles prints exactly its events.
  lemma PlainHeaderPrints(c: Config, s: State)
    requires IsNonCycleAccurate(s.data)
    ensures PHeaderNonCycleAccurate(c, s) == PrintEvents(c, s, PlainMeaning(s.data))
  {
    hide PrintInstruction, PrintMany, SyncCounts, ToNat, PrintEvents;
    var d := s.data;
    if d[1] {
      PrintTwo(c, s, !d[3], !d[2]);
    } else {
      var n := ToNat(d[2..6]);
      var tail := if d[6] then [NotExec] else [];
      PrintRow(c, s, true, n);
      PrintRow(c, PrintMany(c, s, true, n, false), false, if d[6] then 1 else 0);
      assert tail == Repeat(NotExec, if d[6] then 1 else 0);
      PrintConcat(c, s, Repeat(Exec, n), tail);
    }
  }

  /** ---- The account ---- */

  // The events behind a printed line: an instruction with the waits printed with it, or the waits still
  // pending when the stream ended.
  function LineEvents(line: Line): seq<Event> {
    if line.Instruction? then Repeat(W, line.waited) + [AtomEvent(line.executed)]
    else if line.FinalWait? then Repeat(W, line.waited)
    else []
  }

  function Replay(lines: seq<Line>): seq<Event> {
    if lines == [] then [] else Replay(lines[..|lines| - 1]) + LineEvents(lines[|lines| - 1])
  }

  // Everything seen so far: the events printed and the waits not printed yet.
  function Account(s: State): seq<Event> {
    Replay(s.lines) + Repeat(W, s.waitCount)
  }

  lemma ReplaySnoc(lines: seq<Line>, line: Line)
    ensures Replay(lines + [line]) == Replay(lines) + LineEvents(line)
  {
    assert (lines + [line])[..|lines|] == lines;
  }

  lemma EventAccount(c: Config, s: State, e: Event)
    ensures Account(PrintEvent(c, s, e)) == Account(s) + [e]
  {
    var t := PrintEvent(c, s, e);
    if !e.W? {
      var line := t.lines[|t.lines| - 1];
      assert t.lines == s.lines + [line];
      ReplaySnoc(s.lines, line);
    }
  }

  // Whatever events are printed, they are added to the account.
  lemma {:induction false} PrintsAccount(c: Config, s: State, events: seq<Event>)
    ensures Account(PrintEvents(c, s, events)) == Account(s) + events
    decreases |events|
  {
    hide Account, PrintEvent;
    if events == [] {
      assert Account(s) + events == Account(s);
    } else {
      EventAccount(c, s, events[0]);
      PrintsAccount(c, PrintEvent(c, s, events[0]), events[1..]);
      assert Account(s) + [events[0]] + events[1..] == Account(s) + events;
    }
  }

  // One header adds exactly its events to the account.
  lemma HeaderAccount(c: Config, s: State)
    requires IsCycleAccurate(s.data)
    ensures Account(PHeaderCycleAccurate(c, s)) == Account(s) + Meaning(s.data)
  {
    hide Account, Meaning, PHeaderCycleAccurate;
    CycleHeaderPrints(c, s);
    PrintsAccount(c, s, Meaning(s.data));
  }

  // Any other header loses synchronisation and leaves the account alone.
  lemma OtherHeadersLoseSync(c: Config, s: State)
    requires !IsCycleAccurate(s.data)
    ensures PHeaderCycleAccurate(c, s) == BadPHeader(s) && PHeaderCycleAccurate(c, s).sync == 0
    ensures Account(PHeaderCycleAccurate(c, s)) == Account(s)
  {
    ReplaySnoc(s.lines, BadHeader);
  }

  // A header without cycles adds exactly its instructions to the account.
  lemma PlainHeaderAccount(c: Config, s: State)
    requires IsNonCycleAccurate(s.data)
    ensures Account(PHeaderNonCycleAccurate(c, s)) == Account(s) + PlainMeaning(s.data)
  {
    hide Account, PlainMeaning, PHeaderNonCycleAccurate;
    PlainHeaderPrints(c, s);
    PrintsAccount(c, s, PlainMeaning(s.data));
  }

  lemma OtherPlainHeaders(c: Config, s: State)
    requires !IsNonCycleAccurate(s.data)
    ensures PHeaderNonCycleAccurate(c, s) == BadPHeader(s) && Account(BadPHeader(s)) == Account(s)
  {
    ReplaySnoc(s.lines, BadHeader);
  }

  /** ---- Streams of headers ---- */

  // The bytes the table takes for P-headers.
  predicate IsPHeader(b: Octet) {
    b[7] && !b[0]
  }

  predicate AllPHeaders(bytes: seq<Octet>) {
    forall i | 0 <= i < |bytes| :: IsPHeader(bytes[i])
  }

  // The P-headers that the protocol knows.
  predicate IsKnown(c: Config, h: Octet) {
    if c.cycleAccurate then IsCycleAccurate(h) else IsNonCycleAccurate(h)
  }

  // What a P-header stands for; one the protocol does not know stands for nothing.
  function HeaderEvents(c: Config, h: Octet): seq<Event> {
    if !IsKnown(c, h) then [] else if c.cycleAccurate then Meaning(h) else PlainMeaning(h)
  }

  // A header is its events printed, or loses synchronisation.
  lemma HeaderPrints(c: Config, s: State)
    ensures PHeader(c, s) == if IsKnown(c, s.data) then PrintEvents(c, s, HeaderEvents(c, s.data)) else BadPHeader(s)
  {
    hide PHeaderCycleAccurate, PHeaderNonCycleAccurate, Meaning, PlainMeaning, PrintEvents, Account;
    if IsKnown(c, s.data) {
      if c.cycleAccurate { CycleHeaderPrints(c, s); } else { PlainHeaderPrints(c, s); }
    } else {
      if c.cycleAccurate { OtherHeadersLoseSync(c, s); } else { OtherPlainHeaders(c, s); }
    }
  }

  function Meanings(c: Config, headers: seq<Octet>): seq<Event> {
    if headers == [] then [] else HeaderEvents(c, headers[0]) + Meanings(c, headers[1..])
  }

  lemma PHeaderAccount(c: Config, s: State)
    ensures Account(PHeader(c, s)) == Account(s) + HeaderEvents(c, s.data)
  {
    hide Account, IsKnown, PHeader, Meaning, PlainMeaning;
    HeaderPrints(c, s);
    PrintsAccount(c, s, HeaderEvents(c, s.data));
    BadAccount(s);
  }

  lemma BadAccount(s: State)
    ensures Account(BadPHeader(s)) == Account(s) == Account(s) + []
  {
    ReplaySnoc(s.lines, BadHeader);
  }

  // One round of the main loop on a P-header takes the byte and adds its events.
  lemma HeaderRound(c: Config, s: State)
    requires s.avail != [] && IsPHeader(s.avail[0])
    ensures var r, t := Round(c, Etm33, s), Get(s).st;
            r == Running(PHeader(c, t)) && t.data == s.avail[0] && r.st.avail == s.avail[1..]
            && Account(r.st) == Account(s) + HeaderEvents(c, s.avail[0])
            && t.pc == s.pc && t.mode == s.mode && t.lines == s.lines
  {
    hide HandlerOf, PHeader, Replay, HeaderEvents, SyncCounts;
    var t := Get(s).st;
    EtmPHeader(t.data);
    PHeaderAccount(c, t);
    PHeaderTakesNothing(c, t);
  }

  lemma PHeaderTakesNothing(c: Config, s: State)
    ensures PHeader(c, s).avail == s.avail
  {
    hide IsKnown, PHeader, HeaderEvents, PrintEvents;
    HeaderPrints(c, s);
    PrintsTakeNothing(c, s, HeaderEvents(c, s.data));
  }

  lemma {:induction false} PrintsTakeNothing(c: Config, s: State, events: seq<Event>)
    ensures PrintEvents(c, s, events).avail == s.avail
    decreases |events|
  {
    if events != [] { PrintsTakeNothing(c, PrintEvent(c, s, events[0]), events[1..]); }
  }

  // At the end of the stream the pending waits are printed.
  lemma EndRound(c: Config, s: State)
    requires s.avail == []
    ensures Run(c, Etm33, s) == Get(s).st && Replay(Get(s).st.lines) == Account(s)
    ensures Get(s).st.pc == s.pc && Get(s).st.mode == s.mode
    ensures PrintedInstructions(Get(s).st.lines) == PrintedInstructions(s.lines)
  {
    if s.waitCount != 0 {
      ReplaySnoc(s.lines, FinalWait(s.waitCount));
      assert (s.lines + [FinalWait(s.waitCount)])[..|s.lines|] == s.lines;
    } else {
      assert Account(s) == Replay(s.lines);
    }
  }

  // The main loop on any stream of P-headers, with or without cycles, prints exactly the events of the
  // headers behind those it had, in order: no cycle and no atom is lost, doubled or moved, and what is
  // pending at the end of the stream comes out then.
  lemma {:induction false} RunAccount(c: Config, s: State)
    requires AllPHeaders(s.avail)
    ensures Replay(Run(c, Etm33, s).lines) == Account(s) + Meanings(c, s.avail)
    decreases |s.avail|
  {
    hide Round, Account, Replay, HeaderEvents, PHeader, Get;
    if s.avail == [] {
      EndRound(c, s);
      assert Account(s) + Meanings(c, s.avail) == Account(s);
    } else {
      HeaderRound(c, s);
      var t := Round(c, Etm33, s).st;
      assert forall i | 0 <= i < |t.avail| :: t.avail[i] == s.avail[i + 1];
      RunAccount(c, t);
      assert Account(s) + HeaderEvents(c, s.avail[0]) + Meanings(c, t.avail) == Account(s) + Meanings(c, s.avail);
    }
  }

  function Count(events: seq<Event>, waits: bool): nat {
    if events == [] then 0 else Count(events[..|events| - 1], waits) + (if events[|events| - 1].W? == waits then 1 else 0)
  }

  lemma {:induction false} CountConcat(a: seq<Event>, b: seq<Event>, waits: bool)
    ensures Count(a + b, waits) == Count(a, waits) + Count(b, waits)
    decreases |b|
  {
    if b == [] {
      assert a + b == a;
    } else {
      assert (a + b)[..|a + b| - 1] == a + b[..|b| - 1];
      CountConcat(a, b[..|b| - 1], waits);
    }
  }

  lemma {:induction false} CountRepeat(n: nat)
    ensures Count(Repeat(W, n), true) == n && Count(Repeat(W, n), false) == 0
  {
    if n != 0 {
      assert Repeat(W, n)[..n - 1] == Repeat(W, n - 1);
      CountRepeat(n - 1);
    }
  }

  // The waits printed, with instructions or at the end.
  function PrintedWaits(lines: seq<Line>): nat {
    if lines == [] then 0 else
      var last := lines[|lines| - 1];
      PrintedWaits(lines[..|lines| - 1]) + (if last.Instruction? || last.FinalWait? then last.waited else 0)
  }

  function PrintedInstructions(lines: seq<Line>): nat {
    if lines == [] then 0 else
      PrintedInstructions(lines[..|lines| - 1]) + (if lines[|lines| - 1].Instruction? then 1 else 0)
  }

  lemma {:induction false} ReplayCounts(lines: seq<Line>)
    ensures Count(Replay(lines), true) == PrintedWaits(lines) && Count(Replay(lines), false) == PrintedInstructions(lines)
  {
    hide LineEvents;
    if lines != [] {
      var before, last := lines[..|lines| - 1], lines[|lines| - 1];
      ReplayCounts(before);
      LineCounts(last);
      CountConcat(Replay(before), LineEvents(last), true);
      CountConcat(Replay(before), LineEvents(last), false);
    }
  }

  lemma LineCounts(line: Line)
    ensures Count(LineEvents(line), true) == if line.Instruction? || line.FinalWait? then line.waited else 0
    ensures Count(LineEvents(line), false) == if line.Instruction? then 1 else 0
  {
    if line.Instruction? {
      var e := AtomEvent(line.executed);
      assert [e][..0] == [];
      assert Count([e], true) == 0 && Count([e], false) == 1;
      CountRepeat(line.waited);
      CountConcat(Repeat(W, line.waited), [e], true);
      CountConcat(Repeat(W, line.waited), [e], false);
    } else if line.FinalWait? {
      CountRepeat(line.waited);
    }
  }

  // Conservation over the whole run: the waits printed, at the end those pending, too, are the W cycles
  // of the headers and those pending before, and the instructions printed are their atoms.
  lemma WaitsConserved(c: Config, s: State)
    requires AllPHeaders(s.avail)
    ensures var t := Run(c, Etm33, s);
            PrintedWaits(t.lines) == PrintedWaits(s.lines) + s.waitCount + Count(Meanings(c, s.avail), true)
            && PrintedInstructions(t.lines) == PrintedInstructions(s.lines) + Count(Meanings(c, s.avail), false)
  {
    hide Run, Account, Replay, Meanings, HeaderEvents;
    RunAccount(c, s);
    ReplayCounts(Run(c, Etm33, s).lines);
    AccountCounts(s);
    CountConcat(Account(s), Meanings(c, s.avail), true);
    CountConcat(Account(s), Meanings(c, s.avail), false);
  }

  lemma AccountCounts(s: State)
    ensures Count(Account(s), true) == PrintedWaits(s.lines) + s.waitCount
    ensures Count(Account(s), false) == PrintedInstructions(s.lines)
  {
    ReplayCounts(s.lines);
    CountRepeat(s.waitCount);
    CountConcat(Replay(s.lines), Repeat(W, s.waitCount), true);
    CountConcat(Replay(s.lines), Repeat(W, s.waitCount), false);
  }

  /** ---- The program counter without program-flow tracing ---- */

  // Each instruction printed has moved the pc on by one instruction.
  predicate PcFollows(s: State, t: State) {
    PrintedInstructions(s.lines) <= PrintedInstructions(t.lines) && t.mode == s.mode
    && t.pc == AddTo(s.pc, Pow2(s.mode.Shift()) * (PrintedInstructions(t.lines) - PrintedInstructions(s.lines)))
  }

  lemma {:induction false} FromNatWraps(a: nat, k: nat, n: nat)
    ensures FromNat(ToNat(FromNat(a, n)) + k, n) == FromNat(a + k, n)
  {
    if n != 0 {
      var low := FromNat(a, n);
      var high := ToNat(low[1..]);
      assert low[1..] == FromNat(a / 2, n - 1);
      assert ToNat(low) == a % 2 + 2 * high;
      var k' := (a % 2 + k) / 2;
      FromNatWraps(a / 2, k', n - 1);
      assert (a % 2 + 2 * high + k) / 2 == high + k';
      assert (a + k) / 2 == a / 2 + k';
      assert (a % 2 + 2 * high + k) % 2 == (a + k) % 2;
    }
  }

  lemma AddTwice(x: Word, j: nat, k: nat)
    ensures AddTo(AddTo(x, j), k) == AddTo(x, j + k)
  {
    FromNatWraps(ToNat(x) + j, k, 32);
  }

  lemma PcFollowsTrans(a: State, b: State, c: State)
    requires PcFollows(a, b) && PcFollows(b, c)
    ensures PcFollows(a, c)
  {
    var m := PrintedInstructions(b.lines) - PrintedInstructions(a.lines);
    var n := PrintedInstructions(c.lines) - PrintedInstructions(b.lines);
    var step := Pow2(a.mode.Shift());
    hide AddTo, PrintedInstructions, Pow2;
    AddTwice(a.pc, step * m, step * n);
    assert step * m + step * n == step * (m + n);
  }

  lemma PcFollowsSelf(s: State)
    ensures PcFollows(s, s)
  {
    FromNatToNat(s.pc);
  }

  lemma PrintPc(c: Config, s: State, executed: bool)
    requires !c.programFlowOnly
    ensures PcFollows(s, PrintInstruction(c, s, executed))
  {
    var t := PrintInstruction(c, s, executed);
    assert t.lines[..|t.lines| - 1] == s.lines;
  }

  lemma {:induction false} PrintsPc(c: Config, s: State, events: seq<Event>)
    requires !c.programFlowOnly
    ensures PcFollows(s, PrintEvents(c, s, events))
    decreases |events|
  {
    hide PcFollows, PrintInstruction;
    PcFollowsSelf(s);
    if events != [] {
      var t := PrintEvent(c, s, events[0]);
      if events[0].W? { SamePc(s, t); } else { PrintPc(c, s, events[0].Exec?); }
      PrintsPc(c, t, events[1..]);
      PcFollowsTrans(s, t, PrintEvents(c, t, events[1..]));
    }
  }

  lemma HeaderPc(c: Config, s: State)
    requires !c.programFlowOnly
    ensures PcFollows(s, PHeader(c, s))
  {
    hide PcFollows, IsKnown, PHeader, HeaderEvents, PrintEvents;
    HeaderPrints(c, s);
    PrintsPc(c, s, HeaderEvents(c, s.data));
    BadPc(s);
  }

  lemma SamePc(s: State, s': State)
    requires s'.pc == s.pc && s'.mode == s.mode && s'.lines == s.lines
    ensures PcFollows(s, s')
  {
    PcFollowsSelf(s);
  }

  lemma BadPc(s: State)
    ensures PcFollows(s, BadPHeader(s))
  {
    PcFollowsSelf(s);
    assert (s.lines + [BadHeader])[..|s.lines|] == s.lines;
  }

  // Over the main loop on any stream of P-headers without program-flow tracing, the pc is the one at the
  // start plus the instructions since, in the step of the instruction set and modulo 2^32.
  lemma {:induction false} RunPc(c: Config, s: State)
    requires !c.programFlowOnly && AllPHeaders(s.avail)
    ensures PcFollows(s, Run(c, Etm33, s))
    decreases |s.avail|
  {
    hide Round, PHeader, Account, HeaderEvents, Replay, Get, AddTo;
    PcFollowsSelf(s);
    if s.avail == [] {
      EndRound(c, s);
    } else {
      HeaderRound(c, s);
      var t, u := Get(s).st, Round(c, Etm33, s).st;
      assert forall i | 0 <= i < |u.avail| :: u.avail[i] == s.avail[i + 1];
      hide PcFollows;
      SamePc(s, t);
      HeaderPc(c, t);
      PcFollowsTrans(s, t, u);
      RunPc(c, u);
      PcFollowsTrans(s, u, Run(c, Etm33, u));
    }
  }
}
