/** The script that rebuilds the executed path from decoded trace lines: an address offset, a pending
    branch target and a return stack. */
module PathRebuild {
  import opened EtmDecode

  // An instruction as the disassembly shows it; a branch to a register has no target.
  datatype Instr = Plain | Branch(link: bool, target: Option<int>)

  type Program = map<int, Instr>

  // The addresses of ARM instructions.
  predicate Fits(a: int) {
    0 <= a < 0x1_0000_0000 && a % 4 == 0
  }

  predicate InMemory(p: Program) {
    forall a | a in p :: Fits(a)
  }

  // A line of the decoder as the script takes it apart. points tells whether the decoder counts
  // branch points, that is, whether an atom stands for all instructions up to the next branch.
  datatype TraceLine =
    | Execute(executed: bool, guessed: int, points: bool)
    | BranchLine(addr: int)
    | ISyncLine(addr: int)
    | OtherLine

  // What the script prints: an instruction it stepped over, one with its own atom, or an unknown one.
  datatype Out = Stepped(addr: int) | Atom(executed: bool, addr: int) | Unknown(executed: bool, guessed: int)

  datatype Script = Script(offset: int, target: Option<int>, need: bool, stack: seq<int>, out: seq<Out>)

  const START: Script := Script(0, None, false, [], [])

  /** ---- Stepping through plain instructions ---- */

  datatype Walked = Walked(plain: seq<int>, end: int)

  function AddressesFrom(p: Program, a: int): set<int> {
    set k | k in p.Keys && a <= k
  }

  lemma LaterAddresses(p: Program, a: int)
    requires a in p
    ensures AddressesFrom(p, a + 4) < AddressesFrom(p, a)
  {
    assert a in AddressesFrom(p, a);
  }

  // From a through plain instructions to the first address that holds a branch or nothing.
  function Walk(p: Program, a: int): Walked
    decreases AddressesFrom(p, a)
  {
    if a in p && p[a].Plain? then
      LaterAddresses(p, a);
      var w := Walk(p, a + 4);
      Walked([a] + w.plain, w.end)
    else
      Walked([], a)
  }

  function StepsOver(plain: seq<int>): (out: seq<Out>)
    ensures |out| == |plain|
  {
    seq(|plain|, i requires 0 <= i < |plain| => Stepped(plain[i]))
  }

  /** ---- One line ---- */

  // The offset for the next atom: a known target comes first, then the return stack.
  function Resolve(s: Script, guessed: int): Script {
    if s.target.Some? then s.(offset := s.target.value - guessed, target := None, need := false)
    else if s.need && s.stack != [] then
      s.(offset := s.stack[|s.stack| - 1] - guessed, stack := s.stack[..|s.stack| - 1], need := false)
    else s.(need := false)
  }

  // The atom itself, at the adjusted address.
  function Arrive(p: Program, s: Script, executed: bool, adjusted: int): Script
    requires adjusted in p
  {
    var instr := p[adjusted];
    var s1 := if instr.Branch? && instr.link then s.(stack := s.stack + [adjusted + 4]) else s;
    var s2 := s1.(out := s1.out + [Atom(executed, adjusted)]);
    if executed && instr.Branch? then
      if instr.target.Some? then s2.(target := instr.target) else s2.(target := None, offset := 0, need := true)
    else s2
  }

  function ExecuteLine(p: Program, s: Script, executed: bool, guessed: int, points: bool): Script {
    Locate(p, Resolve(s, guessed), executed, guessed, points)
  }

  // The atom once its offset is there.
  function Locate(p: Program, r: Script, executed: bool, guessed: int, points: bool): Script {
    var known := guessed + r.offset in p || guessed in p;
    var offset := if guessed + r.offset !in p && guessed in p then 0 else r.offset;
    var start := guessed + offset;
    if known && points then
      var w := Walk(p, start);
      var r1 := r.(offset := w.end + 4 - guessed, out := r.out + StepsOver(w.plain));
      if w.end in p then Arrive(p, r1, executed, w.end) else r1.(out := r1.out + [Unknown(executed, guessed)])
    else if known then
      Arrive(p, r.(offset := offset), executed, start)
    else
      r.(out := r.out + [Unknown(executed, guessed)])
  }

  function ProcessLine(p: Program, s: Script, line: TraceLine): Script {
    match line
    case Execute(executed, guessed, points) => ExecuteLine(p, s, executed, guessed, points)
    case BranchLine(addr) => s.(target := Some(addr))
    case ISyncLine(addr) => s.(target := Some(addr), stack := [])
    case OtherLine => s
  }

  function Process(p: Program, s: Script, lines: seq<TraceLine>): Script
    decreases |lines|
  {
    if lines == [] then s else Process(p, ProcessLine(p, s, lines[0]), lines[1..])
  }

  lemma {:induction false} ProcessConcat(p: Program, s: Script, a: seq<TraceLine>, b: seq<TraceLine>)
    ensures Process(p, s, a + b) == Process(p, Process(p, s, a), b)
    decreases |a|
  {
    hide ProcessLine;
    if a == [] {
      assert a + b == b;
    } else {
      assert (a + b)[1..] == a[1..] + b;
      ProcessConcat(p, ProcessLine(p, s, a[0]), a[1..], b);
    }
  }

  // The script only ever adds to what it has printed.
  lemma {:induction false} OutputGrows(p: Program, s: Script, lines: seq<TraceLine>)
    ensures s.out <= Process(p, s, lines).out
    decreases |lines|
  {
    if lines != [] {
      OneLineGrows(p, s, lines[0]);
      hide ProcessLine;
      OutputGrows(p, ProcessLine(p, s, lines[0]), lines[1..]);
    }
  }

  lemma OneLineGrows(p: Program, s: Script, line: TraceLine)
    ensures s.out <= ProcessLine(p, s, line).out
  {
    hide Walk, Resolve;
    match line
    case Execute(executed, guessed, points) =>
      assert Resolve(s, guessed).out == s.out by { ResolveKeepsOutput(s, guessed); }
    case _ =>
  }

  lemma ResolveKeepsOutput(s: Script, guessed: int)
    ensures Resolve(s, guessed).out == s.out
  {}

  /** ---- Recovery ---- */

  // Two scripts that will go on in the same way, whatever they have printed.
  predicate Alike(s: Script, t: Script) {
    s.target == t.target && s.stack == t.stack && (s.target.Some? || (s.offset == t.offset && s.need == t.need))
  }

  function Added(before: seq<Out>, after: seq<Out>): seq<Out>
    requires before <= after
  {
    after[|before|..]
  }

  lemma LineAlike(p: Program, s: Script, t: Script, line: TraceLine)
    requires Alike(s, t)
    ensures s.out <= ProcessLine(p, s, line).out && t.out <= ProcessLine(p, t, line).out
    ensures Alike(ProcessLine(p, s, line), ProcessLine(p, t, line))
    ensures Added(s.out, ProcessLine(p, s, line).out) == Added(t.out, ProcessLine(p, t, line).out)
  {
    OneLineGrows(p, s, line);
    OneLineGrows(p, t, line);
    hide Walk, Resolve, Locate;
    match line
    case Execute(executed, guessed, points) =>
      ResolveAlike(s, t, guessed);
      LocateAlike(p, Resolve(t, guessed), s.out, executed, guessed, points);
      hide Said;
    case _ =>
  }

  // What is printed for an atom.
  function Said(p: Program, offset: int, executed: bool, guessed: int, points: bool): seq<Out> {
    var start := if guessed + offset !in p && guessed in p then guessed else guessed + offset;
    if start !in p then [Unknown(executed, guessed)]
    else if !points then [Atom(executed, start)]
    else
      var w := Walk(p, start);
      StepsOver(w.plain) + [if w.end in p then Atom(executed, w.end) else Unknown(executed, guessed)]
  }

  // It does not depend on what was printed before.
  lemma LocateAlike(p: Program, r: Script, out: seq<Out>, executed: bool, guessed: int, points: bool)
    ensures var u, v, d := Locate(p, r, executed, guessed, points), Locate(p, r.(out := out), executed, guessed, points),
                           Said(p, r.offset, executed, guessed, points);
            u.out == r.out + d && v == u.(out := out + d)
  {
    hide Walk, StepsOver, Arrive;
    var known := guessed + r.offset in p || guessed in p;
    var offset := if guessed + r.offset !in p && guessed in p then 0 else r.offset;
    if known && points {
      var w := Walk(p, guessed + offset);
      var over := StepsOver(w.plain);
      var r1 := r.(offset := w.end + 4 - guessed, out := r.out + over);
      Regroup(r.out, over, if w.end in p then Atom(executed, w.end) else Unknown(executed, guessed));
      Regroup(out, over, if w.end in p then Atom(executed, w.end) else Unknown(executed, guessed));
      if w.end in p { ArriveAlike(p, r1, out + over, executed, w.end); }
    } else if known {
      ArriveAlike(p, r.(offset := offset), out, executed, guessed + offset);
    }
  }

  lemma Regroup(a: seq<Out>, b: seq<Out>, x: Out)
    ensures a + b + [x] == a + (b + [x])
  {}

  lemma ArriveAlike(p: Program, r: Script, out: seq<Out>, executed: bool, a: int)
    requires a in p
    ensures Arrive(p, r.(out := out), executed, a) == Arrive(p, r, executed, a).(out := out + [Atom(executed, a)])
    ensures Arrive(p, r, executed, a).out == r.out + [Atom(executed, a)]
  {}

  lemma ResolveAlike(s: Script, t: Script, guessed: int)
    requires Alike(s, t)
    ensures Resolve(s, guessed) == Resolve(t, guessed).(out := s.out) && Resolve(t, guessed).out == t.out
  {}

  lemma {:induction false} StayAlike(p: Program, s: Script, t: Script, lines: seq<TraceLine>)
    requires Alike(s, t)
    ensures s.out <= Process(p, s, lines).out && t.out <= Process(p, t, lines).out
    ensures Added(s.out, Process(p, s, lines).out) == Added(t.out, Process(p, t, lines).out)
    decreases |lines|
  {
    hide ProcessLine;
    if lines != [] {
      var s', t' := ProcessLine(p, s, lines[0]), ProcessLine(p, t, lines[0]);
      LineAlike(p, s, t, lines[0]);
      StayAlike(p, s', t', lines[1..]);
      AddedTwice(s.out, s'.out, Process(p, s', lines[1..]).out);
      AddedTwice(t.out, t'.out, Process(p, t', lines[1..]).out);
    }
  }

  lemma AddedTwice(a: seq<Out>, b: seq<Out>, c: seq<Out>)
    requires a <= b <= c
    ensures Added(a, c) == Added(a, b) + Added(b, c)
  {}

  // Whatever went wrong before, from an I-sync on the script prints what it prints from its start.
  lemma SyncRecovers(p: Program, s: Script, a: int, lines: seq<TraceLine>)
    ensures Process(p, s, [ISyncLine(a)] + lines).out == s.out + Process(p, START, [ISyncLine(a)] + lines).out
  {
    hide ProcessLine;
    var all := [ISyncLine(a)] + lines;
    SyncAlike(p, s, a);
    assert all[1..] == lines;
    StayAlike(p, ProcessLine(p, s, all[0]), ProcessLine(p, START, all[0]), lines);
  }

  lemma SyncAlike(p: Program, s: Script, a: int)
    ensures var t, u := ProcessLine(p, s, ISyncLine(a)), ProcessLine(p, START, ISyncLine(a));
            Alike(t, u) && t.out == s.out && u.out == []
  {}

  // An atom, wherever it is: outside the program it is printed with the address of the decoder, and if
  // only that address is in the program, the atom is taken to be there.
  lemma AtomSays(p: Program, s: Script, executed: bool, guessed: int, points: bool)
    ensures ProcessLine(p, s, Execute(executed, guessed, points)).out
         == s.out + Said(p, Resolve(s, guessed).offset, executed, guessed, points)
  {
    hide Said, Locate, Resolve;
    ResolveKeepsOutput(s, guessed);
    LocateAlike(p, Resolve(s, guessed), [], executed, guessed, points);
  }

  /** ---- The script as it runs ---- */

  class Rebuilder {
    const program: Program
    var addrOffset: int
    var branchTarget: Option<int>
    var needBranchTarget: bool
    var returnStack: seq<int>
    var out: seq<Out>

    function Snapshot(): Script
      reads this
    {
      Script(addrOffset, branchTarget, needBranchTarget, returnStack, out)
    }

    constructor (program: Program)
      ensures this.program == program && Snapshot() == START
    {
      this.program := program;
      addrOffset, branchTarget, needBranchTarget, returnStack, out := 0, None, false, [], [];
    }

    // The offset for this atom: a known target comes first, then the return stack.
    method ResolveTarget(guessed: int)
      modifies this`addrOffset, this`branchTarget, this`needBranchTarget, this`returnStack
      ensures Snapshot() == Resolve(old(Snapshot()), guessed)
    {
      if branchTarget.Some? {
        addrOffset := branchTarget.value - guessed;
        branchTarget := None;
      } else if needBranchTarget {
        if returnStack != [] {
          addrOffset := returnStack[|returnStack| - 1] - guessed;
          returnStack := returnStack[..|returnStack| - 1];
        }
      }
      needBranchTarget := false;
    }

    // The instruction found for the atom.
    method FoundInstruction(executed: bool, adjusted: int)
      requires adjusted in program
      modifies this
      ensures Snapshot() == Arrive(program, old(Snapshot()), executed, adjusted)
    {
      var instr := program[adjusted];
      if instr.Branch? && instr.link { returnStack := returnStack + [adjusted + 4]; }
      out := out + [Atom(executed, adjusted)];
      if executed && instr.Branch? {
        branchTarget := instr.target;
        if branchTarget.None? {
          addrOffset := 0;
          needBranchTarget := true;
        }
      }
    }

    method HandleExecute(executed: bool, guessed: int, points: bool)
      modifies this
      ensures Snapshot() == ExecuteLine(program, old(Snapshot()), executed, guessed, points)
    {
      hide Walk, Resolve, Arrive;
      ResolveTarget(guessed);
      var adjusted := guessed + addrOffset;
      var known := adjusted in program;
      if !known {
        known := guessed in program;
        if known {
          addrOffset := 0;
          adjusted := guessed;
        }
      }
      if known && points {
        adjusted, known := StepThrough(guessed, adjusted);
        addrOffset := addrOffset + 4;
      }
      if !known {
        out := out + [Unknown(executed, guessed)];
      } else {
        FoundInstruction(executed, adjusted);
      }
    }

    // Steps through the plain instructions from start on, printing each.
    method StepThrough(guessed: int, start: int) returns (adjusted: int, known: bool)
      requires start in program && start == guessed + addrOffset
      modifies this`addrOffset, this`out
      ensures var w := Walk(program, start);
              adjusted == w.end == guessed + addrOffset && known == (w.end in program)
              && out == old(out) + StepsOver(w.plain)
    {
      adjusted, known := start, true;
      ghost var w := Walk(program, start);
      ghost var done: seq<int> := [];
      while known && program[adjusted].Plain?
        invariant adjusted == guessed + addrOffset && known == (adjusted in program)
        invariant out == old(out) + StepsOver(done)
        invariant w == Walked(done + Walk(program, adjusted).plain, Walk(program, adjusted).end)
        decreases AddressesFrom(program, adjusted)
      {
        LaterAddresses(program, adjusted);
        out := out + [Stepped(adjusted)];
        assert StepsOver(done + [adjusted]) == StepsOver(done) + [Stepped(adjusted)];
        done := done + [adjusted];
        addrOffset := addrOffset + 4;
        adjusted := guessed + addrOffset;
        known := adjusted in program;
      }
    }

    method Rebuild(lines: seq<TraceLine>)
      modifies this
      ensures Snapshot() == Process(program, old(Snapshot()), lines)
    {
      hide ExecuteLine;
      ghost var whole := Process(program, Snapshot(), lines);
      for i := 0 to |lines|
        invariant Process(program, Snapshot(), lines[i..]) == whole
      {
        assert lines[i..][0] == lines[i] && lines[i..][1..] == lines[i + 1..];
        match lines[i]
        case Execute(executed, guessed, points) => HandleExecute(executed, guessed, points);
        case BranchLine(addr) => branchTarget := Some(addr);
        case ISyncLine(addr) =>
          returnStack := [];
          branchTarget := Some(addr);
        case OtherLine =>
      }
    }
  }
}

/** Executions, the trace a program-flow tracer makes of them, and when the script gets them back. */
module PathCorrect {
  import opened EtmDecode
  import opened PathRebuild

  // One executed or skipped instruction. interrupt holds the address of the instruction that should have
  // come next if an exception is taken before it; resync tells that the tracer sends an I-sync after it.
  datatype Step = Step(addr: int, taken: bool, interrupt: Option<int>, resync: bool)

  // Where the instruction itself goes.
  function Goal(s: Step, next: int): int {
    if s.interrupt.Some? then s.interrupt.value else next
  }

  // Where execution goes after the first step.
  function Next(steps: seq<Step>, end: int): int
    requires steps != []
  {
    if |steps| == 1 then end else steps[1].addr
  }

  predicate Follows(p: Program, s: Step, next: int)
    requires s.addr in p
  {
    match p[s.addr]
    case Plain => !s.taken && !s.resync && s.interrupt.None? && next == s.addr + 4
    case Branch(link, target) =>
      (s.interrupt.Some? ==> s.interrupt.value in p)
      && if !s.taken then Goal(s, next) == s.addr + 4 else target.Some? ==> Goal(s, next) == target.value
  }

  // An execution of the program that ends with a branch instruction and goes on at end.
  predicate Execution(p: Program, steps: seq<Step>, end: int) {
    steps != [] ==>
      steps[0].addr in p && Follows(p, steps[0], Next(steps, end))
      && (|steps| == 1 ==> p[steps[0].addr].Branch?)
      && Execution(p, steps[1..], end)
  }

  // The instructions of an execution as the script should print them.
  function Expected(p: Program, steps: seq<Step>): (out: seq<Out>)
    requires forall i | 0 <= i < |steps| :: steps[i].addr in p
    ensures |out| == |steps|
  {
    seq(|steps|, i requires 0 <= i < |steps| =>
      if p[steps[i].addr].Plain? then Stepped(steps[i].addr) else Atom(steps[i].taken, steps[i].addr))
  }

  lemma {:induction false} ExecutionKnown(p: Program, steps: seq<Step>, end: int)
    requires Execution(p, steps, end)
    ensures forall i | 0 <= i < |steps| :: steps[i].addr in p
  {
    if steps != [] {
      ExecutionKnown(p, steps[1..], end);
      assert forall i | 0 < i < |steps| :: steps[i] == steps[1..][i - 1];
    }
  }

  /** ---- The tracer ---- */

  // The address last sent, and a return stack of bounded depth that drops its oldest entry.
  datatype Tracer = Tracer(base: int, stack: seq<int>, depth: nat) {
    function Push(a: int): Tracer {
      var s := stack + [a];
      this.(stack := if |s| > depth then s[1..] else s)
    }
  }

  // A taken return whose target is on top of the tracer's stack sends only its atom.
  predicate AtomOnlyReturn(p: Program, t: Tracer, s: Step, next: int)
    requires s.addr in p
  {
    p[s.addr].Branch? && s.taken && !p[s.addr].link && p[s.addr].target.None?
    && t.stack != [] && t.stack[|t.stack| - 1] == Goal(s, next)
  }

  // A return whose target the trace leaves out altogether.
  predicate LeavesOut(p: Program, t: Tracer, s: Step, next: int)
    requires s.addr in p
  {
    AtomOnlyReturn(p, t, s, next) && !s.resync && s.interrupt.None?
  }

  // The tracer after a branch instruction, before an exception and a resynchronisation.
  function AfterBranch(p: Program, t: Tracer, s: Step, next: int): Tracer
    requires s.addr in p && p[s.addr].Branch?
  {
    if !s.taken then t
    else if AtomOnlyReturn(p, t, s, next) then t.(stack := t.stack[..|t.stack| - 1])
    else
      var t' := if p[s.addr].link then t.Push(s.addr + 4) else t;
      if p[s.addr].target.Some? then t' else t'.(base := Goal(s, next))
  }

  function TracerAfter(p: Program, t: Tracer, s: Step, next: int): Tracer
    requires s.addr in p && p[s.addr].Branch?
  {
    var t' := AfterBranch(p, t, s, next);
    if s.resync then t'.(base := next, stack := []) else if s.interrupt.Some? then t'.(base := next) else t'
  }

  // The lines for one branch instruction: its atom, the target if it is neither in the program text
  // nor on the stack, the exception, and the I-sync.
  function LinesOf(p: Program, t: Tracer, s: Step, next: int): seq<TraceLine>
    requires s.addr in p && p[s.addr].Branch?
  {
    [Execute(s.taken, t.base, true)]
    + (if s.taken && p[s.addr].target.None? && !AtomOnlyReturn(p, t, s, next) then [BranchLine(Goal(s, next))] else [])
    + (if s.interrupt.Some? then [BranchLine(next)] else [])
    + (if s.resync then [ISyncLine(next)] else [])
  }

  function Trace(p: Program, t: Tracer, steps: seq<Step>, end: int): seq<TraceLine>
    requires Execution(p, steps, end)
    decreases |steps|
  {
    if steps == [] then []
    else if p[steps[0].addr].Plain? then Trace(p, t, steps[1..], end)
    else
      LinesOf(p, t, steps[0], Next(steps, end)) + Trace(p, TracerAfter(p, t, steps[0], Next(steps, end)), steps[1..], end)
  }

  /** ---- When the return stack of the script agrees ---- */

  // The script's stack after a branch instruction: it pushes at every call, taken or not, and does not
  // pop at a return if an exception follows, because it then knows the address.
  function StackAfter(p: Program, t: Tracer, k: seq<int>, s: Step, next: int): seq<int>
    requires s.addr in p && p[s.addr].Branch?
  {
    if s.resync then []
    else if p[s.addr].link then k + [s.addr + 4]
    else if LeavesOut(p, t, s, next) && k != [] then k[..|k| - 1]
    else k
  }

  // Whenever the trace leaves a return target out, the last call instruction the script has seen
  // and not matched yet, taken or not, is the one returned to.
  predicate ReturnsMatch(p: Program, t: Tracer, k: seq<int>, steps: seq<Step>, end: int)
    requires Execution(p, steps, end)
    decreases |steps|
  {
    steps == [] ||
    if p[steps[0].addr].Plain? then ReturnsMatch(p, t, k, steps[1..], end)
    else
      var next := Next(steps, end);
      (LeavesOut(p, t, steps[0], next) && |steps| > 1 ==> k != [] && k[|k| - 1] == next)
      && ReturnsMatch(p, TracerAfter(p, t, steps[0], next), StackAfter(p, t, k, steps[0], next), steps[1..], end)
  }

  // The script will take the next atom from address a, and then its stack is k.
  predicate Ready(s: Script, t: Tracer, a: int, k: seq<int>) {
    match s.target
    case Some(b) => b == a && k == s.stack
    case None =>
      if s.need then s.stack != [] && s.stack[|s.stack| - 1] == a && k == s.stack[..|s.stack| - 1]
      else t.base + s.offset == a && k == s.stack
  }

  lemma ReadyResolves(s: Script, t: Tracer, a: int, k: seq<int>)
    requires Ready(s, t, a, k)
    ensures Resolve(s, t.base) == Script(a - t.base, None, false, k, s.out)
  {}

  // The atom of a branch instruction at the end of a stretch of plain ones that starts at a.
  lemma AtomLine(p: Program, s: Script, t: Tracer, a: int, k: seq<int>, step: Step, pre: seq<int>)
    requires Ready(s, t, a, k) && a in p
    requires Walk(p, a) == Walked(pre, step.addr) && step.addr in p && p[step.addr].Branch?
    ensures var s' := ExecuteLine(p, s, step.taken, t.base, true);
            s'.out == s.out + StepsOver(pre) + [Atom(step.taken, step.addr)]
            && s'.stack == (if p[step.addr].link then k + [step.addr + 4] else k)
            && s'.need == (step.taken && p[step.addr].target.None?)
            && s'.target == (if step.taken then p[step.addr].target else None)
            && (!step.taken ==> s'.offset == step.addr + 4 - t.base)
  {
    ReadyResolves(s, t, a, k);
  }

  // After the lines of one branch instruction the script is ready for the next stretch, unless a
  // return was left out of the trace and the stack does not have its target on top.
  lemma BranchLines(p: Program, s: Script, t: Tracer, a: int, k: seq<int>, step: Step, next: int, pre: seq<int>)
    requires Ready(s, t, a, k) && a in p
    requires Walk(p, a) == Walked(pre, step.addr) && step.addr in p && p[step.addr].Branch? && Follows(p, step, next)
    ensures var s' := Process(p, s, LinesOf(p, t, step, next));
            s'.out == s.out + StepsOver(pre) + [Atom(step.taken, step.addr)]
            && ((!LeavesOut(p, t, step, next) || (k != [] && k[|k| - 1] == next))
                ==> Ready(s', TracerAfter(p, t, step, next), next, StackAfter(p, t, k, step, next)))
            && (LeavesOut(p, t, step, next) ==> s'.target == None && s'.need && s'.stack == k)
  {
    hide ExecuteLine, Walk;
    AtomLine(p, s, t, a, k, step, pre);
    var s1 := ExecuteLine(p, s, step.taken, t.base, true);
    var first := [Execute(step.taken, t.base, true)];
    var sent := step.taken && p[step.addr].target.None? && !AtomOnlyReturn(p, t, step, next);
    var branch := if sent then [BranchLine(Goal(step, next))] else [];
    var exception := if step.interrupt.Some? then [BranchLine(next)] else [];
    var sync := if step.resync then [ISyncLine(next)] else [];
    ProcessConcat(p, s, first + branch + exception, sync);
    ProcessConcat(p, s, first + branch, exception);
    ProcessConcat(p, s, first, branch);
    assert first[1..] == [] && Process(p, s, first) == s1;
    OneTarget(p, s1, Goal(step, next));
    OneTarget(p, Process(p, s1, branch), next);
    if step.resync { assert sync[1..] == []; }
  }

  lemma OneTarget(p: Program, s: Script, a: int)
    ensures Process(p, s, [BranchLine(a)]) == s.(target := Some(a)) && Process(p, s, []) == s
  {
    assert [BranchLine(a)][1..] == [];
  }

  // The first line of a trace is the atom of its first branch instruction.
  lemma {:induction false} TraceStarts(p: Program, t: Tracer, steps: seq<Step>, end: int)
    requires Execution(p, steps, end) && steps != []
    ensures var lines := Trace(p, t, steps, end);
            lines != [] && lines[0].Execute? && lines[0].guessed == t.base && lines[0].points
  {
    if p[steps[0].addr].Plain? { TraceStarts(p, t, steps[1..], end); }
  }

  // A script that takes the next atom from b prints an instruction at b first.
  lemma FirstOutput(p: Program, s: Script, b: int, line: TraceLine)
    requires s.target == None && s.need && s.stack != [] && s.stack[|s.stack| - 1] == b && b in p
    requires line.Execute? && line.points
    ensures var out := ProcessLine(p, s, line).out;
            |out| > |s.out| && !out[|s.out|].Unknown? && out[|s.out|].addr == b
  {
    var w := Walk(p, b);
    assert w == if p[b].Plain? then Walked([b] + Walk(p, b + 4).plain, Walk(p, b + 4).end) else Walked([], b);
  }

  // The tracer's stack x lies in the script's stack k, top to top, and what k has besides are addresses
  // of instructions.
  predicate Embeds(p: Program, x: seq<int>, k: seq<int>)
    decreases |k|
  {
    x == [] ||
    (k != []
     && ((x[|x| - 1] == k[|k| - 1] && Embeds(p, x[..|x| - 1], k[..|k| - 1]))
         || (k[|k| - 1] in p && Embeds(p, x, k[..|k| - 1]))))
  }

  lemma {:induction false} EmbedsDropOldest(p: Program, x: seq<int>, k: seq<int>)
    requires x != [] && Embeds(p, x, k)
    ensures Embeds(p, x[1..], k)
    decreases |k|
  {
    var x0, k0 := x[..|x| - 1], k[..|k| - 1];
    if x[|x| - 1] == k[|k| - 1] && Embeds(p, x0, k0) {
      if |x| > 1 {
        EmbedsDropOldest(p, x0, k0);
        assert x[1..][..|x| - 2] == x0[1..];
      }
    } else {
      EmbedsDropOldest(p, x, k0);
    }
  }

  lemma {:induction false} EmbedsDropTop(p: Program, x: seq<int>, k: seq<int>)
    requires x != [] && x[|x| - 1] in p && Embeds(p, x, k)
    ensures Embeds(p, x[..|x| - 1], k)
    decreases |k|
  {
    var k0 := k[..|k| - 1];
    if !(x[|x| - 1] == k[|k| - 1] && Embeds(p, x[..|x| - 1], k0)) {
      EmbedsDropTop(p, x, k0);
    }
  }

  lemma EmbedsPush(p: Program, x: seq<int>, k: seq<int>, a: int)
    requires Embeds(p, x, k)
    ensures Embeds(p, x + [a], k + [a]) && (a in p ==> Embeds(p, x, k + [a]))
  {
    assert (x + [a])[..|x|] == x && (k + [a])[..|k|] == k;
  }

  lemma EmbedsPop(p: Program, x: seq<int>, k: seq<int>)
    requires x != [] && k != [] && x[|x| - 1] == k[|k| - 1] && x[|x| - 1] in p && Embeds(p, x, k)
    ensures Embeds(p, x[..|x| - 1], k[..|k| - 1])
  {
    if !Embeds(p, x[..|x| - 1], k[..|k| - 1]) { EmbedsDropTop(p, x, k[..|k| - 1]); }
  }

  lemma NothingEmbeds(p: Program, k: seq<int>)
    ensures Embeds(p, [], k)
  {}

  // A branch instruction keeps that: a skipped call leaves the address of the very next instruction.
  lemma EmbedsKept(p: Program, t: Tracer, k: seq<int>, step: Step, next: int)
    requires step.addr in p && p[step.addr].Branch? && Follows(p, step, next) && next in p && Embeds(p, t.stack, k)
    requires LeavesOut(p, t, step, next) ==> k != [] && k[|k| - 1] == next
    ensures Embeds(p, TracerAfter(p, t, step, next).stack, StackAfter(p, t, k, step, next))
  {
    hide Embeds, TracerAfter, StackAfter, AtomOnlyReturn, LeavesOut;
    var x, a := t.stack, step.addr + 4;
    StacksAfter(p, t, k, step, next);
    if step.resync {
      NothingEmbeds(p, []);
    } else if p[step.addr].link {
      EmbedsPush(p, x, k, a);
      if step.taken && |x + [a]| > t.depth { EmbedsDropOldest(p, x + [a], k + [a]); }
    } else if LeavesOut(p, t, step, next) {
      EmbedsPop(p, x, k);
    } else if AtomOnlyReturn(p, t, step, next) {
      EmbedsDropTop(p, x, k);
    }
  }

  // Both stacks after a branch instruction.
  lemma StacksAfter(p: Program, t: Tracer, k: seq<int>, step: Step, next: int)
    requires step.addr in p && p[step.addr].Branch? && Follows(p, step, next)
    requires LeavesOut(p, t, step, next) ==> k != []
    ensures var x, a := t.stack, step.addr + 4;
            var x', k' := TracerAfter(p, t, step, next).stack, StackAfter(p, t, k, step, next);
            if step.resync then x' == [] && k' == []
            else if p[step.addr].link then
              !AtomOnlyReturn(p, t, step, next) && !LeavesOut(p, t, step, next) && k' == k + [a]
              && (!step.taken ==> x' == x && a == Goal(step, next))
              && (step.taken ==> x' == if |x + [a]| > t.depth then (x + [a])[1..] else x + [a])
            else if AtomOnlyReturn(p, t, step, next) then
              x != [] && x[|x| - 1] == Goal(step, next) && x' == x[..|x| - 1]
              && (LeavesOut(p, t, step, next) <==> step.interrupt.None?)
              && k' == if step.interrupt.None? then k[..|k| - 1] else k
            else x' == x && k' == k && !LeavesOut(p, t, step, next)
  {}

  lemma {:induction false} RebuildFrom(p: Program, s: Script, t: Tracer, a: int, k: seq<int>, pre: seq<int>,
                                       steps: seq<Step>, end: int)
    requires Embeds(p, t.stack, k)
    requires Ready(s, t, a, k) && a in p && steps != [] && Execution(p, steps, end)
    requires Walk(p, a) == Walked(pre + Walk(p, steps[0].addr).plain, Walk(p, steps[0].addr).end)
    requires forall i | 0 <= i < |steps| :: steps[i].addr in p
    ensures var right := Process(p, s, Trace(p, t, steps, end)).out == s.out + StepsOver(pre) + Expected(p, steps);
            right <==> ReturnsMatch(p, t, k, steps, end)
    decreases |steps|
  {
    hide Ready, ExecuteLine, ProcessLine;
    var step, more, next := steps[0], steps[1..], Next(steps, end);
    assert forall i | 0 <= i < |more| :: more[i] == steps[i + 1];
    if p[step.addr].Plain? {
      assert Walk(p, step.addr).plain == [step.addr] + Walk(p, next).plain;
      assert pre + ([step.addr] + Walk(p, next).plain) == pre + [step.addr] + Walk(p, next).plain;
      RebuildFrom(p, s, t, a, k, pre + [step.addr], more, end);
      assert StepsOver(pre + [step.addr]) + Expected(p, more) == StepsOver(pre) + Expected(p, steps);
      assert s.out + StepsOver(pre + [step.addr]) + Expected(p, more) == s.out + StepsOver(pre) + Expected(p, steps);
    } else {
      assert Walk(p, step.addr) == Walked([], step.addr);
      assert pre + [] == pre;
      BranchLines(p, s, t, a, k, step, next, pre);
      var lines := LinesOf(p, t, step, next);
      var s' := Process(p, s, lines);
      ProcessConcat(p, s, lines, Trace(p, TracerAfter(p, t, step, next), more, end));
      assert s.out + StepsOver(pre) + Expected(p, steps) == s'.out + Expected(p, more);
      if more != [] {
        RebuildOn(p, s', t, k, step, steps, end);
      }
    }
  }

  // The rest of the path, after the lines of the branch instruction at its head.
  lemma {:induction false} RebuildOn(p: Program, s': Script, t: Tracer, k: seq<int>, step: Step, steps: seq<Step>, end: int)
    requires Embeds(p, t.stack, k)
    requires |steps| > 1 && step == steps[0] && Execution(p, steps, end) && p[step.addr].Branch?
    requires forall i | 0 <= i < |steps| :: steps[i].addr in p
    requires var next := steps[1].addr;
             ((!LeavesOut(p, t, step, next) || (k != [] && k[|k| - 1] == next))
                ==> Ready(s', TracerAfter(p, t, step, next), next, StackAfter(p, t, k, step, next)))
             && (LeavesOut(p, t, step, next) ==> s'.target == None && s'.need && s'.stack == k)
    ensures var next := steps[1].addr;
            forall i | 0 <= i < |steps[1..]| :: steps[1..][i].addr in p
    ensures var next := steps[1].addr;
            var lines := Trace(p, TracerAfter(p, t, step, next), steps[1..], end);
            var right := Process(p, s', lines).out == s'.out + Expected(p, steps[1..]);
            right <==> ReturnsMatch(p, t, k, steps, end)
    decreases |steps|, -1
  {
    hide Ready, ExecuteLine, ProcessLine;
    var next, more := steps[1].addr, steps[1..];
    var t', k' := TracerAfter(p, t, step, next), StackAfter(p, t, k, step, next);
    assert forall i | 0 <= i < |more| :: more[i] == steps[i + 1];
    if LeavesOut(p, t, step, next) && k[|k| - 1] != next {
      // The stack leads elsewhere: the very next line printed is wrong.
      var lines := Trace(p, t', more, end);
      TraceStarts(p, t', more, end);
      FirstOutput(p, s', k[|k| - 1], lines[0]);
      OutputGrows(p, ProcessLine(p, s', lines[0]), lines[1..]);
      var out := Process(p, s', lines).out;
      assert out[|s'.out|].addr == k[|k| - 1];
      assert (s'.out + Expected(p, more))[|s'.out|] == Expected(p, more)[0];
    } else {
      assert [] + Walk(p, next).plain == Walk(p, next).plain;
      EmbedsKept(p, t, k, step, next);
      RebuildFrom(p, s', t', next, k', [], more, end);
      assert s'.out + StepsOver([]) + Expected(p, more) == s'.out + Expected(p, more);
    }
  }

  // The whole trace starts with an I-sync at the first instruction.
  function WholeTrace(p: Program, depth: nat, steps: seq<Step>, end: int): seq<TraceLine>
    requires steps != [] && Execution(p, steps, end)
  {
    [ISyncLine(steps[0].addr)] + Trace(p, Tracer(steps[0].addr, [], depth), steps, end)
  }

  // For every program and every execution of it, whatever the depth of the tracer's stack: the script
  // prints exactly the executed instructions, the plain ones it steps through included, if and only if
  // every return left out of the trace goes back to the last unmatched call the script has seen.
  lemma PathRebuilt(p: Program, depth: nat, steps: seq<Step>, end: int)
    requires steps != [] && Execution(p, steps, end)
    ensures forall i | 0 <= i < |steps| :: steps[i].addr in p
    ensures Process(p, START, WholeTrace(p, depth, steps, end)).out == Expected(p, steps)
            <==> ReturnsMatch(p, Tracer(steps[0].addr, [], depth), [], steps, end)
  {
    hide ExecuteLine;
    ExecutionKnown(p, steps, end);
    var a := steps[0].addr;
    var t, s := Tracer(a, [], depth), START.(target := Some(a));
    var lines := WholeTrace(p, depth, steps, end);
    assert lines[1..] == Trace(p, t, steps, end);
    assert ProcessLine(p, START, lines[0]) == s;
    assert [] + Walk(p, a).plain == Walk(p, a).plain;
    RebuildFrom(p, s, t, a, [], [], steps, end);
    assert [] + StepsOver([]) + Expected(p, steps) == Expected(p, steps);
  }

  /** ---- Programs that always take their calls ---- */

  predicate CallsTaken(p: Program, steps: seq<Step>)
    requires forall i | 0 <= i < |steps| :: steps[i].addr in p
  {
    forall i | 0 <= i < |steps| :: p[steps[i].addr].Branch? && p[steps[i].addr].link ==> steps[i].taken
  }

  // Returns are not interrupted.
  predicate ReturnsGoOn(p: Program, steps: seq<Step>)
    requires forall i | 0 <= i < |steps| :: steps[i].addr in p
  {
    forall i | 0 <= i < |steps| ::
      p[steps[i].addr].Branch? && steps[i].taken && p[steps[i].addr].target.None? && !p[steps[i].addr].link
      ==> steps[i].interrupt.None?
  }

  predicate IsSuffix(x: seq<int>, y: seq<int>) {
    |x| <= |y| && y[|y| - |x|..] == x
  }

  lemma {:induction false} TakenCallsMatch(p: Program, t: Tracer, k: seq<int>, steps: seq<Step>, end: int)
    requires Execution(p, steps, end) && IsSuffix(t.stack, k)
    requires forall i | 0 <= i < |steps| :: steps[i].addr in p
    requires CallsTaken(p, steps) && ReturnsGoOn(p, steps)
    ensures ReturnsMatch(p, t, k, steps, end)
    decreases |steps|
  {
    if steps != [] {
      var step, more, next := steps[0], steps[1..], Next(steps, end);
      assert forall i | 0 <= i < |more| :: more[i] == steps[i + 1];
      if p[step.addr].Plain? {
        TakenCallsMatch(p, t, k, more, end);
      } else {
        var t', k' := TracerAfter(p, t, step, next), StackAfter(p, t, k, step, next);
        SuffixKept(p, t, k, step, next);
        if t.stack != [] { assert t.stack[|t.stack| - 1] == k[|k| - 1]; }
        TakenCallsMatch(p, t', k', more, end);
      }
    }
  }

  // The tracer's stack stays the top part of the script's, however many entries it has dropped.
  lemma SuffixKept(p: Program, t: Tracer, k: seq<int>, step: Step, next: int)
    requires step.addr in p && p[step.addr].Branch? && IsSuffix(t.stack, k)
    requires p[step.addr].link ==> step.taken
    requires AtomOnlyReturn(p, t, step, next) ==> step.interrupt.None?
    ensures IsSuffix(TracerAfter(p, t, step, next).stack, StackAfter(p, t, k, step, next))
  {
    var n := |k| - |t.stack|;
    if p[step.addr].link {
      assert (k + [step.addr + 4])[n..] == t.stack + [step.addr + 4];
    } else if AtomOnlyReturn(p, t, step, next) {
      assert k[..|k| - 1][n..] == t.stack[..|t.stack| - 1];
    }
  }

  // With every call taken and no return interrupted, every execution comes back.
  lemma PathRebuiltWhenCallsTaken(p: Program, depth: nat, steps: seq<Step>, end: int)
    requires steps != [] && Execution(p, steps, end)
    requires (forall i | 0 <= i < |steps| :: steps[i].addr in p) && CallsTaken(p, steps) && ReturnsGoOn(p, steps)
    ensures Process(p, START, WholeTrace(p, depth, steps, end)).out == Expected(p, steps)
  {
    TakenCallsMatch(p, Tracer(steps[0].addr, [], depth), [], steps, end);
    PathRebuilt(p, depth, steps, end);
  }

  // Without it one conditional call that is skipped is enough: the function at 16 skips its call and
  // returns to 4, and the script goes to 20, behind the skipped call.
  function SkipProgram(): Program {
    map[0 := Branch(true, Some(16)), 4 := Branch(false, Some(0)), 16 := Branch(true, Some(32)), 20 := Branch(false, None)]
  }

  function SkipSteps(): seq<Step> {
    [Step(0, true, None, false), Step(16, false, None, false), Step(20, true, None, false), Step(4, true, None, false)]
  }

  lemma SkippedCallMisleads()
    ensures var p, steps := SkipProgram(), SkipSteps();
            Execution(p, steps, 0) && (forall i | 0 <= i < |steps| :: steps[i].addr in p)
            && Process(p, START, WholeTrace(p, 3, steps, 0)).out != Expected(p, steps)
  {
    hide Process, ProcessLine, Walk, Trace, Expected, ReturnsMatch;
    SkipExecution();
    SkipStacks();
    PathRebuilt(SkipProgram(), 3, SkipSteps(), 0);
  }

  lemma SkipExecution()
    ensures Execution(SkipProgram(), SkipSteps(), 0) && Execution(SkipProgram(), SkipSteps()[1..], 0)
    ensures Execution(SkipProgram(), SkipSteps()[2..], 0) && Execution(SkipProgram(), SkipSteps()[3..], 0)
  {
    var p, steps := SkipProgram(), SkipSteps();
    assert steps[3..][1..] == [] && steps[2..][1..] == steps[3..] && steps[1..][1..] == steps[2..];
    assert Execution(p, steps[3..], 0);
    assert Execution(p, steps[2..], 0);
    assert Execution(p, steps[1..], 0);
  }

  // What the tracer and the script have on their stacks before each step.
  lemma SkipStacks()
    ensures Execution(SkipProgram(), SkipSteps(), 0)
    ensures !ReturnsMatch(SkipProgram(), Tracer(0, [], 3), [], SkipSteps(), 0)
  {
    SkipExecution();
    SkipMoves();
    hide Execution, TracerAfter, StackAfter, LeavesOut;
    var p, steps := SkipProgram(), SkipSteps();
    assert steps[2..][1..] == steps[3..] && steps[1..][1..] == steps[2..];
    assert !ReturnsMatch(p, Tracer(0, [4], 3), [4, 20], steps[2..], 0);
    assert !ReturnsMatch(p, Tracer(0, [4], 3), [4], steps[1..], 0);
  }

  lemma SkipMoves()
    ensures var p, steps := SkipProgram(), SkipSteps();
            TracerAfter(p, Tracer(0, [], 3), steps[0], 16) == Tracer(0, [4], 3)
            && StackAfter(p, Tracer(0, [], 3), [], steps[0], 16) == [4]
            && TracerAfter(p, Tracer(0, [4], 3), steps[1], 20) == Tracer(0, [4], 3)
            && StackAfter(p, Tracer(0, [4], 3), [4], steps[1], 20) == [4, 20]
            && LeavesOut(p, Tracer(0, [4], 3), steps[2], 4)
  {
    var none, one: seq<int> := [], [4];
    assert none + [4] == one && one + [20] == [4, 20];
  }

  // One exception between a return and its target is enough as well: the function at 32, called from 16,
  // returns to 20 with an exception before it. The script keeps 20 on its stack, and takes the return to 4
  // there again.
  function TrapProgram(): Program {
    map[0 := Branch(true, Some(16)), 4 := Branch(false, Some(0)), 16 := Branch(true, Some(32)),
        20 := Branch(false, None), 32 := Branch(false, None), 48 := Branch(false, None)]
  }

  function TrapSteps(): seq<Step> {
    [Step(0, true, None, false), Step(16, true, None, false), Step(32, true, Some(20), false),
     Step(48, true, None, false), Step(20, true, None, false), Step(4, true, None, false)]
  }

  lemma InterruptedReturnMisleads()
    ensures var p, steps := TrapProgram(), TrapSteps();
            Execution(p, steps, 0) && (forall i | 0 <= i < |steps| :: steps[i].addr in p)
            && Process(p, START, WholeTrace(p, 3, steps, 0)).out != Expected(p, steps)
  {
    hide Process, ProcessLine, Walk, Trace, Expected, ReturnsMatch;
    TrapExecution();
    TrapStacks();
    PathRebuilt(TrapProgram(), 3, TrapSteps(), 0);
  }

  lemma TrapExecution()
    ensures forall i: nat | i <= 6 :: Execution(TrapProgram(), TrapSteps()[i..], 0)
  {
    var p, steps := TrapProgram(), TrapSteps();
    forall i: nat | i < 6
      ensures steps[i..][1..] == steps[i + 1..]
    {}
    assert Execution(p, steps[6..], 0);
    assert Execution(p, steps[5..], 0);
    assert Execution(p, steps[4..], 0);
    assert Execution(p, steps[3..], 0);
    assert Execution(p, steps[2..], 0);
    assert Execution(p, steps[1..], 0);
    assert steps[0..] == steps;
  }

  // What the tracer and the script have on their stacks before each step.
  lemma TrapStacks()
    ensures Execution(TrapProgram(), TrapSteps(), 0)
    ensures !ReturnsMatch(TrapProgram(), Tracer(0, [], 3), [], TrapSteps(), 0)
  {
    TrapExecution();
    hide Execution, ReturnsMatch, TracerAfter, StackAfter;
    assert TrapSteps()[0..] == TrapSteps();
    TrapCalls();
    TrapReturn();
    TrapStep(4, Tracer(20, [4], 3), [4, 20]);
    TrapStep(3, Tracer(48, [4], 3), [4, 20]);
    TrapStep(2, Tracer(0, [4, 20], 3), [4, 20]);
    TrapStep(1, Tracer(0, [4], 3), [4]);
    TrapStep(0, Tracer(0, [], 3), []);
  }

  lemma TrapCalls()
    ensures var p, steps := TrapProgram(), TrapSteps();
            TracerAfter(p, Tracer(0, [], 3), steps[0], 16) == Tracer(0, [4], 3)
            && StackAfter(p, Tracer(0, [], 3), [], steps[0], 16) == [4]
            && TracerAfter(p, Tracer(0, [4], 3), steps[1], 32) == Tracer(0, [4, 20], 3)
            && StackAfter(p, Tracer(0, [4], 3), [4], steps[1], 32) == [4, 20]
  {
    var none, one: seq<int> := [], [4];
    assert none + [4] == one && one + [20] == [4, 20];
  }

  lemma TrapReturn()
    ensures var p, steps := TrapProgram(), TrapSteps();
            TracerAfter(p, Tracer(0, [4, 20], 3), steps[2], 48) == Tracer(48, [4], 3)
            && StackAfter(p, Tracer(0, [4, 20], 3), [4, 20], steps[2], 48) == [4, 20]
            && TracerAfter(p, Tracer(48, [4], 3), steps[3], 20) == Tracer(20, [4], 3)
            && StackAfter(p, Tracer(48, [4], 3), [4, 20], steps[3], 20) == [4, 20]
            && LeavesOut(p, Tracer(20, [4], 3), steps[4], 4)
  {
    assert [4, 20][..1] == [4];
  }

  lemma TrapStep(i: nat, t: Tracer, k: seq<int>)
    requires i <= 4
    requires forall j: nat | j <= 6 :: Execution(TrapProgram(), TrapSteps()[j..], 0)
    requires var p, steps := TrapProgram(), TrapSteps();
             (i == 4 && LeavesOut(p, t, steps[4], 4) && k != [] && k[|k| - 1] != 4)
             || (i < 4 && var next := steps[i + 1].addr;
                 !ReturnsMatch(p, TracerAfter(p, t, steps[i], next), StackAfter(p, t, k, steps[i], next), steps[i + 1..], 0))
    ensures !ReturnsMatch(TrapProgram(), t, k, TrapSteps()[i..], 0)
  {
    var steps := TrapSteps();
    assert steps[i..][0] == steps[i] && steps[i..][1..] == steps[i + 1..];
  }
}
