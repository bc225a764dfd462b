/** Traces that name every instruction, as the ETMv3 protocol makes them: what the script makes of an
    execution, and when it is right. */
module EtmPath {
  import opened EtmDecode
  import opened PathRebuild

  // One instruction, executed or not. interrupt holds the address of the instruction that should have come
  // next if an exception is taken before it; resync tells that the tracer sends an I-sync after it.
  datatype Step = Step(addr: int, executed: bool, interrupt: Option<int>, resync: bool)

  // Where the instruction itself goes.
  function Goal(s: Step, next: int): int {
    if s.interrupt.Some? then s.interrupt.value else next
  }

  const TOP: int := 0x1_0000_0000

  function Next(steps: seq<Step>, end: int): int
    requires steps != []
  {
    if |steps| == 1 then end else steps[1].addr
  }

  predicate Branches(p: Program, s: Step)
    requires s.addr in p
  {
    s.executed && p[s.addr].Branch?
  }

  predicate Follows(p: Program, s: Step, next: int)
    requires s.addr in p
  {
    if Branches(p, s) then p[s.addr].target.Some? ==> Goal(s, next) == p[s.addr].target.value
    else Goal(s, next) == s.addr + 4
  }

  // An execution of the program that goes on at end.
  predicate Execution(p: Program, steps: seq<Step>, end: int) {
    steps != [] ==>
      steps[0].addr in p && Follows(p, steps[0], Next(steps, end)) && Execution(p, steps[1..], end)
  }

  // Every instruction with its own atom.
  function Expected(steps: seq<Step>): (out: seq<Out>)
    ensures |out| == |steps|
  {
    seq(|steps|, i requires 0 <= i < |steps| => Atom(steps[i].executed, steps[i].addr))
  }

  /** ---- The trace ---- */

  // What the tracer tells: an atom for each instruction, the address a register branch goes to, the
  // address of an exception, and an I-sync anywhere.
  datatype Item = AnAtom(executed: bool) | AnAddress(addr: int) | AnException(addr: int) | ASync(addr: int)

  function StepItems(p: Program, s: Step, next: int): seq<Item>
    requires s.addr in p
  {
    [AnAtom(s.executed)]
    + (if Branches(p, s) && p[s.addr].target.None? then [AnAddress(Goal(s, next))] else [])
    + (if s.interrupt.Some? then [AnException(next)] else [])
    + (if s.resync then [ASync(next)] else [])
  }

  function Items(p: Program, steps: seq<Step>, end: int): seq<Item>
    requires Execution(p, steps, end)
    decreases |steps|
  {
    if steps == [] then [] else StepItems(p, steps[0], Next(steps, end)) + Items(p, steps[1..], end)
  }

  // The pc of the decoder, which knows the addresses sent and otherwise counts instructions.
  function PcAfter(pc: int, item: Item): int {
    match item
    case AnAtom(_) => if pc + 4 == TOP then 0 else pc + 4
    case AnAddress(addr) => addr
    case AnException(addr) => addr
    case ASync(addr) => addr
  }

  function PcAt(pc: int, items: seq<Item>): int
    decreases |items|
  {
    if items == [] then pc else PcAt(PcAfter(pc, items[0]), items[1..])
  }

  function ItemLine(pc: int, item: Item): TraceLine {
    match item
    case AnAtom(executed) => Execute(executed, pc, false)
    case AnAddress(addr) => BranchLine(addr)
    case AnException(addr) => BranchLine(addr)
    case ASync(addr) => ISyncLine(addr)
  }

  // The lines the decoder prints.
  function Lines(pc: int, items: seq<Item>): seq<TraceLine>
    decreases |items|
  {
    if items == [] then [] else [ItemLine(pc, items[0])] + Lines(PcAfter(pc, items[0]), items[1..])
  }

  lemma {:induction false} LinesConcat(pc: int, a: seq<Item>, b: seq<Item>)
    ensures Lines(pc, a + b) == Lines(pc, a) + Lines(PcAt(pc, a), b) && PcAt(pc, a + b) == PcAt(PcAt(pc, a), b)
    decreases |a|
  {
    hide ItemLine, PcAfter;
    if a == [] {
      assert a + b == b;
    } else {
      assert (a + b)[1..] == a[1..] + b;
      LinesConcat(PcAfter(pc, a[0]), a[1..], b);
    }
  }

  lemma OneLine(pc: int, item: Item)
    ensures Lines(pc, [item]) == [ItemLine(pc, item)] && PcAt(pc, [item]) == PcAfter(pc, item)
  {
    assert [item][1..] == [];
  }

  /** ---- The script on it ---- */

  // The script will take the next atom, decoded at pc, for the instruction at a.
  predicate Ready(s: Script, pc: int, a: int) {
    if s.target.Some? then s.target.value == a else !s.need && pc + s.offset == a
  }

  // Whether the trace or the program text says where execution goes after a step.
  predicate Tells(p: Program, s: Step)
    requires s.addr in p
  {
    Branches(p, s) || s.interrupt.Some? || s.resync
  }

  lemma AtomLine(p: Program, s: Script, pc: int, step: Step)
    requires step.addr in p && Ready(s, pc, step.addr)
    ensures var s' := ProcessLine(p, s, Execute(step.executed, pc, false));
            s'.out == s.out + [Atom(step.executed, step.addr)]
            && s'.target == (if Branches(p, step) then p[step.addr].target else None)
            && (!Branches(p, step) ==> !s'.need && s'.offset == step.addr - pc)
  {
    hide Walk;
  }

  // The lines of one step: its atom is printed, and the script is ready for the next one, unless the pc
  // went round and nothing told the address.
  lemma StepLines(p: Program, s: Script, pc: int, step: Step, next: int)
    requires step.addr in p && Ready(s, pc, step.addr) && Follows(p, step, next)
    ensures var items := StepItems(p, step, next);
            var s', pc' := Process(p, s, Lines(pc, items)), PcAt(pc, items);
            s'.out == s.out + [Atom(step.executed, step.addr)]
            && (Tells(p, step) || pc + 4 != TOP ==> Ready(s', pc', next))
            && (!Tells(p, step) ==> pc' == PcAfter(pc, AnAtom(step.executed)) && s'.target == None && !s'.need
                                    && s'.offset == step.addr - pc)
  {
    hide ProcessLine;
    var atom := [AnAtom(step.executed)];
    var branch := if Branches(p, step) && p[step.addr].target.None? then [AnAddress(Goal(step, next))] else [];
    var exception := if step.interrupt.Some? then [AnException(next)] else [];
    var sync := if step.resync then [ASync(next)] else [];
    AtomLine(p, s, pc, step);
    ProcessItems(p, s, pc, atom + branch + exception, sync);
    ProcessItems(p, s, pc, atom + branch, exception);
    ProcessItems(p, s, pc, atom, branch);
    OneItem(p, s, pc, atom[0]);
    var s1, pc1 := Process(p, s, Lines(pc, atom)), PcAt(pc, atom);
    var s2, pc2 := Process(p, s1, Lines(pc1, branch)), PcAt(pc1, branch);
    var s3, pc3 := Process(p, s2, Lines(pc2, exception)), PcAt(pc2, exception);
    if branch != [] { OneItem(p, s1, pc1, branch[0]); }
    if exception != [] { OneItem(p, s2, pc2, exception[0]); }
    if sync != [] { OneItem(p, s3, pc3, sync[0]); }
  }

  lemma ProcessItems(p: Program, s: Script, pc: int, a: seq<Item>, b: seq<Item>)
    ensures PcAt(pc, a + b) == PcAt(PcAt(pc, a), b)
    ensures Process(p, s, Lines(pc, a + b)) == Process(p, Process(p, s, Lines(pc, a)), Lines(PcAt(pc, a), b))
    ensures Process(p, s, Lines(pc, [])) == s && PcAt(pc, []) == pc
  {
    hide ProcessLine;
    LinesConcat(pc, a, b);
    ProcessConcat(p, s, Lines(pc, a), Lines(PcAt(pc, a), b));
  }

  lemma OneItem(p: Program, s: Script, pc: int, item: Item)
    ensures Process(p, s, Lines(pc, [item])) == ProcessLine(p, s, ItemLine(pc, item)) && PcAt(pc, [item]) == PcAfter(pc, item)
    ensures item.AnAddress? || item.AnException? ==> ProcessLine(p, s, ItemLine(pc, item)) == s.(target := Some(item.addr))
    ensures item.ASync? ==> ProcessLine(p, s, ItemLine(pc, item)) == s.(target := Some(item.addr), stack := [])
  {
    OneLine(pc, item);
    assert [ItemLine(pc, item)][1..] == [];
  }

  // The pc never goes round between two instructions without the address of the second being known.
  predicate PcHolds(p: Program, pc: int, steps: seq<Step>, end: int)
    requires Execution(p, steps, end)
    decreases |steps|
  {
    steps != [] ==>
      (|steps| > 1 && pc + 4 == TOP ==> Tells(p, steps[0]))
      && PcHolds(p, PcAt(pc, StepItems(p, steps[0], Next(steps, end))), steps[1..], end)
  }

  // A script whose pc went round prints something else than the instruction at a.
  lemma Misses(p: Program, s: Script, a: int, executed: bool)
    requires InMemory(p) && a in p && a != 0 && s.target == None && !s.need && s.offset == a - TOP
    ensures var out := ProcessLine(p, s, Execute(executed, 0, false)).out;
            |out| > |s.out| && out[|s.out|] != Atom(executed, a)
  {
    hide Walk;
    assert s.offset !in p;
  }

  lemma {:induction false} RebuildFrom(p: Program, s: Script, pc: int, steps: seq<Step>, end: int)
    requires InMemory(p) && steps != [] && Execution(p, steps, end) && Ready(s, pc, steps[0].addr)
    ensures Process(p, s, Lines(pc, Items(p, steps, end))).out == s.out + Expected(steps) <==> PcHolds(p, pc, steps, end)
    decreases |steps|
  {
    hide Ready, ProcessLine, Lines;
    var step, more, next := steps[0], steps[1..], Next(steps, end);
    var items := StepItems(p, step, next);
    var s', pc' := Process(p, s, Lines(pc, items)), PcAt(pc, items);
    StepLines(p, s, pc, step, next);
    LinesConcat(pc, items, Items(p, more, end));
    ProcessConcat(p, s, Lines(pc, items), Lines(pc', Items(p, more, end)));
    assert s.out + Expected(steps) == s'.out + Expected(more);
    if more == [] {
      NoLines(p, s', pc');
    } else if !Tells(p, step) && pc + 4 == TOP {
      FirstLine(p, 0, more, end);
      var lines := Lines(0, Items(p, more, end));
      Misses(p, s', next, more[0].executed);
      OutputGrows(p, ProcessLine(p, s', lines[0]), lines[1..]);
      assert (s'.out + Expected(more))[|s'.out|] == Expected(more)[0];
    } else {
      RebuildFrom(p, s', pc', more, end);
    }
  }

  lemma NoLines(p: Program, s: Script, pc: int)
    ensures Process(p, s, Lines(pc, [])) == s
  {}

  lemma FirstLine(p: Program, pc: int, steps: seq<Step>, end: int)
    requires Execution(p, steps, end) && steps != []
    ensures var lines := Lines(pc, Items(p, steps, end));
            lines != [] && lines[0] == Execute(steps[0].executed, pc, false)
  {
    assert Items(p, steps, end)[0] == AnAtom(steps[0].executed);
  }

  // For every program and every execution of it, with exceptions and I-syncs anywhere: the script prints
  // exactly the instructions, each with its own atom, if and only if the pc of the decoder never goes
  // round 2^32 between two instructions of which the first neither branches nor is followed by an exception
  // or an I-sync.
  lemma PathRebuilt(p: Program, steps: seq<Step>, end: int)
    requires InMemory(p) && steps != [] && Execution(p, steps, end)
    ensures var a := steps[0].addr;
            Process(p, START, Lines(a, [ASync(a)] + Items(p, steps, end))).out == Expected(steps)
            <==> PcHolds(p, a, steps, end)
  {
    hide ProcessLine, Items, Lines;
    var a := steps[0].addr;
    var s := START.(target := Some(a));
    LinesConcat(a, [ASync(a)], Items(p, steps, end));
    OneItem(p, START, a, ASync(a));
    ProcessConcat(p, START, Lines(a, [ASync(a)]), Lines(a, Items(p, steps, end)));
    RebuildFrom(p, s, a, steps, end);
    assert [] + Expected(steps) == Expected(steps);
  }

  // It never does where every address leaves room for as many instructions as are executed.
  lemma {:induction false} LowAddressesHold(p: Program, pc: int, steps: seq<Step>, end: int, n: nat)
    requires Execution(p, steps, end) && |steps| <= n && pc + 4 * |steps| <= TOP
    requires forall i | 0 <= i < |steps| :: steps[i].addr + 4 * n <= TOP
    ensures PcHolds(p, pc, steps, end)
    decreases |steps|
  {
    if |steps| > 1 {
      var step, more, next := steps[0], steps[1..], Next(steps, end);
      assert forall i | 0 <= i < |more| :: more[i] == steps[i + 1];
      StepPc(p, pc, step, next);
      LowAddressesHold(p, PcAt(pc, StepItems(p, step, next)), more, end, n);
    }
  }

  lemma StepPc(p: Program, pc: int, step: Step, next: int)
    requires step.addr in p
    ensures PcAt(pc, StepItems(p, step, next)) == next
            || PcAt(pc, StepItems(p, step, next)) == PcAfter(pc, AnAtom(step.executed))
  {
    var atom := [AnAtom(step.executed)];
    var branch := if Branches(p, step) && p[step.addr].target.None? then [AnAddress(Goal(step, next))] else [];
    var exception := if step.interrupt.Some? then [AnException(next)] else [];
    var sync := if step.resync then [ASync(next)] else [];
    LinesConcat(pc, atom + branch + exception, sync);
    LinesConcat(pc, atom + branch, exception);
    LinesConcat(pc, atom, branch);
    OneLine(pc, AnAtom(step.executed));
    OneLine(PcAt(pc, atom), AnAddress(Goal(step, next)));
    OneLine(PcAt(pc, atom + branch), AnException(next));
    OneLine(PcAt(pc, atom + branch + exception), ASync(next));
  }

  // A jump down from the top of memory is enough: the pc counts on from there and goes round at 20.
  lemma TopOfMemory()
    ensures var p: Program := map[0xFFFF_FFF8 := Branch(false, Some(16)), 16 := Plain, 20 := Plain];
            var steps := [Step(0xFFFF_FFF8, true, None, false), Step(16, true, None, false), Step(20, true, None, false)];
            Execution(p, steps, 24) && InMemory(p)
            && Process(p, START, Lines(0xFFFF_FFF8, [ASync(0xFFFF_FFF8)] + Items(p, steps, 24))).out != Expected(steps)
  {
    var p: Program := map[0xFFFF_FFF8 := Branch(false, Some(16)), 16 := Plain, 20 := Plain];
    var steps := [Step(0xFFFF_FFF8, true, None, false), Step(16, true, None, false), Step(20, true, None, false)];
    hide Process, Lines, Items;
    var s1, s2 := steps[1..], steps[1..][1..];
    assert s1 == [steps[1], steps[2]] && s2 == [steps[2]] && s2[1..] == [];
    assert Execution(p, s2, 24);
    assert Execution(p, s1, 24);
    assert Execution(p, steps, 24);
    assert StepItems(p, steps[0], 16) == [AnAtom(true)];
    OneLine(0xFFFF_FFF8, AnAtom(true));
    assert !PcHolds(p, 0xFFFF_FFFC, s1, 24);
    assert !PcHolds(p, 0xFFFF_FFF8, steps, 24);
    PathRebuilt(p, steps, 24);
  }
}
