/** The packet decoders of the ETMv3 and PFT trace protocols (Arm IHI 0014 and IHI 0035) as functions
    of the decoder state. A decoder takes bytes off the stream one at a time and prints lines. */
module EtmDecode {
  import opened Octets
  import opened WordBits

  datatype Option<+T> = None | Some(value: T)

  // The instruction set in force; addresses are shifted by 0, 1 or 2 bits.
  datatype Mode = Jazelle | Thumb | Arm {
    function Shift(): nat {
      match this
      case Jazelle => 0
      case Thumb => 1
      case Arm => 2
    }
  }

  datatype Config = Config(altBranch: bool, programFlowOnly: bool, cycleAccurate: bool, contextIdBytes: nat)

  // What is printed. synced tells whether the line starts with a blank or a question mark.
  datatype Line =
    | Instruction(synced: bool, executed: bool, pc: Word, points: Option<nat>, valid: Word, waited: nat)
    | BranchTo(synced: bool, addr: Word, exception: Option<Octet>, valid: Word, mode: Mode)
    | Timestamp(synced: bool, ts: DoubleWord)
    | CycleCount(synced: bool, count: Word)
    | ISync(synced: bool, context: Word, ib: Octet, addr: Word)
    | ContextId(synced: bool, context: Word)
    | Vmid(synced: bool, vmid: Octet)
    | NormalData(synced: bool, value: Word, size: nat, daddr: Option<Word>)
    | Waypoint(synced: bool, addr: Word, infoByte: Option<Octet>, valid: Word, mode: Mode)
    | Trigger(synced: bool)
    | ExceptionReturn(synced: bool)
    | BadHeader
    | NotHandled(header: Octet)
    | FinalWait(waited: nat)

  /** The decoder state. avail holds the bytes still to come; sinceReset is a history of the bytes
      delivered since sync was last set to zero. */
  datatype State = State(
    avail: seq<Octet>, data: Octet,
    iaddr: Word, iaddrValid: Word, pc: Word, mode: Mode,
    branchCount: nat, waitCount: nat, timestamp: DoubleWord, daddr: Word,
    sync: int, sinceReset: seq<Octet>,
    lines: seq<Line>)
  {
    function Print(line: Line): State {
      this.(lines := lines + [line])
    }

    predicate Synced() {
      sync > 0
    }
  }

  // The program has exited at the end of the stream, or goes on.
  datatype Outcome = Exited(st: State) | Running(st: State) {
    predicate IsFailure() {
      Exited?
    }

    function PropagateFailure(): Outcome
      requires Exited?
    {
      this
    }

    function Extract(): State
      requires Running?
    {
      st
    }
  }

  /** ---- Synchronisation ---- */

  function ZeroBytes(bytes: seq<Octet>): nat {
    if bytes == [] then 0 else ZeroBytes(bytes[..|bytes| - 1]) + (if bytes[|bytes| - 1] == Zeros(8) then 1 else 0)
  }

  // sync counts zero bytes downwards and turns to 1 at the fifth.
  predicate SyncCounts(s: State) {
    if ZeroBytes(s.sinceReset) >= 5 then s.sync == 1 else s.sync + ZeroBytes(s.sinceReset) == 0
  }

  function LoseSync(s: State): (s': State)
    ensures SyncCounts(s') && s'.avail == s.avail
  {
    s.(sync := 0, sinceReset := [])
  }

  // What every decoder keeps: bytes are only taken off the stream, and sync counts what was delivered.
  predicate Keeps(s: State, s': State) {
    |s'.avail| <= |s.avail| && (SyncCounts(s) ==> SyncCounts(s'))
  }

  /** ---- Bytes ---- */

  function Get(s: State): (r: Outcome)
    ensures Keeps(s, r.st)
    ensures r.Running? <==> s.avail != []
    ensures r.Running? ==> |r.st.avail| == |s.avail| - 1
  {
    if s.avail == [] then
      Exited(if s.waitCount != 0 then s.Print(FinalWait(s.waitCount)) else s)
    else
      var ch, history := s.avail[0], s.sinceReset + [s.avail[0]];
      assert history[..|history| - 1] == s.sinceReset;
      Running(s.(avail := s.avail[1..], data := ch, sinceReset := history,
                 sync := if ch == Zeros(8) && s.sync <= 0 then (if s.sync == -4 then 1 else s.sync - 1) else s.sync))
  }

  // x with the bits at .. at+|v| replaced by v; bits beyond the word are dropped.
  function Splice(x: BitSeq, at: nat, v: BitSeq): (r: BitSeq)
    requires at <= |x|
    ensures |r| == |x|
  {
    (x[..at] + v + (if at + |v| <= |x| then x[at + |v|..] else []))[..|x|]
  }

  // x with v shifted up by at and added in with a bitwise or.
  function OrAt(x: BitSeq, at: nat, v: BitSeq): (r: BitSeq)
    ensures |r| == |x|
  {
    seq(|x|, i requires 0 <= i < |x| => x[i] || (at <= i < at + |v| && v[i - at]))
  }

  // Addition of machine words, with wrap-around.
  function AddTo(x: Word, k: nat): Word {
    FromNat(ToNat(x) + k, 32)
  }

  /** ---- Instructions ---- */

  function NextPc(c: Config, s: State): (r: State)
    ensures Keeps(s, r)
  {
    if c.programFlowOnly then s.(branchCount := s.branchCount + 1)
    else s.(pc := AddTo(s.pc, Pow2(s.mode.Shift())))
  }

  function PrintInstruction(c: Config, s: State, executed: bool): (r: State)
    ensures Keeps(s, r)
  {
    var s' := NextPc(c, s).(waitCount := 0);
    var points := if c.programFlowOnly then Some(s'.branchCount) else None;
    s'.Print(Instruction(s.Synced(), executed, s.pc, points, s.iaddrValid, s.waitCount))
  }

  // n instructions, all executed or all not; with waits, one more cycle before each.
  function PrintMany(c: Config, s: State, executed: bool, n: nat, wait: bool): (r: State)
    ensures Keeps(s, r)
    decreases n
  {
    if n == 0 then s else
      var s' := if wait then s.(waitCount := s.waitCount + 1) else s;
      PrintMany(c, PrintInstruction(c, s', executed), executed, n - 1, wait)
  }

  /** ---- Branch addresses ---- */

  datatype AddressLoop = LoopExit(st: State) | LoopDone(st: State, addr: Word, validMask: Word, count: nat)

  // The continuation bytes: count bytes have been taken so far.
  function AddressBytes(c: Config, s: State, addr: Word, validMask: Word, count: nat): (r: AddressLoop)
    requires 1 <= count <= 5
    ensures Keeps(s, r.st)
    decreases 5 - count
  {
    if s.data[7] && count < 5 then
      match Get(s)
      case Exited(t) => LoopExit(t)
      case Running(t) =>
        var width := if c.altBranch && !t.data[7] then 6 else 7;
        var at := 7 * count - 1;
        AddressBytes(c, t, Splice(addr, at, t.data[..width]), XorOnes(validMask, at, width), count + 1)
    else
      LoopDone(s, addr, validMask, count)
  }

  function XorOnes(x: Word, at: nat, width: nat): Word {
    seq(32, i requires 0 <= i < 32 => x[i] != (at <= i < at + width))
  }

  // The instruction set that the fifth byte of an address names.
  function FifthByteMode(data: Octet): Mode {
    if !data[7] && !data[5] && !data[4] then Arm
    else if !data[7] && !data[5] then Thumb
    else Jazelle
  }

  // The decompressed address and its mask of known bits, in the unit of the new instruction set.
  function SetAddress(s: State, addr: Word, validMask: Word, mode: Mode): (r: State)
    ensures Keeps(s, r)
  {
    var addr', validMask' := Shl(addr, mode.Shift()), Shl(validMask, if mode.Arm? then 3 else mode.Shift());
    s.(mode := mode, iaddr := addr', pc := addr', branchCount := 0,
       iaddrValid := if ToNat(s.iaddrValid) < ToNat(validMask') then validMask' else s.iaddrValid)
  }

  datatype BranchResult = BranchExit(st: State) | BranchDone(st: State, exception: bool)

  function GetBranchAddr(c: Config, s: State): (r: BranchResult)
    ensures Keeps(s, r.st)
  {
    var addr := Splice(Shr(s.iaddr, s.mode.Shift()), 0, s.data[1..7]);
    match AddressBytes(c, s, addr, Ones(6) + Zeros(26), 1)
    case LoopExit(t) => BranchExit(t)
    case LoopDone(t, addr, validMask, count) =>
      var exception := (count == 5 || (c.altBranch && count > 1)) && t.data[6];
      var u := if !exception && c.programFlowOnly then PrintInstruction(c, t, true) else t;
      var mode := if count == 5 then FifthByteMode(t.data) else t.mode;
      BranchDone(SetAddress(u, addr, validMask, mode), exception)
  }

  function OrOctets(a: Octet, b: Octet): Octet {
    OrAt(a, 0, b)
  }

  function Branch(c: Config, s: State): (r: Outcome)
    ensures Keeps(s, r.st)
  {
    match GetBranchAddr(c, s)
    case BranchExit(t) => Exited(t)
    case BranchDone(t, exception) =>
      if !exception then
        Running(t.Print(BranchTo(t.Synced(), t.iaddr, None, t.iaddrValid, t.mode)))
      else
        var u :- Get(t);
        if !u.data[7] then
          Running(u.Print(BranchTo(u.Synced(), u.iaddr, Some(u.data), u.iaddrValid, u.mode)))
        else
          var v :- Get(u);
          Running(v.Print(BranchTo(v.Synced(), v.iaddr, Some(OrOctets(u.data, v.data)), v.iaddrValid, v.mode)))
  }

  function WaypointUpdate(c: Config, s: State): (r: Outcome)
    ensures Keeps(s, r.st)
  {
    var s' :- Get(s);
    match GetBranchAddr(c, s')
    case BranchExit(t) => Exited(t)
    case BranchDone(t, exception) =>
      if !exception then
        Running(t.Print(Waypoint(t.Synced(), t.iaddr, None, t.iaddrValid, t.mode)))
      else
        var u :- Get(t);
        Running(u.Print(Waypoint(u.Synced(), u.iaddr, Some(u.data), u.iaddrValid, u.mode)))
  }

  /** ---- Variable-length fields ---- */

  datatype Field = FieldExit(st: State) | FieldDone(st: State, value: BitSeq)

  // Bytes i, i+1, ... of a timestamp: seven bits each, eight in the ninth.
  function TimestampBytes(s: State, ts: DoubleWord, i: nat): (r: Field)
    requires i <= 8
    ensures Keeps(s, r.st)
    ensures r.FieldDone? ==> |r.value| == 64
    decreases 8 - i
  {
    match Get(s)
    case Exited(t) => FieldExit(t)
    case Running(t) =>
      var ts' := Splice(ts, 7 * i, t.data[..if i == 8 then 8 else 7]);
      if t.data[7] && i < 8 then TimestampBytes(t, ts', i + 1) else FieldDone(t, ts')
  }

  function TimestampPacket(s: State): (r: Outcome)
    ensures Keeps(s, r.st)
  {
    match TimestampBytes(s, s.timestamp, 0)
    case FieldExit(t) => Exited(t)
    case FieldDone(t, ts) => Running(t.Print(Timestamp(t.Synced(), ts)).(timestamp := ts))
  }

  // Up to n bytes of seven bits each, the first shifted up by at.
  function CountBytes(s: State, count: Word, at: nat, n: nat): (f: Field)
    requires 0 < n
    ensures f.FieldDone? ==> |f.value| == 32
    ensures Keeps(s, f.st)
    decreases n
  {
    match Get(s)
    case Exited(t) => FieldExit(t)
    case Running(t) =>
      var count' := OrAt(count, at, t.data[..7]);
      if t.data[7] && 1 < n then CountBytes(t, count', at + 7, n - 1) else FieldDone(t, count')
  }

  function CCount(s: State): (r: Outcome)
    ensures Keeps(s, r.st)
  {
    match CountBytes(s, Zeros(32), 0, 5)
    case FieldExit(t) => Exited(t)
    case FieldDone(t, count) => Running(t.Print(CycleCount(t.Synced(), count)))
  }

  // The four count bits of a PFT cycle-count header, and its continuation flag in bit 6.
  function CycleCountField(s: State): (f: Field)
    ensures f.FieldDone? ==> |f.value| == 32
    ensures Keeps(s, f.st)
  {
    var count := s.data[2..6] + Zeros(28);
    if s.data[6] then CountBytes(s, count, 4, 4) else FieldDone(s, count)
  }

  function CycleCountPft(s: State): (r: Outcome)
    ensures Keeps(s, r.st)
  {
    match CycleCountField(s)
    case FieldExit(t) => Exited(t)
    case FieldDone(t, count) => Running(t.Print(CycleCount(t.Synced(), count)))
  }

  // n whole bytes, least significant first, added into value from bit at on.
  function WholeBytes(s: State, value: Word, at: nat, n: nat): (f: Field)
    ensures f.FieldDone? ==> |f.value| == 32
    ensures Keeps(s, f.st)
    decreases n
  {
    if n == 0 then FieldDone(s, value) else
    match Get(s)
    case Exited(t) => FieldExit(t)
    case Running(t) => WholeBytes(t, OrAt(value, at, t.data), at + 8, n - 1)
  }

  /** ---- Instruction synchronisation ---- */

  function UpdateAddr(s: State, ib: Octet, addr: Word): (r: State)
    ensures Keeps(s, r)
  {
    var mode := if ib[4] then Jazelle else if addr[0] then Thumb else Arm;
    var addr' := if mode.Thumb? then addr[0 := false] else addr;
    s.(mode := mode, iaddr := addr', iaddrValid := Ones(32), pc := addr', branchCount := 0)
  }

  function ISyncPacket(c: Config, s: State): (r: Outcome)
    ensures Keeps(s, r.st)
  {
    match WholeBytes(s, Zeros(32), 0, c.contextIdBytes)
    case FieldExit(t) => Exited(t)
    case FieldDone(t, context) =>
      var u :- Get(t);
      match WholeBytes(u, Zeros(32), 0, 4)
      case FieldExit(v) => Exited(v)
      case FieldDone(v, addr) =>
        var w := UpdateAddr(v, u.data, addr);
        Running(w.Print(ISync(w.Synced(), context, u.data, w.iaddr)))
  }

  function ISyncCycleCount(c: Config, s: State): (r: Outcome)
    ensures Keeps(s, r.st)
  {
    var t :- CCount(s);
    ISyncPacket(c, t)
  }

  function ISyncPft(c: Config, s: State): (r: Outcome)
    ensures Keeps(s, r.st)
  {
    match WholeBytes(s, Zeros(32), 0, 4)
    case FieldExit(t) => Exited(t)
    case FieldDone(t, addr) =>
      var u :- Get(t);
      var v := UpdateAddr(u, u.data, addr);
      var w :- if c.cycleAccurate && (u.data[5] || u.data[6]) then NextCycleCount(v) else Running(v);
      match WholeBytes(w, Zeros(32), 0, c.contextIdBytes)
      case FieldExit(x) => Exited(x)
      case FieldDone(x, context) => Running(x.Print(ISync(x.Synced(), context, u.data, x.iaddr)))
  }

  function NextCycleCount(s: State): (r: Outcome)
    ensures Keeps(s, r.st)
  {
    var t :- Get(s);
    CycleCountPft(t)
  }

  function BranchPft(c: Config, s: State): (r: Outcome)
    ensures Keeps(s, r.st)
  {
    var t :- Branch(c, s);
    if c.cycleAccurate then NextCycleCount(t) else Running(t)
  }

  function TimestampPft(c: Config, s: State): (r: Outcome)
    ensures Keeps(s, r.st)
  {
    var t :- TimestampPacket(s);
    if c.cycleAccurate then NextCycleCount(t) else Running(t)
  }

  function ContextIdPacket(c: Config, s: State): (r: Outcome)
    ensures Keeps(s, r.st)
  {
    match WholeBytes(s, Zeros(32), 0, c.contextIdBytes)
    case FieldExit(t) => Exited(t)
    case FieldDone(t, context) => Running(t.Print(ContextId(t.Synced(), context)))
  }

  function VmidPacket(s: State): (r: Outcome)
    ensures Keeps(s, r.st)
  {
    var t :- Get(s);
    Running(t.Print(Vmid(t.Synced(), t.data)))
  }

  /** ---- Data ---- */

  // Bytes i, i+1, ..., 4 of a data address: seven bits each.
  function DataAddressBytes(s: State, i: nat): (r: Outcome)
    requires i <= 4
    ensures Keeps(s, r.st)
    decreases 4 - i
  {
    var t :- Get(s);
    var u := t.(daddr := Splice(t.daddr, 7 * i, t.data[..7]));
    if u.data[7] && i < 4 then DataAddressBytes(u, i + 1) else Running(u)
  }

  function DataPacket(s: State): (r: Outcome)
    ensures Keeps(s, r.st)
  {
    var size := ToNat(s.data[2..4]);
    var hasAddr := s.data[5];
    var t :- if hasAddr then DataAddressBytes(s, 0) else Running(s);
    match WholeBytes(t, Zeros(32), 0, size)
    case FieldExit(u) => Exited(u)
    case FieldDone(u, value) =>
      Running(u.Print(NormalData(u.Synced(), value, size, if hasAddr then Some(u.daddr) else None)))
  }

  /** ---- P-headers ---- */

  function BadPHeader(s: State): (r: State)
    ensures Keeps(s, r)
  {
    LoseSync(s).Print(BadHeader)
  }

  function PHeaderCycleAccurate(c: Config, s: State): (r: State)
    ensures Keeps(s, r)
  {
    var d := s.data;
    if d == [false, false, false, false, false, false, false, true] then
      // 80: one wait
      s.(waitCount := s.waitCount + 1)
    else if d[7] && !d[5] && !d[1] && !d[0] then
      // 1x0xxx00: up to seven executed, then perhaps one not executed, a wait before each
      var t := PrintMany(c, s, true, ToNat(d[2..5]), true);
      PrintMany(c, t, false, if d[6] then 1 else 0, true)
    else if d[7] && !d[6] && !d[5] && !d[4] && d[1] && !d[0] then
      // 1000xx10: one wait, two instructions
      var t := PrintInstruction(c, s.(waitCount := s.waitCount + 1), !d[3]);
      PrintInstruction(c, t, !d[2])
    else if d[7] && d[5] && !d[1] && !d[0] then
      // 1x1xxx00: up to eight waits, then perhaps one executed
      var t := s.(waitCount := s.waitCount + ToNat(d[2..5]) + 1);
      PrintMany(c, t, true, if d[6] then 1 else 0, false)
    else if d[7] && !d[6] && !d[5] && d[4] && !d[3] && d[1] && !d[0] then
      // 10010x10: one instruction
      PrintInstruction(c, s, !d[2])
    else
      BadPHeader(s)
  }

  function PHeaderNonCycleAccurate(c: Config, s: State): (r: State)
    ensures Keeps(s, r)
  {
    var d := s.data;
    if d[7] && !d[1] && !d[0] then
      // 1xxxxx00: up to fifteen executed, then perhaps one not executed
      var t := PrintMany(c, s, true, ToNat(d[2..6]), false);
      PrintMany(c, t, false, if d[6] then 1 else 0, false)
    else if d[7] && !d[6] && !d[5] && !d[4] && d[1] && !d[0] then
      // 1000xx10: two instructions
      PrintInstruction(c, PrintInstruction(c, s, !d[3]), !d[2])
    else
      BadPHeader(s)
  }

  function PHeader(c: Config, s: State): (r: State)
    ensures Keeps(s, r)
  {
    if c.cycleAccurate then PHeaderCycleAccurate(c, s) else PHeaderNonCycleAccurate(c, s)
  }

  /** ---- PFT atoms ---- */

  function AtomCycleAccurate(c: Config, s: State): (r: Outcome)
    ensures Keeps(s, r.st)
  {
    var t :- CycleCountPft(s);
    Running(PrintInstruction(c, t, !s.data[1]))
  }

  // The byte shifted up by k, as a byte.
  function Shifted(d: Octet, k: nat): Octet
    requires k <= 8
  {
    Zeros(k) + d[..8 - k]
  }

  lemma ShiftOnce(d: Octet, k: nat)
    requires k < 8
    ensures [false] + Shifted(d, k)[..7] == Shifted(d, k + 1) && Shifted(d, k)[7] == d[7 - k]
  {}

  // The number of atoms in a header: the highest bit set among 6..2 marks the end.
  function AtomCount(d: Octet, i: nat): (n: nat)
    requires i <= 5
    ensures n <= i
  {
    if i == 0 then 0 else if d[i + 1] then i else AtomCount(d, i - 1)
  }

  // The atoms in bits n, ..., 1; a clear bit is an executed instruction.
  function Atoms(c: Config, s: State, d: Octet, n: nat): (r: State)
    requires n <= 5
    ensures Keeps(s, r)
    decreases n
  {
    if n == 0 then s else Atoms(c, PrintInstruction(c, s, !d[n]), d, n - 1)
  }

  function Atom(c: Config, s: State): (r: Outcome)
    ensures Keeps(s, r.st)
  {
    if c.cycleAccurate then AtomCycleAccurate(c, s) else Running(Atoms(c, s, s.data, AtomCount(s.data, 5)))
  }
}
