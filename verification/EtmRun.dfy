/** The main loop of the trace decoder: header byte, table row, packet decoder, until the stream ends. */
module EtmRun {
  import opened Octets
  import opened WordBits
  import opened EtmDecode
  import opened EtmTable

  function Dispatch(c: Config, s: State, h: Handler): (r: Outcome)
    ensures Keeps(s, r.st)
  {
    match h
    case HBranch => Branch(c, s)
    case HAsync => Running(s)
    case HCCount => CCount(s)
    case HISync => ISyncPacket(c, s)
    case HISyncCC => ISyncCycleCount(c, s)
    case HVmid => VmidPacket(s)
    case HData => DataPacket(s)
    case HTimestamp => TimestampPacket(s)
    case HIgnore => Running(s)
    case HContextId => ContextIdPacket(c, s)
    case HPHeader => Running(PHeader(c, s))
    case HISyncPft => ISyncPft(c, s)
    case HAtom => Atom(c, s)
    case HBranchPft => BranchPft(c, s)
    case HWaypoint => WaypointUpdate(c, s)
    case HTrigger => Running(s.Print(Trigger(s.Synced())))
    case HTimestampPft => TimestampPft(c, s)
    case HExceptRet => Running(s.Print(ExceptionReturn(s.Synced())))
    case HNone => Running(LoseSync(s).Print(NotHandled(s.data)))
  }

  // One round of the main loop.
  function Round(c: Config, p: Protocol, s: State): (r: Outcome)
    ensures Keeps(s, r.st)
    ensures r.Running? ==> |r.st.avail| < |s.avail|
  {
    var t :- Get(s);
    Dispatch(c, t, HandlerOf(p, t.data))
  }

  // The main loop: it ends because every round that goes on has taken a byte.
  function Run(c: Config, p: Protocol, s: State): State
    decreases |s.avail|
  {
    match Round(c, p, s)
    case Exited(t) => t
    case Running(t) => Run(c, p, t)
  }

  // n rounds, fewer if the stream ends.
  function Rounds(c: Config, p: Protocol, s: State, n: nat): Outcome {
    if n == 0 then Running(s) else
    match Rounds(c, p, s, n - 1)
    case Exited(t) => Exited(t)
    case Running(t) => Round(c, p, t)
  }

  // In every state the loop reaches, sync counts the zero bytes delivered since it was last lost,
  // and n rounds that go on have taken at least n bytes.
  lemma {:induction false} EveryRound(c: Config, p: Protocol, s: State, n: nat)
    requires SyncCounts(s)
    ensures SyncCounts(Rounds(c, p, s, n).st)
    ensures Rounds(c, p, s, n).Running? ==> |Rounds(c, p, s, n).st.avail| + n <= |s.avail|
  {
    hide Round, SyncCounts;
    if n != 0 { EveryRound(c, p, s, n - 1); }
  }

  // A stream of k bytes is decoded in at most k + 1 rounds: the last finds the stream empty.
  lemma StreamEnds(c: Config, p: Protocol, s: State)
    requires SyncCounts(s)
    ensures Rounds(c, p, s, |s.avail| + 1) == Exited(Run(c, p, s))
  {
    EveryRound(c, p, s, |s.avail| + 1);
    RoundsReachRun(c, p, s, |s.avail| + 1);
  }

  lemma {:induction false} RoundsReachRun(c: Config, p: Protocol, s: State, n: nat)
    ensures match Rounds(c, p, s, n)
            case Exited(t) => Run(c, p, s) == t
            case Running(t) => Run(c, p, s) == Run(c, p, t)
  {
    hide Round;
    if n != 0 { RoundsReachRun(c, p, s, n - 1); }
  }

  /** ---- The end of the stream ---- */

  // The whole stream is taken, and the waits pending are printed last.
  predicate AtEnd(t: State) {
    t.avail == [] && (t.waitCount != 0 ==> t.lines != [] && t.lines[|t.lines| - 1] == FinalWait(t.waitCount))
  }

  predicate EndsWell(r: Outcome) {
    r.Exited? ==> AtEnd(r.st)
  }

  lemma GetEnds(s: State)
    ensures EndsWell(Get(s))
  {}

  lemma {:induction false} AddressEnds(c: Config, s: State, addr: Word, validMask: Word, count: nat)
    requires 1 <= count <= 5
    ensures AddressBytes(c, s, addr, validMask, count).LoopExit? ==> AtEnd(AddressBytes(c, s, addr, validMask, count).st)
    decreases 5 - count
  {
    hide Get, Splice, XorOnes, SyncCounts, AtEnd;
    GetEnds(s);
    if s.data[7] && count < 5 && Get(s).Running? {
      var t := Get(s).st;
      var width := if c.altBranch && !t.data[7] then 6 else 7;
      AddressEnds(c, t, Splice(addr, 7 * count - 1, t.data[..width]), XorOnes(validMask, 7 * count - 1, width), count + 1);
    }
  }

  lemma BranchAddressEnds(c: Config, s: State)
    ensures GetBranchAddr(c, s).BranchExit? ==> AtEnd(GetBranchAddr(c, s).st)
  {
    hide AddressBytes, SetAddress, PrintInstruction, AtEnd, SyncCounts, Splice, Shr;
    AddressEnds(c, s, Splice(Shr(s.iaddr, s.mode.Shift()), 0, s.data[1..7]), Ones(6) + Zeros(26), 1);
  }

  lemma BranchEnds(c: Config, s: State)
    ensures EndsWell(Branch(c, s)) && EndsWell(WaypointUpdate(c, s))
  {
    hide GetBranchAddr, Get, AtEnd, SyncCounts;
    BranchAddressEnds(c, s);
    var t := GetBranchAddr(c, s).st;
    GetEnds(t);
    GetEnds(Get(t).st);
    GetEnds(s);
    BranchAddressEnds(c, Get(s).st);
    GetEnds(GetBranchAddr(c, Get(s).st).st);
  }

  predicate FieldEnds(f: Field) {
    f.FieldExit? ==> AtEnd(f.st)
  }

  lemma {:induction false} TimestampEnds(s: State, ts: DoubleWord, i: nat)
    requires i <= 8
    ensures FieldEnds(TimestampBytes(s, ts, i))
    decreases 8 - i
  {
    hide Get, Splice, AtEnd, SyncCounts;
    GetEnds(s);
    if Get(s).Running? && Get(s).st.data[7] && i < 8 {
      TimestampEnds(Get(s).st, Splice(ts, 7 * i, Get(s).st.data[..7]), i + 1);
    }
  }

  lemma {:induction false} CountEnds(s: State, count: Word, at: nat, n: nat)
    requires 0 < n
    ensures FieldEnds(CountBytes(s, count, at, n))
    decreases n
  {
    hide Get, OrAt, AtEnd, SyncCounts;
    GetEnds(s);
    if Get(s).Running? && Get(s).st.data[7] && 1 < n {
      CountEnds(Get(s).st, OrAt(count, at, Get(s).st.data[..7]), at + 7, n - 1);
    }
  }

  lemma {:induction false} WholeEnds(s: State, value: Word, at: nat, n: nat)
    ensures FieldEnds(WholeBytes(s, value, at, n))
    decreases n
  {
    hide Get, OrAt, AtEnd, SyncCounts;
    if n != 0 {
      GetEnds(s);
      if Get(s).Running? { WholeEnds(Get(s).st, OrAt(value, at, Get(s).st.data), at + 8, n - 1); }
    }
  }

  lemma {:induction false} DataAddressEnds(s: State, i: nat)
    requires i <= 4
    ensures EndsWell(DataAddressBytes(s, i))
    decreases 4 - i
  {
    hide Get, Splice, AtEnd, SyncCounts;
    GetEnds(s);
    if Get(s).Running? && Get(s).st.data[7] && i < 4 {
      var t := Get(s).st;
      DataAddressEnds(t.(daddr := Splice(t.daddr, 7 * i, t.data[..7])), i + 1);
    }
  }

  lemma CountsEnd(s: State)
    ensures EndsWell(CCount(s)) && EndsWell(CycleCountPft(s)) && EndsWell(NextCycleCount(s))
  {
    hide CountBytes, Get, AtEnd, SyncCounts;
    CountEnds(s, Zeros(32), 0, 5);
    CountEnds(s, s.data[2..6] + Zeros(28), 4, 4);
    GetEnds(s);
    var t := Get(s).st;
    CountEnds(t, t.data[2..6] + Zeros(28), 4, 4);
  }

  lemma ISyncEnds(c: Config, s: State)
    ensures EndsWell(ISyncPacket(c, s)) && EndsWell(ContextIdPacket(c, s))
  {
    hide WholeBytes, Get, AtEnd, SyncCounts, UpdateAddr;
    WholeEnds(s, Zeros(32), 0, c.contextIdBytes);
    var t := WholeBytes(s, Zeros(32), 0, c.contextIdBytes).st;
    GetEnds(t);
    WholeEnds(Get(t).st, Zeros(32), 0, 4);
  }

  lemma ISyncPftEnds(c: Config, s: State)
    ensures EndsWell(ISyncPft(c, s))
  {
    hide WholeBytes, Get, AtEnd, SyncCounts, UpdateAddr, NextCycleCount;
    WholeEnds(s, Zeros(32), 0, 4);
    var f := WholeBytes(s, Zeros(32), 0, 4);
    GetEnds(f.st);
    if f.FieldDone? && Get(f.st).Running? {
      var u := Get(f.st).st;
      var v := UpdateAddr(u, u.data, f.value);
      CountsEnd(v);
      WholeEnds(v, Zeros(32), 0, c.contextIdBytes);
      WholeEnds(NextCycleCount(v).st, Zeros(32), 0, c.contextIdBytes);
    }
  }

  lemma DataEnds(s: State)
    ensures EndsWell(DataPacket(s)) && EndsWell(VmidPacket(s)) && EndsWell(TimestampPacket(s))
  {
    hide WholeBytes, DataAddressBytes, TimestampBytes, Get, AtEnd, SyncCounts, ToNat;
    DataAddressEnds(s, 0);
    WholeEnds(s, Zeros(32), 0, ToNat(s.data[2..4]));
    WholeEnds(DataAddressBytes(s, 0).st, Zeros(32), 0, ToNat(s.data[2..4]));
    GetEnds(s);
    TimestampEnds(s, s.timestamp, 0);
  }

  lemma DispatchEnds(c: Config, s: State, h: Handler)
    ensures EndsWell(Dispatch(c, s, h))
  {
    hide Branch, WaypointUpdate, CCount, CycleCountPft, NextCycleCount, ISyncPacket, ContextIdPacket, ISyncPft, DataPacket,
         VmidPacket, TimestampPacket, Atoms, PHeader, AtEnd, SyncCounts, PrintInstruction;
    BranchEnds(c, s);
    CountsEnd(s);
    ISyncEnds(c, s);
    ISyncEnds(c, CCount(s).st);
    ISyncPftEnds(c, s);
    DataEnds(s);
    CountsEnd(Branch(c, s).st);
    CountsEnd(TimestampPacket(s).st);
  }

  // Any stream at all, cut off anywhere: every byte of it is taken, and the waits pending are printed last.
  lemma {:induction false} RunTakesAll(c: Config, p: Protocol, s: State)
    ensures AtEnd(Run(c, p, s))
    decreases |s.avail|
  {
    hide Dispatch, AtEnd, Get, HandlerOf;
    GetEnds(s);
    if Get(s).Running? { DispatchEnds(c, Get(s).st, HandlerOf(p, Get(s).st.data)); }
    if Round(c, p, s).Running? { RunTakesAll(c, p, Round(c, p, s).st); }
  }

  /** ---- Which headers start which packets ---- */

  lemma EtmPHeader(b: Octet)
    requires b[7] && !b[0]
    ensures HandlerOf(Etm33, b) == HPHeader
  {
    assert ToByte(b) & 1 == 0 && ToByte(b) & 0x80 != 0;
    HandlerByIndex(Etm33, b);
  }

  lemma HandlerByIndex(p: Protocol, b: Octet)
    ensures HandlerOf(p, b) == RowAt(p, RowIndex(p, ToByte(b))).handler
  {
    RowIsIndex(p, ToByte(b), 0);
    FirstMatchIsIndex(p, ToByte(b), 0);
  }
}
