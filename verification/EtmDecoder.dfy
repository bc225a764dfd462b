/** The trace decoder as the program runs it: one object whose fields the routines update, with the
    formatter reader underneath. Every routine is tied to its function in EtmDecode by way of Snapshot. */
module EtmDecoder {
  import opened Octets
  import opened WordBits
  import opened Formatter
  import opened EtmTable
  import D = EtmDecode
  import R = EtmRun

  lemma StreamStep(bytes: seq<Octet>)
    ensures StreamSymbols(bytes) == if |bytes| < 16 then [] else FrameSymbols(bytes[..16], 0) + StreamSymbols(bytes[16..])
  {}

  lemma PickNothing(current: nat, next: nat, mask: Word)
    ensures Pick(Tag([], current, next), mask) == []
  {}

  // What byte i of the frame in the buffer, the head of the rest, does to the bytes to deliver.
  lemma PickStep(rest: seq<Symbol>, frame: seq<Octet>, i: nat, current: nat, next: nat, mask: Word)
    requires |frame| == 16 && i < 15 && rest != [] && rest[0] == SymbolAt(frame, i)
    ensures var id := ToNat(frame[i][1..]);
            i % 2 == 0 && frame[i][0] ==>
              Pick(Tag(rest, current, next), mask)
              == if id == current then Pick(Tag(rest[1..], current, next), mask)
                 else Pick(Tag(rest[1..], id, if frame[15][i / 2] then next else id), mask)
    ensures var value := if i % 2 == 0 then [frame[15][i / 2]] + frame[i][1..] else frame[i];
            !(i % 2 == 0 && frame[i][0]) ==>
              Pick(Tag(rest, current, next), mask)
              == (if Matches(mask, next) then [value] else []) + Pick(Tag(rest[1..], current, current), mask)
  {}

  // Taking one symbol off the frame in the buffer.
  lemma NextSymbol(frame: seq<Octet>, i: nat, later: seq<Symbol>, rest: seq<Symbol>, pending: seq<Symbol>)
    requires |frame| == 16 && i < 15
    requires rest == FrameSymbols(frame, i) + later
    requires pending == (if (i + 1) % 15 == 0 then [] else FrameSymbols(frame, (i + 1) % 15)) + later
    ensures rest != [] && rest[0] == SymbolAt(frame, i) && rest[1..] == pending
  {
    hide SymbolAt;
    var tail := FrameSymbols(frame, i + 1);
    assert FrameSymbols(frame, i) == [SymbolAt(frame, i)] + tail;
    assert rest == [SymbolAt(frame, i)] + (tail + later);
    if i == 14 { assert tail == []; }
  }

  class Decoder {
    const config: D.Config
    const protocol: Protocol
    const formatter: bool
    const sourceMatch: Word
    const input: seq<Octet>
    const packet: array<Octet>

    var position: nat
    var formatterIndex: nat
    var sourceId: nat

    var data: Octet
    var iaddr: Word
    var iaddrValid: Word
    var pc: Word
    var mode: D.Mode
    var branchCount: nat
    var waitCount: nat
    var timestamp: DoubleWord
    var daddr: Word
    var sync: int
    var lines: seq<D.Line>
    ghost var sinceReset: seq<Octet>

    ghost predicate Valid()
      reads this`position, this`formatterIndex
    {
      packet.Length == 16 && position <= |input| && formatterIndex < 15
    }

    // What the formatter has still to read, the rest of the frame in the buffer first.
    ghost function Pending(): seq<Symbol>
      reads this`position, this`formatterIndex, packet
      requires Valid()
    {
      (if formatterIndex == 0 then [] else FrameSymbols(packet[..], formatterIndex)) + StreamSymbols(input[position..])
    }

    // The bytes that will be delivered from here on.
    ghost function Avail(): seq<Octet>
      reads this`position, this`formatterIndex, this`sourceId, packet
      requires Valid()
    {
      if formatter then Pick(Tag(Pending(), sourceId, sourceId), sourceMatch) else input[position..]
    }

    ghost function Snapshot(): D.State
      reads this, packet
      requires Valid()
    {
      D.State(Avail(), data, iaddr, iaddrValid, pc, mode, branchCount, waitCount, timestamp, daddr, sync, sinceReset, lines)
    }

    // The state a routine leaves is the one its function says; going tells whether the program is still running.
    ghost predicate Leaves(going: bool, o: D.Outcome)
      reads this, packet
    {
      Valid() && o == if going then D.Running(Snapshot()) else D.Exited(Snapshot())
    }

    constructor (config: D.Config, protocol: Protocol, formatter: bool, sourceMatch: Word, input: seq<Octet>)
      ensures Valid() && fresh(packet)
      ensures this.config == config && this.protocol == protocol && this.formatter == formatter
      ensures this.sourceMatch == sourceMatch && this.input == input
      ensures Avail() == if formatter then Pick(Tag(StreamSymbols(input), 0, 0), sourceMatch) else input
      ensures lines == [] && waitCount == 0 && sync == 0 && sinceReset == [] && mode == D.Jazelle
      ensures iaddr == pc == iaddrValid == Zeros(32) && timestamp == Zeros(64) && branchCount == 0
    {
      this.config, this.protocol, this.formatter := config, protocol, formatter;
      this.sourceMatch, this.input := sourceMatch, input;
      packet := new Octet[16](i => Zeros(8));
      position, formatterIndex, sourceId := 0, 0, 0;
      data, iaddr, iaddrValid, pc, mode := Zeros(8), Zeros(32), Zeros(32), Zeros(32), D.Jazelle;
      branchCount, waitCount, timestamp, daddr := 0, 0, Zeros(64), Zeros(32);
      sync, lines, sinceReset := 0, [], [];
      new;
      assert input[0..] == input;
      assert [] + StreamSymbols(input) == StreamSymbols(input);
    }

    /** ---- Bytes ---- */

    // Reads the next frame into the buffer; false when the input ends first.
    method ReadFrame() returns (got: bool)
      requires Valid() && formatterIndex == 0
      modifies this`position, packet
      ensures Valid()
      ensures got ==> 16 <= |input| - old(position) && position == old(position) + 16
                      && packet[..] == input[old(position)..old(position) + 16]
      ensures got ==> old(Pending()) == FrameSymbols(packet[..], 0) + StreamSymbols(input[position..])
      ensures !got ==> |input| - old(position) < 16 && position == |input| && old(Pending()) == Pending() == []
    {
      hide FrameSymbols, StreamSymbols;
      ghost var before := input[position..];
      StreamStep(before);
      StreamStep([]);
      var i := 0;
      while i < 16
        invariant 0 <= i <= 16 && position == old(position) + i <= |input|
        invariant packet[..i] == input[old(position)..position]
      {
        if position == |input| {
          assert input[position..] == [];
          return false;
        }
        packet[i] := input[position];
        position := position + 1;
        i := i + 1;
      }
      assert packet[..] == packet[..16] == before[..16] && before[16..] == input[position..];
      got := true;
    }

    // The next byte of a selected source, or nothing at the end of the input.
    method GetByteFromFormatter() returns (ch: D.Option<Octet>)
      requires Valid() && formatter
      modifies this`position, this`formatterIndex, this`sourceId, packet
      ensures Valid()
      ensures ch.Some? ==> old(Avail()) == [ch.value] + Avail()
      ensures ch.None? ==> old(Avail()) == [] && Avail() == []
    {
      hide FrameSymbols, StreamSymbols, Tag, Pick, SymbolAt, ToNat, Matches;
      var source := sourceId;
      ghost var rest := Pending();
      while true
        invariant Valid() && rest == Pending()
        invariant Pick(Tag(rest, sourceId, source), sourceMatch) == old(Avail())
        decreases |input| - position, if formatterIndex == 0 then 0 else 15 - formatterIndex
      {
        if formatterIndex == 0 {
          var got := ReadFrame();
          if !got {
            PickNothing(sourceId, source, sourceMatch);
            PickNothing(sourceId, sourceId, sourceMatch);
            return D.None;
          }
        }
        var i := formatterIndex;
        var b := packet[i];
        formatterIndex := (i + 1) % 15;
        NextSymbol(packet[..], i, StreamSymbols(input[position..]), rest, Pending());
        PickStep(rest, packet[..], i, sourceId, source, sourceMatch);
        rest := rest[1..];
        if i % 2 == 0 {
          var ebit := packet[15][i / 2];
          if b[0] {
            var id := ToNat(b[1..]);
            if sourceId != id {
              sourceId := id;
              if !ebit { source := id; }
            }
            continue;
          }
          b := [ebit] + b[1..];
        }
        if Matches(sourceMatch, source) {
          return D.Some(b);
        }
        source := sourceId;
      }
    }

    // The next byte of the stream, formatted or not.
    method NextByte() returns (ch: D.Option<Octet>)
      requires Valid()
      modifies this`position, this`formatterIndex, this`sourceId, packet
      ensures Valid()
      ensures ch.Some? ==> old(Avail()) == [ch.value] + Avail()
      ensures ch.None? ==> old(Avail()) == [] && Avail() == []
    {
      if formatter {
        ch := GetByteFromFormatter();
      } else if position == |input| {
        ch := D.None;
      } else {
        ch := D.Some(input[position]);
        assert input[position..] == [input[position]] + input[position + 1..];
        position := position + 1;
      }
    }

    method GetByte() returns (going: bool)
      requires Valid()
      modifies this, packet
      ensures Leaves(going, D.Get(old(Snapshot())))
    {
      hide D.Keeps, D.ZeroBytes, D.SyncCounts, Avail, Pending, Pick, Tag;
      ghost var avail := Avail();
      var ch := NextByte();
      if ch.None? {
        if waitCount != 0 { lines := lines + [D.FinalWait(waitCount)]; }
        return false;
      }
      ghost var later := Avail();
      assert avail[0] == ch.value && avail[1..] == later;
      data := ch.value;
      sinceReset := sinceReset + [ch.value];
      if ch.value == Zeros(8) && sync <= 0 {
        if sync == -4 { sync := 1; } else { sync := sync - 1; }
      }
      assert Avail() == later;
      going := true;
    }

    /** ---- Instructions ---- */

    method NextPc() returns (ret: Word)
      requires Valid()
      modifies this`pc, this`branchCount
      ensures ret == old(pc) && Snapshot() == D.NextPc(config, old(Snapshot()))
    {
      hide D.SyncCounts, D.Keeps, D.ZeroBytes, ToNat, Avail;
      ret := pc;
      if config.programFlowOnly {
        branchCount := branchCount + 1;
      } else {
        pc := D.AddTo(pc, Pow2(mode.Shift()));
      }
    }

    method PrintInstruction(executed: bool)
      requires Valid()
      modifies this`pc, this`branchCount, this`waitCount, this`lines
      ensures Snapshot() == D.PrintInstruction(config, old(Snapshot()), executed)
    {
      hide D.SyncCounts, D.Keeps, D.ZeroBytes, ToNat, Avail;
      var waited := waitCount;
      var at := NextPc();
      if waited != 0 { waitCount := 0; }
      var points := if config.programFlowOnly then D.Some(branchCount) else D.None;
      lines := lines + [D.Instruction(sync > 0, executed, at, points, iaddrValid, waited)];
    }

    method PrintMany(executed: bool, n: nat, wait: bool)
      requires Valid()
      modifies this`pc, this`branchCount, this`waitCount, this`lines
      ensures Snapshot() == D.PrintMany(config, old(Snapshot()), executed, n, wait)
    {
      hide D.SyncCounts, D.Keeps, D.ZeroBytes, ToNat, D.PrintInstruction, Avail;
      var i := n;
      while 0 < i
        invariant 0 <= i <= n
        invariant D.PrintMany(config, Snapshot(), executed, i, wait)
               == D.PrintMany(config, old(Snapshot()), executed, n, wait)
      {
        i := i - 1;
        if wait { waitCount := waitCount + 1; }
        PrintInstruction(executed);
      }
    }

    /** ---- Branch addresses ---- */

    ghost predicate LeavesBranch(going: bool, exception: bool, r: D.BranchResult)
      reads this, packet
    {
      Valid() && r == if going then D.BranchDone(Snapshot(), exception) else D.BranchExit(Snapshot())
    }

    method GetBranchAddr() returns (going: bool, exception: bool)
      requires Valid()
      modifies this, packet
      ensures LeavesBranch(going, exception, D.GetBranchAddr(config, old(Snapshot())))
    {
      hide D.SyncCounts, D.Keeps, D.ZeroBytes, ToNat, D.PrintInstruction, D.Get, D.Splice, D.XorOnes, Shr, D.SetAddress, Avail;
      var addr: Word := D.Splice(Shr(iaddr, mode.Shift()), 0, data[1..7]);
      var count := 1;
      var validMask: Word := Ones(6) + Zeros(26);
      ghost var loop := D.AddressBytes(config, Snapshot(), addr, validMask, 1);
      while data[7] && count < 5
        invariant Valid() && 1 <= count <= 5
        invariant D.AddressBytes(config, Snapshot(), addr, validMask, count) == loop
      {
        going := GetByte();
        if !going { return false, false; }
        var width := if config.altBranch && !data[7] then 6 else 7;
        addr := D.Splice(addr, 7 * count - 1, data[..width]);
        validMask := D.XorOnes(validMask, 7 * count - 1, width);
        count := count + 1;
      }
      going := true;
      exception := (count == 5 || (config.altBranch && count > 1)) && data[6];
      if !exception && config.programFlowOnly { PrintInstruction(true); }
      SetAddress(addr, validMask, if count == 5 then D.FifthByteMode(data) else mode);
    }

    method SetAddress(to: Word, known: Word, newMode: D.Mode)
      requires Valid()
      modifies this`mode, this`iaddr, this`iaddrValid, this`pc, this`branchCount
      ensures Snapshot() == D.SetAddress(old(Snapshot()), to, known, newMode)
    {
      hide D.SyncCounts, D.Keeps, D.ZeroBytes, ToNat, Shl, Avail;
      mode := newMode;
      var addr, validMask := Shl(to, mode.Shift()), Shl(known, if mode.Arm? then 3 else mode.Shift());
      if ToNat(iaddrValid) < ToNat(validMask) { iaddrValid := validMask; }
      iaddr, pc, branchCount := addr, addr, 0;
    }

    method Branch() returns (going: bool)
      requires Valid()
      modifies this, packet
      ensures Leaves(going, D.Branch(config, old(Snapshot())))
    {
      hide D.SyncCounts, D.Keeps, D.ZeroBytes, ToNat, D.GetBranchAddr, D.Get, Avail;
      var exception;
      going, exception := GetBranchAddr();
      if !going { return; }
      var info: D.Option<Octet> := D.None;
      if exception {
        going := GetByte();
        if !going { return; }
        var exceptionData := data;
        if exceptionData[7] {
          going := GetByte();
          if !going { return; }
          exceptionData := D.OrOctets(exceptionData, data);
        }
        info := D.Some(exceptionData);
      }
      lines := lines + [D.BranchTo(sync > 0, iaddr, info, iaddrValid, mode)];
    }

    method WaypointUpdate() returns (going: bool)
      requires Valid()
      modifies this, packet
      ensures Leaves(going, D.WaypointUpdate(config, old(Snapshot())))
    {
      hide D.SyncCounts, D.Keeps, D.ZeroBytes, ToNat, D.GetBranchAddr, D.Get, Avail;
      going := GetByte();
      if !going { return; }
      var exception;
      going, exception := GetBranchAddr();
      if !going { return; }
      var info: D.Option<Octet> := D.None;
      if exception {
        going := GetByte();
        if !going { return; }
        info := D.Some(data);
      }
      lines := lines + [D.Waypoint(sync > 0, iaddr, info, iaddrValid, mode)];
    }

    /** ---- Variable-length fields ---- */

    ghost predicate LeavesField(going: bool, value: BitSeq, f: D.Field)
      reads this, packet
    {
      Valid() && f == if going then D.FieldDone(Snapshot(), value) else D.FieldExit(Snapshot())
    }

    method TimestampPacket() returns (going: bool)
      requires Valid()
      modifies this, packet
      ensures Leaves(going, D.TimestampPacket(old(Snapshot())))
    {
      hide D.SyncCounts, D.Keeps, D.ZeroBytes, ToNat, D.Get, D.Splice, Avail;
      var ts: DoubleWord := timestamp;
      var i := 0;
      ghost var field := D.TimestampBytes(Snapshot(), ts, 0);
      while true
        invariant Valid() && 0 <= i <= 8
        invariant D.TimestampBytes(Snapshot(), ts, i) == field
        decreases 8 - i
      {
        going := GetByte();
        if !going { return; }
        ts := D.Splice(ts, 7 * i, data[..if i == 8 then 8 else 7]);
        if !data[7] || i == 8 { break; }
        i := i + 1;
      }
      lines := lines + [D.Timestamp(sync > 0, ts)];
      timestamp := ts;
    }

    // The loop of both cycle-count routines.
    method CountBytes(start: Word, from: nat, n: nat) returns (going: bool, count: Word)
      requires Valid() && 0 < n
      modifies this, packet
      ensures LeavesField(going, count, D.CountBytes(old(Snapshot()), start, from, n))
    {
      hide D.SyncCounts, D.Keeps, D.ZeroBytes, ToNat, D.Get, D.OrAt, Avail;
      count := start;
      var at, left := from, n;
      ghost var field := D.CountBytes(Snapshot(), start, from, n);
      while true
        invariant Valid() && 0 < left
        invariant D.CountBytes(Snapshot(), count, at, left) == field
        decreases left
      {
        going := GetByte();
        if !going { return; }
        count := D.OrAt(count, at, data[..7]);
        if !data[7] || left == 1 { break; }
        at, left := at + 7, left - 1;
      }
    }

    method CCount() returns (going: bool)
      requires Valid()
      modifies this, packet
      ensures Leaves(going, D.CCount(old(Snapshot())))
    {
      hide D.SyncCounts, D.Keeps, D.ZeroBytes, ToNat, D.CountBytes, Avail;
      var count;
      going, count := CountBytes(Zeros(32), 0, 5);
      if !going { return; }
      lines := lines + [D.CycleCount(sync > 0, count)];
    }

    method CycleCountPft() returns (going: bool)
      requires Valid()
      modifies this, packet
      ensures Leaves(going, D.CycleCountPft(old(Snapshot())))
    {
      hide D.SyncCounts, D.Keeps, D.ZeroBytes, ToNat, D.CountBytes, Avail;
      var count: Word := data[2..6] + Zeros(28);
      going := true;
      if data[6] {
        going, count := CountBytes(count, 4, 4);
        if !going { return; }
      }
      lines := lines + [D.CycleCount(sync > 0, count)];
    }

    // The loop that collects whole bytes: context IDs, addresses and data.
    method WholeBytes(n: nat) returns (going: bool, value: Word)
      requires Valid()
      modifies this, packet
      ensures LeavesField(going, value, D.WholeBytes(old(Snapshot()), Zeros(32), 0, n))
    {
      hide D.SyncCounts, D.Keeps, D.ZeroBytes, ToNat, D.Get, D.OrAt, Avail;
      value := Zeros(32);
      ghost var field := D.WholeBytes(Snapshot(), Zeros(32), 0, n);
      var i := 0;
      going := true;
      while i < n
        invariant Valid() && i <= n && going
        invariant D.WholeBytes(Snapshot(), value, 8 * i, n - i) == field
      {
        going := GetByte();
        if !going { return; }
        value := D.OrAt(value, 8 * i, data);
        i := i + 1;
      }
    }

    /** ---- Instruction synchronisation ---- */

    method UpdateAddr(ib: Octet, to: Word)
      requires Valid()
      modifies this`mode, this`iaddr, this`iaddrValid, this`pc, this`branchCount
      ensures Snapshot() == D.UpdateAddr(old(Snapshot()), ib, to)
    {
      hide D.SyncCounts, D.Keeps, D.ZeroBytes, ToNat, Avail;
      var addr := to;
      if ib[4] {
        mode := D.Jazelle;
      } else if addr[0] {
        mode := D.Thumb;
        addr := addr[0 := false];
      } else {
        mode := D.Arm;
      }
      iaddr, iaddrValid, pc, branchCount := addr, Ones(32), addr, 0;
    }

    method ISyncPacket() returns (going: bool)
      requires Valid()
      modifies this, packet
      ensures Leaves(going, D.ISyncPacket(config, old(Snapshot())))
    {
      hide D.SyncCounts, D.Keeps, D.ZeroBytes, ToNat, D.WholeBytes, D.Get, D.UpdateAddr, Avail;
      var context, addr;
      going, context := WholeBytes(config.contextIdBytes);
      if !going { return; }
      going := GetByte();
      if !going { return; }
      var ib := data;
      going, addr := WholeBytes(4);
      if !going { return; }
      UpdateAddr(ib, addr);
      lines := lines + [D.ISync(sync > 0, context, ib, iaddr)];
    }

    method ISyncCycleCount() returns (going: bool)
      requires Valid()
      modifies this, packet
      ensures Leaves(going, D.ISyncCycleCount(config, old(Snapshot())))
    {
      hide D.SyncCounts, D.Keeps, D.ZeroBytes, ToNat, D.CCount, D.ISyncPacket, Avail;
      going := CCount();
      if !going { return; }
      going := ISyncPacket();
    }

    method ISyncPft() returns (going: bool)
      requires Valid()
      modifies this, packet
      ensures Leaves(going, D.ISyncPft(config, old(Snapshot())))
    {
      hide D.SyncCounts, D.Keeps, D.ZeroBytes, ToNat, D.WholeBytes, D.Get, D.UpdateAddr, D.NextCycleCount, Avail;
      var addr, context;
      going, addr := WholeBytes(4);
      if !going { return; }
      going := GetByte();
      if !going { return; }
      var ib := data;
      UpdateAddr(ib, addr);
      if config.cycleAccurate && (ib[5] || ib[6]) {
        going := NextCycleCount();
        if !going { return; }
      }
      going, context := WholeBytes(config.contextIdBytes);
      if !going { return; }
      lines := lines + [D.ISync(sync > 0, context, ib, iaddr)];
    }

    method NextCycleCount() returns (going: bool)
      requires Valid()
      modifies this, packet
      ensures Leaves(going, D.NextCycleCount(old(Snapshot())))
    {
      hide D.SyncCounts, D.Keeps, D.ZeroBytes, ToNat, D.Get, D.CycleCountPft, Avail;
      going := GetByte();
      if !going { return; }
      going := CycleCountPft();
    }

    method BranchPft() returns (going: bool)
      requires Valid()
      modifies this, packet
      ensures Leaves(going, D.BranchPft(config, old(Snapshot())))
    {
      hide D.SyncCounts, D.Keeps, D.ZeroBytes, ToNat, D.Branch, D.NextCycleCount, Avail;
      going := Branch();
      if !going { return; }
      if config.cycleAccurate { going := NextCycleCount(); }
    }

    method TimestampPft() returns (going: bool)
      requires Valid()
      modifies this, packet
      ensures Leaves(going, D.TimestampPft(config, old(Snapshot())))
    {
      hide D.SyncCounts, D.Keeps, D.ZeroBytes, ToNat, D.TimestampPacket, D.NextCycleCount, Avail;
      going := TimestampPacket();
      if !going { return; }
      if config.cycleAccurate { going := NextCycleCount(); }
    }

    method ContextIdPacket() returns (going: bool)
      requires Valid()
      modifies this, packet
      ensures Leaves(going, D.ContextIdPacket(config, old(Snapshot())))
    {
      hide D.SyncCounts, D.Keeps, D.ZeroBytes, ToNat, D.WholeBytes, Avail;
      var context;
      going, context := WholeBytes(config.contextIdBytes);
      if !going { return; }
      lines := lines + [D.ContextId(sync > 0, context)];
    }

    method VmidPacket() returns (going: bool)
      requires Valid()
      modifies this, packet
      ensures Leaves(going, D.VmidPacket(old(Snapshot())))
    {
      hide D.SyncCounts, D.Keeps, D.ZeroBytes, ToNat, D.Get, Avail;
      going := GetByte();
      if !going { return; }
      lines := lines + [D.Vmid(sync > 0, data)];
    }

    method DataPacket() returns (going: bool)
      requires Valid()
      modifies this, packet
      ensures Leaves(going, D.DataPacket(old(Snapshot())))
    {
      hide D.SyncCounts, D.Keeps, D.ZeroBytes, ToNat, D.WholeBytes, D.DataAddressBytes, D.Get, Avail;
      var size, hasAddr := ToNat(data[2..4]), data[5];
      if hasAddr {
        going := DataAddressBytes();
        if !going { return; }
      }
      var value;
      going, value := WholeBytes(size);
      if !going { return; }
      lines := lines + [D.NormalData(sync > 0, value, size, if hasAddr then D.Some(daddr) else D.None)];
    }

    method DataAddressBytes() returns (going: bool)
      requires Valid()
      modifies this, packet
      ensures Leaves(going, D.DataAddressBytes(old(Snapshot()), 0))
    {
      hide D.SyncCounts, D.Keeps, D.ZeroBytes, ToNat, D.Get, D.Splice, Avail;
      var i := 0;
      ghost var end := D.DataAddressBytes(Snapshot(), 0);
      while true
        invariant Valid() && 0 <= i <= 4
        invariant D.DataAddressBytes(Snapshot(), i) == end
        decreases 4 - i
      {
        going := GetByte();
        if !going { return; }
        daddr := D.Splice(daddr, 7 * i, data[..7]);
        if !data[7] || i == 4 { break; }
        i := i + 1;
      }
    }

    /** ---- P-headers and atoms ---- */

    method BadPHeader()
      requires Valid()
      modifies this`sync, this`sinceReset, this`lines
      ensures Snapshot() == D.BadPHeader(old(Snapshot()))
    {
      hide D.SyncCounts, D.Keeps, D.ZeroBytes, ToNat, Avail;
      sync, sinceReset := 0, [];
      lines := lines + [D.BadHeader];
    }

    method PHeaderCycleAccurate()
      requires Valid()
      modifies this
      ensures Valid() && Snapshot() == D.PHeaderCycleAccurate(config, old(Snapshot()))
    {
      hide D.SyncCounts, D.Keeps, D.ZeroBytes, ToNat, D.PrintInstruction, D.PrintMany, D.BadPHeader, Avail;
      var d := data;
      if d == [false, false, false, false, false, false, false, true] {
        waitCount := waitCount + 1;
      } else if d[7] && !d[5] && !d[1] && !d[0] {
        PrintMany(true, ToNat(d[2..5]), true);
        PrintMany(false, if d[6] then 1 else 0, true);
      } else if d[7] && !d[6] && !d[5] && !d[4] && d[1] && !d[0] {
        waitCount := waitCount + 1;
        PrintInstruction(!d[3]);
        PrintInstruction(!d[2]);
      } else if d[7] && d[5] && !d[1] && !d[0] {
        waitCount := waitCount + ToNat(d[2..5]) + 1;
        PrintMany(true, if d[6] then 1 else 0, false);
      } else if d[7] && !d[6] && !d[5] && d[4] && !d[3] && d[1] && !d[0] {
        PrintInstruction(!d[2]);
      } else {
        BadPHeader();
      }
    }

    method PHeaderNonCycleAccurate()
      requires Valid()
      modifies this
      ensures Valid() && Snapshot() == D.PHeaderNonCycleAccurate(config, old(Snapshot()))
    {
      hide D.SyncCounts, D.Keeps, D.ZeroBytes, ToNat, D.PrintInstruction, D.PrintMany, D.BadPHeader, Avail;
      var d := data;
      if d[7] && !d[1] && !d[0] {
        PrintMany(true, ToNat(d[2..6]), false);
        PrintMany(false, if d[6] then 1 else 0, false);
      } else if d[7] && !d[6] && !d[5] && !d[4] && d[1] && !d[0] {
        PrintInstruction(!d[3]);
        PrintInstruction(!d[2]);
      } else {
        BadPHeader();
      }
    }

    method PHeader()
      requires Valid()
      modifies this
      ensures Valid() && Snapshot() == D.PHeader(config, old(Snapshot()))
    {
      hide D.SyncCounts, D.Keeps, D.ZeroBytes, ToNat, D.PHeaderCycleAccurate, D.PHeaderNonCycleAccurate, Avail;
      if config.cycleAccurate { PHeaderCycleAccurate(); } else { PHeaderNonCycleAccurate(); }
    }

    method AtomCycleAccurate() returns (going: bool)
      requires Valid()
      modifies this, packet
      ensures Leaves(going, D.AtomCycleAccurate(config, old(Snapshot())))
    {
      hide D.SyncCounts, D.Keeps, D.ZeroBytes, ToNat, D.CycleCountPft, D.PrintInstruction, Avail;
      var h := data;
      going := CycleCountPft();
      if !going { return; }
      PrintInstruction(!h[1]);
    }

    // The first loop: the byte is shifted up until its top bit is the end mark.
    static method AtomEnd(h: Octet) returns (d: Octet, i: nat)
      ensures i == D.AtomCount(h, 5) && d == D.Shifted(h, 6 - i)
    {
      hide D.Shifted;
      NotShifted(h);
      D.ShiftOnce(h, 0);
      d, i := [false] + h[..7], 5;
      D.ShiftOnce(h, 1);
      while 0 < i && !d[7]
        invariant 0 <= i <= 5 && d == D.Shifted(h, 6 - i) && d[7] == h[i + 1]
        invariant D.AtomCount(h, i) == D.AtomCount(h, 5)
      {
        D.ShiftOnce(h, 6 - i);
        D.ShiftOnce(h, 7 - i);
        d, i := [false] + d[..7], i - 1;
      }
    }

    // The second loop: what follows the end mark are the atoms.
    method AtomNonCycleAccurate()
      requires Valid()
      modifies this`pc, this`branchCount, this`waitCount, this`lines
      ensures Snapshot() == D.Atoms(config, old(Snapshot()), old(data), D.AtomCount(old(data), 5))
    {
      hide D.SyncCounts, D.Keeps, D.ZeroBytes, ToNat, D.PrintInstruction, D.Shifted, D.AtomCount, Avail;
      ghost var h := data;
      var d, i := AtomEnd(data);
      ghost var n := i;
      while 0 < i
        invariant 0 <= i <= n && d == D.Shifted(h, 6 - i)
        invariant D.Atoms(config, Snapshot(), h, i) == D.Atoms(config, old(Snapshot()), h, n)
      {
        D.ShiftOnce(h, 6 - i);
        D.ShiftOnce(h, 7 - i);
        i := i - 1;
        d := [false] + d[..7];
        PrintInstruction(!d[7]);
      }
    }

    method Atom() returns (going: bool)
      requires Valid()
      modifies this, packet
      ensures Leaves(going, D.Atom(config, old(Snapshot())))
    {
      hide D.SyncCounts, D.Keeps, D.ZeroBytes, ToNat, D.AtomCycleAccurate, D.Atoms, D.AtomCount, Avail;
      going := true;
      if config.cycleAccurate {
        going := AtomCycleAccurate();
      } else {
        AtomNonCycleAccurate();
      }
    }

    /** ---- The main loop ---- */

    method Dispatch(h: Handler) returns (going: bool)
      requires Valid()
      modifies this, packet
      ensures Leaves(going, R.Dispatch(config, old(Snapshot()), h))
    {
      hide D.SyncCounts, D.Keeps, D.ZeroBytes, ToNat, D.Branch, D.CCount, D.ISyncPacket, D.ISyncCycleCount, D.VmidPacket, D.DataPacket, D.TimestampPacket,
        D.ContextIdPacket, D.PHeader, D.ISyncPft, D.Atom, D.BranchPft, D.WaypointUpdate, D.TimestampPft, Avail;
      going := true;
      match h
      case HBranch => going := Branch();
      case HAsync =>
      case HCCount => going := CCount();
      case HISync => going := ISyncPacket();
      case HISyncCC => going := ISyncCycleCount();
      case HVmid => going := VmidPacket();
      case HData => going := DataPacket();
      case HTimestamp => going := TimestampPacket();
      case HIgnore =>
      case HContextId => going := ContextIdPacket();
      case HPHeader => PHeader();
      case HISyncPft => going := ISyncPft();
      case HAtom => going := Atom();
      case HBranchPft => going := BranchPft();
      case HWaypoint => going := WaypointUpdate();
      case HTrigger => lines := lines + [D.Trigger(sync > 0)];
      case HTimestampPft => going := TimestampPft();
      case HExceptRet => lines := lines + [D.ExceptionReturn(sync > 0)];
      case HNone =>
        sync, sinceReset := 0, [];
        lines := lines + [D.NotHandled(data)];
    }

    // The search for the row of a header byte.
    method FindRow(ch: bv8) returns (i: nat)
      ensures i == FirstMatch(protocol, ch, 0)
    {
      hide IsMatch, RowAt;
      i := 0;
      while !IsMatch(RowAt(protocol, i), ch)
        invariant i <= ROWS && FirstMatch(protocol, ch, i) == FirstMatch(protocol, ch, 0)
        decreases ROWS - i
      {
        SomeRowMatches(protocol, ch);
        i := i + 1;
      }
    }

    // The program: it runs until the stream ends.
    method Decode()
      requires Valid()
      modifies this, packet
      ensures Valid() && Snapshot() == R.Run(config, protocol, old(Snapshot()))
    {
      hide D.SyncCounts, D.Keeps, D.ZeroBytes, ToNat, D.Get, R.Dispatch, Avail, RowAt, FirstMatch;
      var going := true;
      while going
        invariant Valid()
        invariant going ==> R.Run(config, protocol, Snapshot()) == R.Run(config, protocol, old(Snapshot()))
        invariant !going ==> Snapshot() == R.Run(config, protocol, old(Snapshot()))
        decreases going, |Avail()|
      {
        ghost var before := Snapshot();
        going := GetByte();
        if going {
          var i := FindRow(ToByte(data));
          going := Dispatch(RowAt(protocol, i).handler);
        }
        assert R.Round(config, protocol, before) == if going then D.Running(Snapshot()) else D.Exited(Snapshot());
      }
    }
  }

  lemma NotShifted(b: Octet)
    ensures D.Shifted(b, 0) == b
  {}

  lemma SomeRowMatches(p: Protocol, ch: bv8)
    ensures IsMatch(RowAt(p, ROWS), ch)
  {
    assert ch & 0 == 0;
  }
}
