/** The memory allocation driver: a list of allocations that must mirror the DMA blocks in use. */
module MemAlloc {

  const PAGE: nat := 4096
  const WRAP: nat := 0x1_0000_0000

  /** ---- The outside ---- */

  // A block of DMA memory in use.
  datatype Block = Block(cpu: nat, size: nat)

  // What the DMA allocator answers.
  datatype Dma = NoBlock | NewBlock(cpu: nat, bus: nat)

  datatype Errno = Success | NoMemory | Invalid | NotTty | BadAddress | TryAgain

  datatype Command = HardReset | GetBuffer(size: nat, entryFound: bool, dma: Dma) | FreeBuffer(bus: nat) | UnknownCommand

  // The calls the kernel makes into the driver, with what the rest of the kernel will answer.
  datatype Call =
    | Open
    | Release
    | Ioctl(command: Command, magic: bool, number: bool, accessible: bool)
    | Mmap(pageOffset: nat, start: nat, end: nat, remapped: bool)

  datatype Mapping = NoMapping | Mapping(start: nat, frame: nat, size: nat)

  // address is what a caller asking for a buffer gets back.
  datatype Reply = Reply(status: Errno, address: nat, mapping: Mapping)

  function Plain(status: Errno): Reply {
    Reply(status, 0, NoMapping)
  }

  // A size rounded up to pages, in 32 bits.
  function PageAlign(size: nat): nat {
    (size + 4095) % 0x1_0000_0000 / 4096 * 4096
  }

  // Rounding is right exactly up to the last whole page; beyond it the size wraps to zero.
  lemma PageAlignRounds(size: nat)
    requires size < WRAP
    ensures PageAlign(size) % PAGE == 0
    ensures size <= PageAlign(size) < size + PAGE <==> size <= WRAP - PAGE
    ensures size > WRAP - PAGE ==> PageAlign(size) == 0
  {}

  /** ---- What the driver should do, with a map for its memory ---- */

  // lost counts the allocations the DMA allocator refused: their list entries are never given back.
  datatype Abstract = Abstract(live: map<nat, Block>, opens: nat, lost: nat)

  const EMPTY: Abstract := Abstract(map[], 0, 0)

  // Two stretches of memory without a common byte.
  predicate Apart(a: nat, n: nat, b: nat, m: nat) {
    a + n <= b || b + m <= a
  }

  // The contract of the allocator: a new block overlaps no other and has an address of its own.
  predicate IsFree(live: map<nat, Block>, bus: nat, size: nat) {
    bus !in live && forall b | b in live :: Apart(bus, size, b, live[b].size)
  }

  // The call gets as far as the allocator.
  predicate Allocates(c: Call) {
    c.Ioctl? && c.magic && c.number && c.accessible && c.command.GetBuffer? && c.command.entryFound
  }

  // The allocator keeps its contract, and the kernel closes only what it has opened.
  predicate Allowed(a: Abstract, c: Call) {
    (c.Release? ==> 0 < a.opens)
    && (Allocates(c) && c.command.dma.NewBlock? ==>
          0 < c.command.dma.cpu && IsFree(a.live, c.command.dma.bus, PageAlign(c.command.size)))
  }

  datatype Outcome = Outcome(state: Abstract, reply: Reply)

  function Execute(a: Abstract, command: Command): Outcome {
    match command
    case HardReset => Outcome(a.(live := map[]), Plain(Success))
    case GetBuffer(size, entryFound, dma) =>
      if !entryFound then Outcome(a, Plain(NoMemory))
      else if dma.NoBlock? then Outcome(a.(lost := a.lost + 1), Plain(NoMemory))
      else Outcome(a.(live := a.live[dma.bus := Block(dma.cpu, PageAlign(size))]), Reply(Success, dma.bus, NoMapping))
    case FreeBuffer(bus) =>
      if bus in a.live then Outcome(a.(live := a.live - {bus}), Plain(Success)) else Outcome(a, Plain(Invalid))
    case UnknownCommand => Outcome(a, Plain(Invalid))
  }

  function Effect(a: Abstract, c: Call): Outcome
    requires Allowed(a, c)
  {
    match c
    case Open => Outcome(a.(opens := a.opens + 1), Plain(Success))
    case Release => Outcome(a.(opens := a.opens - 1, live := if a.opens == 1 then map[] else a.live), Plain(Success))
    case Ioctl(command, magic, number, accessible) =>
      if !magic || !number then Outcome(a, Plain(NotTty))
      else if !accessible then Outcome(a, Plain(BadAddress))
      else Execute(a, command)
    case Mmap(pageOffset, start, end, remapped) =>
      var bus, size := pageOffset * 4096 % 0x1_0000_0000, (end - start) % 0x1_0000_0000;
      if bus !in a.live || a.live[bus].size != size then Outcome(a, Plain(Invalid))
      else if !remapped then Outcome(a, Plain(TryAgain))
      else Outcome(a, Reply(Success, 0, Mapping(start, bus / 4096, size)))
  }

  datatype Served = Served(state: Abstract, replies: seq<Reply>)

  predicate AllAllowed(a: Abstract, calls: seq<Call>)
    decreases |calls|, 0
  {
    calls == [] ||
    (AllAllowed(a, calls[..|calls| - 1])
     && Allowed(After(a, calls[..|calls| - 1]).state, calls[|calls| - 1]))
  }

  // All calls one after the other, with their replies.
  function After(a: Abstract, calls: seq<Call>): (r: Served)
    requires AllAllowed(a, calls)
    decreases |calls|, 1
  {
    if calls == [] then Served(a, []) else
      var before := After(a, calls[..|calls| - 1]);
      var e := Effect(before.state, calls[|calls| - 1]);
      Served(e.state, before.replies + [e.reply])
  }

  /** ---- Blocks apart ---- */

  predicate BlocksApart(live: map<nat, Block>) {
    forall b, c | b in live && c in live && b != c :: Apart(b, live[b].size, c, live[c].size)
  }

  lemma CallKeepsApart(a: Abstract, c: Call)
    requires Allowed(a, c) && BlocksApart(a.live)
    ensures BlocksApart(Effect(a, c).state.live)
  {
    hide PageAlign;
    var live := Effect(a, c).state.live;
    forall x, y | x in live && y in live && x != y
      ensures Apart(x, live[x].size, y, live[y].size)
    {
      if x in a.live && y in a.live && live[x] == a.live[x] && live[y] == a.live[y] {
        assert Apart(x, a.live[x].size, y, a.live[y].size);
      }
    }
  }

  // In every reachable state no two live blocks have a byte in common.
  lemma {:induction false} LiveBlocksApart(calls: seq<Call>)
    requires AllAllowed(EMPTY, calls)
    ensures BlocksApart(After(EMPTY, calls).state.live)
  {
    hide Effect, Allowed, BlocksApart;
    if calls == [] {
      NoBlocks();
    } else {
      var before := calls[..|calls| - 1];
      LiveBlocksApart(before);
      CallKeepsApart(After(EMPTY, before).state, calls[|calls| - 1]);
    }
  }

  lemma NoBlocks()
    ensures BlocksApart(map[])
  {}

  // In every reachable state a mapping that succeeds covers all of the one live block it asked for, and
  // no byte of it belongs to another.
  lemma MappingIsOneBlock(calls: seq<Call>, c: Call)
    requires AllAllowed(EMPTY, calls) && c.Mmap? && Effect(After(EMPTY, calls).state, c).reply.status.Success?
    ensures var live, m := After(EMPTY, calls).state.live, Effect(After(EMPTY, calls).state, c).reply.mapping;
            m.Mapping? && m.start == c.start
            && var bus := m.frame * 4096;
               bus in live && live[bus].size == m.size
               && forall address, b | b in live && Within(address, bus, m.size) ::
                    Within(address, b, live[b].size) <==> b == bus
  {
    LiveBlocksApart(calls);
    var live := After(EMPTY, calls).state.live;
    var m := Effect(After(EMPTY, calls).state, c).reply.mapping;
    WholePages(c.pageOffset);
    var bus := m.frame * 4096;
    forall address, b | b in live && Within(address, bus, m.size)
      ensures Within(address, b, live[b].size) <==> b == bus
    {
      if b != bus { assert Apart(b, live[b].size, bus, live[bus].size); }
    }
  }

  // Exactly the live blocks can be mapped, each with its own size only.
  lemma MappingSucceeds(a: Abstract, frame: nat, start: nat, size: nat)
    requires frame < 0x10_0000 && size < WRAP
    ensures var bus, r := frame * 4096, Effect(a, Mmap(frame, start, start + size, true));
            (r.reply == Reply(Success, 0, Mapping(start, frame, size)) <==> bus in a.live && a.live[bus].size == size)
            && (r.reply.status.Success? || r.reply == Plain(Invalid))
            && r.state == a
  {}

  predicate Within(address: int, bus: nat, size: nat) {
    bus <= address < bus + size
  }

  lemma WholePages(offset: nat)
    ensures var bus := offset * 4096 % 0x1_0000_0000; bus / 4096 * 4096 == bus
  {}

  /** ---- Lost entries ---- */

  // A request that gets its list entry but no memory.
  predicate IsRefused(c: Call) {
    Allocates(c) && c.command.dma.NoBlock?
  }

  function Refusals(calls: seq<Call>): nat {
    if calls == [] then 0 else Refusals(calls[..|calls| - 1]) + (if IsRefused(calls[|calls| - 1]) then 1 else 0)
  }

  // The entries lost are the requests refused.
  lemma {:induction false} LostAreRefusals(a: Abstract, calls: seq<Call>)
    requires AllAllowed(a, calls)
    ensures After(a, calls).state.lost == a.lost + Refusals(calls)
    decreases |calls|
  {
    if calls != [] { LostAreRefusals(a, calls[..|calls| - 1]); }
  }

  // One refused request is enough.
  lemma OneRefusalLoses(size: nat)
    ensures var calls := [Ioctl(GetBuffer(size, true, NoBlock), true, true, true)];
            AllAllowed(EMPTY, calls) && Refusals(calls) == 1
            && After(EMPTY, calls) == Served(Abstract(map[], 0, 1), [Plain(NoMemory)])
  {
    var calls := [Ioctl(GetBuffer(size, true, NoBlock), true, true, true)];
    assert calls[..0] == [] && AllAllowed(EMPTY, []) && Refusals([]) == 0;
  }

  lemma {:induction false} NoRefusals(calls: seq<Call>)
    ensures Refusals(calls) == 0 <==> forall i | 0 <= i < |calls| :: !IsRefused(calls[i])
  {
    hide IsRefused;
    if calls != [] {
      NoRefusals(calls[..|calls| - 1]);
      assert forall i | 0 <= i < |calls| - 1 :: calls[..|calls| - 1][i] == calls[i];
    }
  }

  /** ---- Calls that undo each other ---- */

  // Getting a buffer and freeing it leaves everything as it was.
  lemma GetThenFree(a: Abstract, size: nat, cpu: nat, bus: nat)
    requires bus !in a.live && 0 < cpu
    ensures var b := Execute(a, GetBuffer(size, true, NewBlock(cpu, bus)));
            b.reply.status.Success? && b.reply.address == bus
            && Execute(b.state, FreeBuffer(b.reply.address)) == Outcome(a, Plain(Success))
  {
    var b := Execute(a, GetBuffer(size, true, NewBlock(cpu, bus))).state;
    assert b.live - {bus} == a.live;
  }

  // No block is given back twice: a second free of the same address fails and changes nothing, as long
  // as the allocator has not handed the address out again.
  lemma SecondFreeFails(a: Abstract, bus: nat)
    ensures var b := Execute(a, FreeBuffer(bus)).state;
            bus !in b.live && Execute(b, FreeBuffer(bus)) == Outcome(b, Plain(Invalid))
  {}

  // How many opens and releases there are.
  function OpenCalls(calls: seq<Call>): int {
    if calls == [] then 0
    else OpenCalls(calls[..|calls| - 1]) + (match calls[|calls| - 1] case Open => 1 case Release => -1 case _ => 0)
  }

  lemma {:induction false} OpensCount(a: Abstract, calls: seq<Call>)
    requires AllAllowed(a, calls)
    ensures After(a, calls).state.opens == a.opens + OpenCalls(calls)
  {
    if calls != [] { OpensCount(a, calls[..|calls| - 1]); }
  }

  // Whatever was done before: after a reset, and after the close that matches the first open, no block
  // is left.
  lemma NothingLeft(a: Abstract, calls: seq<Call>)
    requires AllAllowed(a, calls) && calls != []
    ensures var last := calls[|calls| - 1];
            (last == Ioctl(HardReset, true, true, true) || (last.Release? && a.opens + OpenCalls(calls) == 0))
            ==> After(a, calls).state.live == map[]
  {
    OpensCount(a, calls);
  }

  // The calls that take a live block away, made with this many opens: freeing it, a reset, the last close.
  predicate Takes(c: Call, opens: int, bus: nat) {
    c == Ioctl(FreeBuffer(bus), true, true, true) || c == Ioctl(HardReset, true, true, true) || (c.Release? && opens == 1)
  }

  // Whether one of the calls does.
  predicate IsTaken(calls: seq<Call>, opens: int, bus: nat) {
    exists i | 0 <= i < |calls| :: Takes(calls[i], opens + OpenCalls(calls[..i]), bus)
  }

  // One call takes a block away or leaves it as it was, and what is new has just been asked for.
  lemma CallAndBlock(a: Abstract, c: Call, bus: nat)
    requires Allowed(a, c)
    ensures var live := Effect(a, c).state.live;
            if bus in a.live then
              (bus in live <==> !Takes(c, a.opens, bus)) && (bus in live ==> live[bus] == a.live[bus])
            else bus in live ==> Allocates(c) && c.command.dma.NewBlock? && c.command.dma.bus == bus
  {
    hide PageAlign;
  }

  lemma IsTakenSnoc(calls: seq<Call>, opens: int, bus: nat)
    requires calls != []
    ensures var n := |calls| - 1;
            IsTaken(calls, opens, bus)
            <==> IsTaken(calls[..n], opens, bus) || Takes(calls[n], opens + OpenCalls(calls[..n]), bus)
  {
    hide Takes, OpenCalls;
    var n := |calls| - 1;
    assert forall i | 0 <= i < n :: calls[..n][i] == calls[i] && calls[..n][..i] == calls[..i];
    if IsTaken(calls[..n], opens, bus) {
      var i :| 0 <= i < n && Takes(calls[..n][i], opens + OpenCalls(calls[..n][..i]), bus);
      assert Takes(calls[i], opens + OpenCalls(calls[..i]), bus);
    }
  }

  // A block that is not taken away stays, with its addresses and its size, whatever else is called.
  lemma {:induction false} BlockStays(a: Abstract, calls: seq<Call>, bus: nat)
    requires AllAllowed(a, calls) && bus in a.live && !IsTaken(calls, a.opens, bus)
    ensures var live := After(a, calls).state.live; bus in live && live[bus] == a.live[bus]
    decreases |calls|
  {
    hide Effect, Allowed, Takes, OpenCalls, IsTaken;
    if calls != [] {
      var n := |calls| - 1;
      IsTakenSnoc(calls, a.opens, bus);
      BlockStays(a, calls[..n], bus);
      OpensCount(a, calls[..n]);
      CallAndBlock(After(a, calls[..n]).state, calls[n], bus);
    }
  }

  // From the call that hands it out on a block is live until the first call that takes it away, and
  // not after that one.
  lemma BlockLifetime(a: Abstract, get: Call, calls: seq<Call>)
    requires Allowed(a, get) && Allocates(get) && get.command.dma.NewBlock?
    requires AllAllowed(Effect(a, get).state, calls) && calls != []
    requires var n := |calls| - 1; !IsTaken(calls[..n], a.opens, get.command.dma.bus)
    ensures var bus, live := get.command.dma.bus, After(Effect(a, get).state, calls).state.live;
            (bus in live <==> !IsTaken(calls, a.opens, bus))
            && (bus in live ==> live[bus] == Block(get.command.dma.cpu, PageAlign(get.command.size)))
  {
    hide Takes, OpenCalls, IsTaken, PageAlign;
    var n, bus, b := |calls| - 1, get.command.dma.bus, Effect(a, get).state;
    IsTakenSnoc(calls, a.opens, bus);
    hide Effect, Allowed;
    GotIsLive(a, get);
    BlockStays(b, calls[..n], bus);
    OpensCount(b, calls[..n]);
    CallAndBlock(After(b, calls[..n]).state, calls[n], bus);
  }

  lemma GotIsLive(a: Abstract, get: Call)
    requires Allowed(a, get) && Allocates(get) && get.command.dma.NewBlock?
    ensures var b := Effect(a, get).state;
            b.opens == a.opens
            && b.live == a.live[get.command.dma.bus := Block(get.command.dma.cpu, PageAlign(get.command.size))]
  {}

  // A call that is refused changes nothing but the number of entries lost.
  lemma RefusedChangesNothing(a: Abstract, c: Call)
    requires Allowed(a, c) && !Effect(a, c).reply.status.Success?
    ensures Effect(a, c).state == a.(lost := a.lost + if IsRefused(c) then 1 else 0)
  {}

  /** ---- The driver ---- */

  datatype Allocation = Allocation(bus: nat, cpu: nat, size: nat)

  datatype Found = None | Some(index: nat)

  predicate DistinctAddresses(list: seq<Allocation>) {
    forall i, j | 0 <= i < j < |list| :: list[i].bus != list[j].bus
  }

  // The list has one entry for every live block, with its size, and no others.
  predicate Mirrors(list: seq<Allocation>, live: map<nat, Block>) {
    DistinctAddresses(list)
    && (forall i | 0 <= i < |list| :: list[i].bus in live && live[list[i].bus] == Block(list[i].cpu, list[i].size))
    && (forall bus | bus in live :: exists i | 0 <= i < |list| :: list[i].bus == bus)
  }

  // Adding an entry for a new block.
  lemma MirrorsAdd(list: seq<Allocation>, live: map<nat, Block>, e: Allocation)
    requires Mirrors(list, live) && e.bus !in live
    ensures Mirrors(list + [e], live[e.bus := Block(e.cpu, e.size)])
  {
    var more, live' := list + [e], live[e.bus := Block(e.cpu, e.size)];
    forall bus | bus in live'
      ensures exists i | 0 <= i < |more| :: more[i].bus == bus
    {
      if bus == e.bus {
        assert more[|list|].bus == bus;
      } else {
        var i :| 0 <= i < |list| && list[i].bus == bus;
        assert more[i].bus == bus;
      }
    }
  }

  function Without(list: seq<Allocation>, k: nat): (r: seq<Allocation>)
    requires k < |list|
    ensures |r| == |list| - 1
  {
    list[..k] + list[k + 1..]
  }

  lemma WithoutAt(list: seq<Allocation>, k: nat, i: nat)
    requires k < |list| && i < |list| - 1
    ensures Without(list, k)[i] == list[if i < k then i else i + 1]
  {}

  // Taking an entry off with its block.
  lemma MirrorsRemove(list: seq<Allocation>, live: map<nat, Block>, k: nat)
    requires Mirrors(list, live) && k < |list|
    ensures Mirrors(Without(list, k), live - {list[k].bus})
  {
    hide Without;
    var less, live' := Without(list, k), live - {list[k].bus};
    forall i, j | 0 <= i < j < |less|
      ensures less[i].bus != less[j].bus
    {
      WithoutAt(list, k, i);
      WithoutAt(list, k, j);
    }
    forall i | 0 <= i < |less|
      ensures less[i].bus in live' && live'[less[i].bus] == Block(less[i].cpu, less[i].size)
    {
      WithoutAt(list, k, i);
    }
    forall bus | bus in live'
      ensures exists i | 0 <= i < |less| :: less[i].bus == bus
    {
      var i :| 0 <= i < |list| && list[i].bus == bus;
      WithoutAt(list, k, if i < k then i else i - 1);
    }
  }

  // As many entries as blocks.
  lemma {:induction false} MirrorsSize(list: seq<Allocation>, live: map<nat, Block>)
    requires Mirrors(list, live)
    ensures |list| == |live|
    decreases |list|
  {
    hide Without;
    if list == [] {
      MirrorsNone(live);
    } else {
      MirrorsRemove(list, live, 0);
      MirrorsSize(Without(list, 0), live - {list[0].bus});
      OneBlockLess(live, list[0].bus);
    }
  }

  lemma OneBlockLess(live: map<nat, Block>, bus: nat)
    requires bus in live
    ensures |live - {bus}| == |live| - 1
  {
    assert (live - {bus}).Keys == live.Keys - {bus};
    assert |(live - {bus}).Keys| == |live - {bus}|;
  }

  lemma MirrorsNone(live: map<nat, Block>)
    requires Mirrors([], live)
    ensures live == map[]
  {
    assert forall bus | bus in live :: false;
  }

  class Driver {
    var heapList: seq<Allocation>
    var openCount: int

    // The DMA allocator's own books, and the list entries that were allocated and not given back.
    var dma: map<nat, Block>
    var entries: nat
    var refused: nat

    predicate Valid()
      reads this
    {
      Mirrors(heapList, dma) && 0 <= openCount && entries == |heapList| + refused
    }

    function View(): Abstract
      reads this
      requires Valid()
    {
      Abstract(dma, openCount, refused)
    }

    constructor ()
      ensures Valid() && View() == EMPTY
    {
      heapList, openCount, dma, entries, refused := [], 0, map[], 0, 0;
    }

    // The allocator takes back a block that is in use, with the size and address it was given out with.
    method DmaFree(size: nat, cpu: nat, bus: nat)
      requires bus in dma && dma[bus] == Block(cpu, size)
      modifies this`dma
      ensures dma == old(dma) - {bus}
    {
      dma := dma - {bus};
    }

    method FreeBuffers()
      requires Valid()
      modifies this`heapList, this`dma, this`entries
      ensures Valid() && heapList == [] && dma == map[]
    {
      hide Mirrors;
      while heapList != []
        invariant Valid()
        decreases |heapList|
      {
        var entry := heapList[0];
        EntryIsLive(heapList, dma, 0);
        MirrorsRemove(heapList, dma, 0);
        DmaFree(entry.size, entry.cpu, entry.bus);
        heapList := Without(heapList, 0);
        entries := entries - 1;
      }
      MirrorsNone(dma);
    }

    // The entry with a bus address. There is one exactly if a block with that address is in use.
    method FindEntryByBus(bus: nat) returns (found: Found)
      requires Valid()
      ensures match found
              case Some(k) => k < |heapList| && heapList[k].bus == bus && bus in dma
                              && dma[bus] == Block(heapList[k].cpu, heapList[k].size)
              case None => bus !in dma
    {
      for k := 0 to |heapList|
        invariant forall i | 0 <= i < k :: heapList[i].bus != bus
      {
        if heapList[k].bus == bus { return Some(k); }
      }
      found := None;
    }

    method AllocMemory(size: nat, entryFound: bool, answer: Dma) returns (status: Errno, address: nat)
      requires Valid() && (entryFound && answer.NewBlock? ==> answer.bus !in dma && 0 < answer.cpu)
      modifies this
      ensures Valid()
      ensures Outcome(View(), Reply(status, address, NoMapping)) == Execute(old(View()), GetBuffer(size, entryFound, answer))
    {
      hide Mirrors;
      address := 0;
      if !entryFound { return NoMemory, address; }
      entries := entries + 1;
      var aligned := PageAlign(size);
      if answer.NoBlock? {
        refused := refused + 1;
        return NoMemory, address;
      }
      var entry := Allocation(answer.bus, answer.cpu, aligned);
      MirrorsAdd(heapList, dma, entry);
      dma := dma[answer.bus := Block(answer.cpu, aligned)];
      address := entry.bus;
      heapList := heapList + [entry];
      status := Success;
    }

    method FreeMemory(bus: nat) returns (status: Errno)
      requires Valid()
      modifies this
      ensures Valid() && Outcome(View(), Plain(status)) == Execute(old(View()), FreeBuffer(bus))
    {
      hide Mirrors;
      var found := FindEntryByBus(bus);
      if found.None? { return Invalid; }
      var k := found.index;
      var entry := heapList[k];
      MirrorsRemove(heapList, dma, k);
      heapList := Without(heapList, k);
      DmaFree(entry.size, entry.cpu, entry.bus);
      entries := entries - 1;
      status := Success;
    }

    method MapBuffer(pageOffset: nat, start: nat, end: nat, remapped: bool) returns (reply: Reply)
      requires Valid()
      ensures Outcome(View(), reply) == Effect(View(), Mmap(pageOffset, start, end, remapped))
    {
      var offset := pageOffset * 4096 % 0x1_0000_0000;
      var size := (end - start) % 0x1_0000_0000;
      var found := FindEntryByBus(offset);
      if found.None? { return Plain(Invalid); }
      var entry := heapList[found.index];
      if size != entry.size { return Plain(Invalid); }
      var phys := entry.bus;
      if !remapped { return Plain(TryAgain); }
      reply := Reply(Success, 0, Mapping(start, phys / 4096, size));
    }

    method Control(command: Command, magic: bool, number: bool, accessible: bool) returns (reply: Reply)
      requires Valid() && Allowed(View(), Ioctl(command, magic, number, accessible))
      modifies this
      ensures Valid() && Outcome(View(), reply) == Effect(old(View()), Ioctl(command, magic, number, accessible))
    {
      hide Mirrors, PageAlign;
      if !magic { return Plain(NotTty); }
      if !number { return Plain(NotTty); }
      if !accessible { return Plain(BadAddress); }
      match command
      case HardReset =>
        FreeBuffers();
        reply := Plain(Success);
      case GetBuffer(size, entryFound, answer) =>
        var status, address := AllocMemory(size, entryFound, answer);
        reply := Reply(status, address, NoMapping);
      case FreeBuffer(bus) =>
        var status := FreeMemory(bus);
        reply := Plain(status);
      case UnknownCommand =>
        reply := Plain(Invalid);
    }

    method OpenDevice()
      requires Valid()
      modifies this`openCount
      ensures Valid() && Outcome(View(), Plain(Success)) == Effect(old(View()), Open)
    {
      openCount := openCount + 1;
    }

    method ReleaseDevice()
      requires Valid() && 0 < openCount
      modifies this
      ensures Valid() && Outcome(View(), Plain(Success)) == Effect(old(View()), Release)
    {
      hide Mirrors;
      openCount := openCount - 1;
      if openCount == 0 { FreeBuffers(); }
    }

    // Any run of calls: the driver with its list replies and ends as the one with a map does.
    method Serve(calls: seq<Call>) returns (replies: seq<Reply>)
      requires Valid() && AllAllowed(View(), calls)
      modifies this
      ensures Valid() && After(old(View()), calls) == Served(View(), replies)
      ensures entries == |dma| + old(refused) + Refusals(calls)
      ensures old(entries) == old(|dma|) ==> (entries == |dma| <==> forall i | 0 <= i < |calls| :: !IsRefused(calls[i]))
    {
      hide Effect, Mirrors, IsRefused;
      MirrorsSize(heapList, dma);
      ghost var begin := View();
      replies := [];
      for i := 0 to |calls|
        invariant Valid() && AllAllowed(begin, calls[..i])
        invariant After(begin, calls[..i]) == Served(View(), replies)
      {
        PrefixAllowed(begin, calls, i + 1);
        OneMoreCall(begin, calls, i);
        ghost var before := View();
        assert Allowed(before, calls[i]);
        var reply := Plain(Success);
        match calls[i] {
          case Open => OpenDevice();
          case Release => ReleaseDevice();
          case Ioctl(command, magic, number, accessible) => reply := Control(command, magic, number, accessible);
          case Mmap(pageOffset, start, end, remapped) => reply := MapBuffer(pageOffset, start, end, remapped);
        }
        assert Outcome(View(), reply) == Effect(before, calls[i]);
        replies := replies + [reply];
      }
      assert calls[..|calls|] == calls;
      LostAreRefusals(begin, calls);
      NoRefusals(calls);
      MirrorsSize(heapList, dma);
    }
  }

  lemma OneMoreCall(a: Abstract, calls: seq<Call>, n: nat)
    requires n < |calls| && AllAllowed(a, calls[..n + 1])
    ensures AllAllowed(a, calls[..n]) && var before := After(a, calls[..n]);
            Allowed(before.state, calls[n]) && var e := Effect(before.state, calls[n]);
            After(a, calls[..n + 1]) == Served(e.state, before.replies + [e.reply])
  {
    assert calls[..n + 1][..n] == calls[..n];
  }

  lemma EntryIsLive(list: seq<Allocation>, live: map<nat, Block>, k: nat)
    requires Mirrors(list, live) && k < |list|
    ensures list[k].bus in live && live[list[k].bus] == Block(list[k].cpu, list[k].size)
  {}

  lemma {:induction false} PrefixAllowed(a: Abstract, calls: seq<Call>, n: nat)
    requires n <= |calls| && AllAllowed(a, calls)
    ensures AllAllowed(a, calls[..n])
    decreases |calls|
  {
    if n < |calls| {
      assert calls[..|calls| - 1][..n] == calls[..n];
      PrefixAllowed(a, calls[..|calls| - 1], n);
    } else {
      assert calls[..n] == calls;
    }
  }
}
