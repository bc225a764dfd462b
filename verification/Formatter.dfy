/** The meaning of a CoreSight formatted trace stream (chapter D4 of Arm IHI 0029), apart from any reader.

    A stream is cut into frames of 16 bytes. Bytes 0..14 carry data and source-ID changes; byte 15
    carries one bit for each even byte: the low bit of a data byte, or the flag that delays an ID
    change by one data byte. */
module Formatter {
  import opened Arithmetic
  import opened Octets

  datatype Symbol = NewId(id: nat, delayed: bool) | Data(value: Octet)

  datatype Tagged = Tagged(id: nat, value: Octet)

  function SymbolAt(frame: seq<Octet>, i: nat): Symbol
    requires |frame| == 16 && i < 15
  {
    if i % 2 == 1 then
      Data(frame[i])
    else if frame[i][0] then
      NewId(ToNat(frame[i][1..]), frame[15][i / 2])
    else
      Data([frame[15][i / 2]] + frame[i][1..])
  }

  // The symbols of a frame from byte i on.
  function FrameSymbols(frame: seq<Octet>, i: nat): (s: seq<Symbol>)
    requires |frame| == 16 && i <= 15
    ensures |s| == 15 - i
    decreases 15 - i
  {
    if i == 15 then [] else [SymbolAt(frame, i)] + FrameSymbols(frame, i + 1)
  }

  // The symbols of all complete frames of a stream.
  function StreamSymbols(bytes: seq<Octet>): seq<Symbol> {
    if |bytes| < 16 then [] else FrameSymbols(bytes[..16], 0) + StreamSymbols(bytes[16..])
  }

  // The data bytes with the source they belong to. The next data byte belongs to next,
  // those after it to current.
  function Tag(symbols: seq<Symbol>, current: nat, next: nat): seq<Tagged> {
    if symbols == [] then [] else
    match symbols[0]
    case NewId(id, delayed) =>
      if id == current then Tag(symbols[1..], current, next)
      else Tag(symbols[1..], id, if delayed then next else id)
    case Data(value) =>
      [Tagged(next, value)] + Tag(symbols[1..], current, current)
  }

  // A mask of source IDs, 32 bits wide. C leaves the shift of the test undefined for IDs from 32 on; here
  // they are not selected.
  predicate Matches(mask: BitSeq, id: nat) {
    id < 32 && id < |mask| && mask[id]
  }

  // As a number the mask has the bit of every source in it.
  lemma MatchesNumber(mask: Word, id: nat)
    requires id < 32
    ensures Matches(mask, id) <==> ToNat(mask) / Pow2(id) % 2 == 1
  {
    hide ToNat, Pow2;
    FieldValue(mask, id, 1);
    OneBit(mask[id]);
    assert mask[id..id + 1] == [mask[id]];
  }

  lemma OneBit(b: bool)
    ensures ToNat([b]) == (if b then 1 else 0) && Pow2(1) == 2
  {
    assert [b][1..] == [];
  }

  function Pick(tagged: seq<Tagged>, mask: BitSeq): seq<Octet> {
    if tagged == [] then []
    else if Matches(mask, tagged[0].id) then [tagged[0].value] + Pick(tagged[1..], mask)
    else Pick(tagged[1..], mask)
  }

  lemma {:induction false} PickConcat(a: seq<Tagged>, b: seq<Tagged>, mask: BitSeq)
    ensures Pick(a + b, mask) == Pick(a, mask) + Pick(b, mask)
  {
    if a == [] {
      assert a + b == b;
    } else {
      assert (a + b)[1..] == a[1..] + b;
      PickConcat(a[1..], b, mask);
    }
  }

  /** ---- Who owns a data byte, said position by position ---- */

  // The ID announced last before position p.
  function IdBefore(symbols: seq<Symbol>, p: nat, start: nat): nat
    requires p <= |symbols|
  {
    if p == 0 then start
    else if symbols[p - 1].NewId? then symbols[p - 1].id
    else IdBefore(symbols, p - 1, start)
  }

  // A data byte belongs to the ID announced last, except right after a delayed change,
  // where it still belongs to the ID before that.
  function Owner(symbols: seq<Symbol>, p: nat, start: nat): nat
    requires p <= |symbols|
  {
    if 0 < p && symbols[p - 1].NewId? && symbols[p - 1].delayed then IdBefore(symbols, p - 1, start)
    else IdBefore(symbols, p, start)
  }

  // The data bytes among the first n symbols with their owners.
  function Owned(symbols: seq<Symbol>, n: nat, start: nat): seq<Tagged>
    requires n <= |symbols|
  {
    if n == 0 then []
    else Owned(symbols, n - 1, start)
         + (if symbols[n - 1].Data? then [Tagged(Owner(symbols, n - 1, start), symbols[n - 1].value)] else [])
  }

  /** ---- When the reader agrees ---- */

  // The ID the reader gives the next data byte after the first n symbols.
  function NextAt(symbols: seq<Symbol>, n: nat, start: nat): nat
    requires n <= |symbols|
  {
    if n == 0 then start else
    match symbols[n - 1]
    case Data(_) => IdBefore(symbols, n, start)
    case NewId(id, delayed) =>
      if delayed || id == IdBefore(symbols, n - 1, start) then NextAt(symbols, n - 1, start) else id
  }

  // The data bytes among the first n symbols as the reader tags them.
  function Read(symbols: seq<Symbol>, n: nat, start: nat): (r: seq<Tagged>)
    requires n <= |symbols|
  {
    if n == 0 then []
    else Read(symbols, n - 1, start)
         + (if symbols[n - 1].Data? then [Tagged(NextAt(symbols, n - 1, start), symbols[n - 1].value)] else [])
  }

  lemma {:induction false} TagFromHere(symbols: seq<Symbol>, n: nat, start: nat)
    requires n <= |symbols|
    ensures Read(symbols, n, start) + Tag(symbols[n..], IdBefore(symbols, n, start), NextAt(symbols, n, start))
         == Read(symbols, |symbols|, start)
    decreases |symbols| - n
  {
    if n < |symbols| {
      TagFromHere(symbols, n + 1, start);
      var rest := symbols[n..];
      assert rest[0] == symbols[n] && rest[1..] == symbols[n + 1..];
    } else {
      assert symbols[n..] == [];
    }
  }

  // Reader and rule give every data byte among the first n symbols the same owner.
  predicate SameOwners(symbols: seq<Symbol>, n: nat, start: nat)
    requires n <= |symbols|
  {
    forall p | 0 <= p < n && symbols[p].Data? :: NextAt(symbols, p, start) == Owner(symbols, p, start)
  }

  lemma {:induction false} SameTags(symbols: seq<Symbol>, n: nat, start: nat)
    requires n <= |symbols|
    ensures |Read(symbols, n, start)| == |Owned(symbols, n, start)|
    ensures Read(symbols, n, start) == Owned(symbols, n, start) <==> SameOwners(symbols, n, start)
  {
    if n != 0 {
      SameTags(symbols, n - 1, start);
      var a, b := Read(symbols, n - 1, start), Owned(symbols, n - 1, start);
      var a1, b1 := Read(symbols, n, start), Owned(symbols, n, start);
      assert a1[..|a|] == a && b1[..|b|] == b;
      if symbols[n - 1].Data? {
        assert a1[|a|] == Tagged(NextAt(symbols, n - 1, start), symbols[n - 1].value);
        assert b1[|b|] == Tagged(Owner(symbols, n - 1, start), symbols[n - 1].value);
      }
    }
  }

  // For any symbols the reader follows the rule exactly if it does so at every data byte.
  lemma TagIsRead(symbols: seq<Symbol>, start: nat)
    ensures Tag(symbols, start, start) == Owned(symbols, |symbols|, start) <==> SameOwners(symbols, |symbols|, start)
  {
    TagFromHere(symbols, 0, start);
    assert symbols[0..] == symbols;
    SameTags(symbols, |symbols|, start);
  }

  // Symbols of whole frames: fifteen each, data at the odd places of a frame.
  predicate FromFrames(symbols: seq<Symbol>) {
    |symbols| % 15 == 0 && forall p | 0 <= p < |symbols| && p % 15 % 2 == 1 :: symbols[p].Data?
  }

  lemma {:induction false} StreamFromFrames(bytes: seq<Octet>)
    ensures FromFrames(StreamSymbols(bytes))
  {
    hide FrameSymbols;
    if |bytes| >= 16 {
      StreamFromFrames(bytes[16..]);
      OneMoreFrame(bytes[..16], StreamSymbols(bytes[16..]));
    }
  }

  lemma OneMoreFrame(frame: seq<Octet>, rest: seq<Symbol>)
    requires |frame| == 16 && FromFrames(rest)
    ensures FromFrames(FrameSymbols(frame, 0) + rest)
  {
    hide FrameSymbols;
    var all: seq<Symbol> := FrameSymbols(frame, 0) + rest;
    forall p | 0 <= p < |all| && p % 15 % 2 == 1
      ensures all[p].Data?
    {
      if p < 15 {
        FrameSymbolAt(frame, 0, p);
      } else {
        OneFrameOn(p - 15);
        assert all[p] == rest[p - 15];
      }
    }
    OneFrameOn(|rest|);
  }

  lemma OneFrameOn(p: nat)
    ensures (p + 15) % 15 == p % 15
  {}

  lemma {:induction false} FrameSymbolAt(frame: seq<Octet>, i: nat, p: nat)
    requires |frame| == 16 && i <= p < 15
    ensures FrameSymbols(frame, i)[p - i] == SymbolAt(frame, p)
    decreases 15 - i
  {
    hide SymbolAt;
    if i < p { FrameSymbolAt(frame, i + 1, p); }
  }

  // The change at p overtakes a delayed one: the change just before it is to another source and delayed,
  // and the one at p is delayed, too, or to the same source.
  predicate Overtakes(symbols: seq<Symbol>, p: nat, start: nat)
    requires 0 < p < |symbols|
  {
    var before, here := symbols[p - 1], symbols[p];
    before.NewId? && before.delayed && before.id != IdBefore(symbols, p - 1, start)
    && here.NewId? && (here.delayed || here.id == before.id)
  }

  predicate NoneOvertaken(symbols: seq<Symbol>, start: nat) {
    forall p | 0 < p < |symbols| :: !Overtakes(symbols, p, start)
  }

  // In frames two changes in a row are the last symbol of one frame and the first of the next, so that
  // there is data before them and behind them.
  lemma AroundTwoChanges(symbols: seq<Symbol>, p: nat)
    requires FromFrames(symbols) && 0 < p < |symbols| && symbols[p - 1].NewId? && symbols[p].NewId?
    ensures 1 < p && symbols[p - 2].Data? && p + 1 < |symbols| && symbols[p + 1].Data?
  {
    LastAndFirst(p);
  }

  lemma LastAndFirst(p: nat)
    requires 0 < p && (p - 1) % 15 % 2 == 0 && p % 15 % 2 == 0
    ensures p % 15 == 0 && 1 < p && (p - 2) % 15 == 13 && (p + 1) % 15 == 1
  {
    var q, r := p / 15, p % 15;
    if r != 0 { DivUnique(p - 1, 15, q, r - 1); }
    assert r == 0;
    DivUnique(p - 2, 15, q - 1, 13);
    DivUnique(p + 1, 15, q, 1);
  }

  lemma OwnerByCases(symbols: seq<Symbol>, q: nat, start: nat)
    requires FromFrames(symbols) && q < |symbols| && symbols[q].Data?
    ensures NextAt(symbols, q, start) == Owner(symbols, q, start) <==> !(1 < q && Overtakes(symbols, q - 1, start))
  {
    if 0 < q && symbols[q - 1].NewId? {
      if 1 < q && symbols[q - 2].NewId? {
        AroundTwoChanges(symbols, q - 1);
        assert NextAt(symbols, q - 2, start) == IdBefore(symbols, q - 2, start);
      }
    }
  }

  // On the symbols of any frames the reader follows the rule exactly if no change overtakes a delayed one.
  lemma FramesAreOwned(symbols: seq<Symbol>, start: nat)
    requires FromFrames(symbols)
    ensures Tag(symbols, start, start) == Owned(symbols, |symbols|, start) <==> NoneOvertaken(symbols, start)
  {
    hide NextAt, Owner, Overtakes, Tag, Owned, FromFrames;
    TagIsRead(symbols, start);
    if !NoneOvertaken(symbols, start) {
      var p :| 0 < p < |symbols| && Overtakes(symbols, p, start);
      OvertakenByte(symbols, p, start);
      OwnerByCases(symbols, p + 1, start);
    } else {
      forall q | 0 <= q < |symbols| && symbols[q].Data?
        ensures NextAt(symbols, q, start) == Owner(symbols, q, start)
      {
        OwnerByCases(symbols, q, start);
      }
    }
  }

  lemma OvertakenByte(symbols: seq<Symbol>, p: nat, start: nat)
    requires FromFrames(symbols) && 0 < p < |symbols| && Overtakes(symbols, p, start)
    ensures p + 1 < |symbols| && symbols[p + 1].Data?
  {
    AroundTwoChanges(symbols, p);
  }

  // On every stream of bytes the reader gives each data byte to the owner its position says, exactly if
  // no change in byte 0 of a frame overtakes a delayed one in byte 14 of the frame before.
  lemma TagIsOwnership(bytes: seq<Octet>, start: nat)
    ensures var symbols := StreamSymbols(bytes);
            Tag(symbols, start, start) == Owned(symbols, |symbols|, start) <==> NoneOvertaken(symbols, start)
  {
    StreamFromFrames(bytes);
    FramesAreOwned(StreamSymbols(bytes), start);
  }

  // A frame of zero data, but for bytes 0 and 14 and the flags of byte 15.
  function SparseFrame(first: Octet, fourteenth: Octet, flags: Octet): (frame: seq<Octet>)
    ensures |frame| == 16
  {
    [first] + seq(13, i => Zeros(8)) + [fourteenth, flags]
  }

  // Byte 14 of the first frame announces source 5 with a delay, byte 0 of the second announces it again.
  function FiveTwice(): seq<Octet> {
    var toFive: Octet := [true] + FromNat(5, 7);
    SparseFrame(Zeros(8), toFive, Zeros(7) + [true]) + SparseFrame(toFive, Zeros(8), Zeros(8))
  }

  // Two frames for which it does not: the byte after the second change still goes to the source before.
  lemma StackedDelayDiffers()
    ensures var symbols := StreamSymbols(FiveTwice());
            |symbols| == 30 && symbols[14] == NewId(5, true) && symbols[15] == NewId(5, false)
            && symbols[16] == Data(Zeros(8))
            && NextAt(symbols, 16, 3) == 3 && Owner(symbols, 16, 3) == 5
            && Tag(symbols, 3, 3) != Owned(symbols, 30, 3)
  {
    hide FiveTwice, NextAt, Owner, Tag, Owned, NoneOvertaken, StreamSymbols, IdBefore;
    FiveSymbols();
    var symbols := StreamSymbols(FiveTwice());
    OnlyData(symbols, 14, 3);
    FiveAgain(symbols);
    StreamFromFrames(FiveTwice());
    FramesAreOwned(symbols, 3);
  }

  lemma FiveSymbols()
    ensures var symbols := StreamSymbols(FiveTwice());
            |symbols| == 30 && symbols[14] == NewId(5, true) && symbols[15] == NewId(5, false)
            && symbols[16] == Data(Zeros(8))
            && forall p | 0 <= p < 14 :: symbols[p].Data?
  {
    hide SparseFrame, SymbolAt, StreamSymbols;
    var toFive: Octet := [true] + FromNat(5, 7);
    var one, two := SparseFrame(Zeros(8), toFive, Zeros(7) + [true]), SparseFrame(toFive, Zeros(8), Zeros(8));
    TwoFrameSymbols(one, two);
    FiveFrames(toFive);
    var symbols := StreamSymbols(one + two);
    assert symbols[0 + 15] == SymbolAt(two, 0) && symbols[1 + 15] == SymbolAt(two, 1);
  }

  lemma TwoFrameSymbols(one: seq<Octet>, two: seq<Octet>)
    requires |one| == |two| == 16
    ensures var symbols := StreamSymbols(one + two);
            |symbols| == 30
            && forall p | 0 <= p < 15 :: symbols[p] == SymbolAt(one, p) && symbols[p + 15] == SymbolAt(two, p)
  {
    hide FrameSymbols, StreamSymbols, SymbolAt;
    TwoFrames(one, two);
    forall p | 0 <= p < 15
      ensures FrameSymbols(one, 0)[p] == SymbolAt(one, p) && FrameSymbols(two, 0)[p] == SymbolAt(two, p)
    {
      FrameSymbolAt(one, 0, p);
      FrameSymbolAt(two, 0, p);
    }
  }

  lemma TwoFrames(one: seq<Octet>, two: seq<Octet>)
    requires |one| == |two| == 16
    ensures StreamSymbols(one + two) == FrameSymbols(one, 0) + FrameSymbols(two, 0)
  {
    hide FrameSymbols;
    assert (one + two)[..16] == one && (one + two)[16..] == two && two[..16] == two && two[16..] == [];
    assert StreamSymbols(two) == FrameSymbols(two, 0) + StreamSymbols([]);
  }

  lemma FiveFrames(toFive: Octet)
    requires toFive == [true] + FromNat(5, 7)
    ensures var one, two := SparseFrame(Zeros(8), toFive, Zeros(7) + [true]), SparseFrame(toFive, Zeros(8), Zeros(8));
            SymbolAt(one, 14) == NewId(5, true) && SymbolAt(two, 0) == NewId(5, false) && SymbolAt(two, 1) == Data(Zeros(8))
            && forall p | 0 <= p < 14 :: SymbolAt(one, p).Data?
  {
    hide ToNat, FromNat;
    FiveIsFive();
    assert toFive[1..] == FromNat(5, 7);
    FirstFive(toFive);
    SecondFive(toFive);
  }

  lemma FirstFive(toFive: Octet)
    requires toFive[0]
    ensures var one := SparseFrame(Zeros(8), toFive, Zeros(7) + [true]);
            SymbolAt(one, 14) == NewId(ToNat(toFive[1..]), true) && forall p | 0 <= p < 14 :: SymbolAt(one, p).Data?
  {
    hide ToNat;
    var one := SparseFrame(Zeros(8), toFive, Zeros(7) + [true]);
    assert one[14] == toFive && one[15] == Zeros(7) + [true];
    assert forall p | 0 <= p < 14 :: one[p] == Zeros(8);
    hide SparseFrame;
  }

  lemma SecondFive(toFive: Octet)
    requires toFive[0]
    ensures var two := SparseFrame(toFive, Zeros(8), Zeros(8));
            SymbolAt(two, 0) == NewId(ToNat(toFive[1..]), false) && SymbolAt(two, 1) == Data(Zeros(8))
  {
    hide ToNat;
    var two := SparseFrame(toFive, Zeros(8), Zeros(8));
    assert two[0] == toFive && two[1] == Zeros(8) && two[15] == Zeros(8);
    hide SparseFrame;
  }

  lemma FiveIsFive()
    ensures ToNat(FromNat(5, 7)) == 5
  {
    assert Pow2(7) == 128;
    ToNatFromNat(5, 7);
  }

  lemma FiveAgain(symbols: seq<Symbol>)
    requires |symbols| == 30 && IdBefore(symbols, 14, 3) == 3 && symbols[13].Data?
    requires symbols[14] == NewId(5, true) && symbols[15] == NewId(5, false)
    ensures NextAt(symbols, 16, 3) == 3 && Owner(symbols, 16, 3) == 5 && !NoneOvertaken(symbols, 3)
  {
    assert IdBefore(symbols, 15, 3) == 5 && NextAt(symbols, 14, 3) == 3;
    assert NextAt(symbols, 15, 3) == 3;
    assert Overtakes(symbols, 15, 3);
  }

  lemma {:induction false} OnlyData(symbols: seq<Symbol>, p: nat, start: nat)
    requires p <= |symbols| && forall i | 0 <= i < p :: symbols[i].Data?
    ensures IdBefore(symbols, p, start) == start
  {
    if p != 0 { OnlyData(symbols, p - 1, start); }
  }

  lemma {:induction false} TagConcat(a: seq<Symbol>, b: seq<Symbol>, current: nat, next: nat)
    ensures var end := TagEnd(a, current, next);
            Tag(a + b, current, next) == Tag(a, current, next) + Tag(b, end.0, end.1)
  {
    if a == [] {
      assert a + b == b;
    } else {
      assert (a + b)[1..] == a[1..] + b;
      match a[0]
      case NewId(id, delayed) =>
        if id == current {
          TagConcat(a[1..], b, current, next);
        } else {
          TagConcat(a[1..], b, id, if delayed then next else id);
        }
      case Data(value) =>
        TagConcat(a[1..], b, current, current);
    }
  }

  // The two IDs in force after the symbols.
  function TagEnd(symbols: seq<Symbol>, current: nat, next: nat): (nat, nat) {
    if symbols == [] then (current, next) else
    match symbols[0]
    case NewId(id, delayed) =>
      if id == current then TagEnd(symbols[1..], current, next)
      else TagEnd(symbols[1..], id, if delayed then next else id)
    case Data(value) =>
      TagEnd(symbols[1..], current, current)
  }
}

/** A packer of tagged bytes into frames, as the trace hardware does it, and its round trip. */
module FormatterPacking {
  import opened Octets
  import opened Formatter

  // Source 0 is the null source; its bytes fill a frame when nothing is left to send.
  const NULL: Tagged := Tagged(0, [false, false, false, false, false, false, false, false])

  function Head(items: seq<Tagged>): Tagged {
    if items == [] then NULL else items[0]
  }

  function Tail(items: seq<Tagged>): seq<Tagged> {
    if items == [] then [] else items[1..]
  }

  // Symbols sent so far, what is left to send, and the source now in force.
  datatype Packed = Packed(symbols: seq<Symbol>, rest: seq<Tagged>, current: nat)

  // An even byte and the odd byte after it.
  function PackPair(items: seq<Tagged>, current: nat): Packed {
    var first, second := Head(items), Head(Tail(items));
    if first.id != current then
      Packed([NewId(first.id, false), Data(first.value)], Tail(items), first.id)
    else if second.id != current then
      Packed([NewId(second.id, true), Data(first.value)], Tail(items), second.id)
    else
      Packed([Data(first.value), Data(second.value)], Tail(Tail(items)), current)
  }

  function PackPairs(items: seq<Tagged>, current: nat, n: nat): (p: Packed)
    ensures |p.symbols| == 2 * n && |p.rest| <= |items|
  {
    if n == 0 then Packed([], items, current) else
      var pair := PackPair(items, current);
      var more := PackPairs(pair.rest, pair.current, n - 1);
      more.(symbols := pair.symbols + more.symbols)
  }

  // Byte 14 stands alone.
  function PackLast(items: seq<Tagged>, current: nat): Packed {
    var first := Head(items);
    if first.id != current then Packed([NewId(first.id, false)], items, first.id)
    else Packed([Data(first.value)], Tail(items), current)
  }

  function PackFrame(items: seq<Tagged>, current: nat): (p: Packed)
    ensures |p.symbols| == 15
  {
    var pairs := PackPairs(items, current, 7);
    var last := PackLast(pairs.rest, pairs.current);
    last.(symbols := pairs.symbols + last.symbols)
  }

  function ByteOf(s: Symbol, even: bool): Octet {
    match s
    case NewId(id, delayed) => [true] + FromNat(id, 7)
    case Data(value) => if even then [false] + value[1..] else value
  }

  function FlagOf(s: Symbol): bool {
    match s
    case NewId(id, delayed) => delayed
    case Data(value) => value[0]
  }

  // The 16 bytes that carry 15 symbols.
  function Assemble(symbols: seq<Symbol>): (frame: seq<Octet>)
    requires |symbols| == 15
    ensures |frame| == 16
  {
    seq(15, i requires 0 <= i < 15 => ByteOf(symbols[i], i % 2 == 0))
    + [[FlagOf(symbols[0]), FlagOf(symbols[2]), FlagOf(symbols[4]), FlagOf(symbols[6]),
        FlagOf(symbols[8]), FlagOf(symbols[10]), FlagOf(symbols[12]), FlagOf(symbols[14])]]
  }

  function Pack(items: seq<Tagged>, current: nat): seq<Octet>
    decreases |items|
  {
    if items == [] then [] else
      var p := PackFrame(items, current);
      PackFrameProgress(items, current);
      Assemble(p.symbols) + Pack(p.rest, p.current)
  }

  lemma PackFrameProgress(items: seq<Tagged>, current: nat)
    requires items != []
    ensures |PackFrame(items, current).rest| < |items|
  {
    var pair := PackPair(items, current);
    assert PackPairs(items, current, 7).rest == PackPairs(pair.rest, pair.current, 6).rest;
  }

  // A frame can be sent when its odd bytes are data and its IDs have seven bits.
  predicate Sendable(symbols: seq<Symbol>) {
    forall i | 0 <= i < |symbols| ::
      (i % 2 == 1 ==> symbols[i].Data?) && (symbols[i].NewId? ==> symbols[i].id < 128)
  }

  lemma {:induction false} FrameOfSymbols(symbols: seq<Symbol>, i: nat)
    requires |symbols| == 15 && Sendable(symbols) && i <= 15
    ensures FrameSymbols(Assemble(symbols), i) == symbols[i..]
    decreases 15 - i
  {
    hide Assemble, SymbolAt, Sendable;
    if i < 15 {
      FrameOfSymbols(symbols, i + 1);
      SymbolSurvives(symbols, i);
      assert symbols[i..] == [symbols[i]] + symbols[i + 1..];
    }
  }

  lemma SymbolSurvives(symbols: seq<Symbol>, i: nat)
    requires |symbols| == 15 && Sendable(symbols) && i < 15
    ensures SymbolAt(Assemble(symbols), i) == symbols[i]
  {
    var frame := Assemble(symbols);
    assert frame[i] == ByteOf(symbols[i], i % 2 == 0);
    if i % 2 == 0 {
      assert frame[15][i / 2] == FlagOf(symbols[i]);
      match symbols[i]
      case NewId(id, delayed) =>
        assert Pow2(7) == 128;
        ToNatFromNat(id, 7);
        assert frame[i][1..] == FromNat(id, 7);
      case Data(value) =>
        assert [value[0]] + value[1..] == value;
    }
  }

  predicate IdsFit(items: seq<Tagged>) {
    forall i | 0 <= i < |items| :: items[i].id < 128
  }

  // sent is items, possibly followed by null bytes.
  predicate Padded(sent: seq<Tagged>, items: seq<Tagged>) {
    |items| <= |sent| && sent[..|items|] == items && forall i | |items| <= i < |sent| :: sent[i] == NULL
  }

  // One ID change, or none, and the data bytes behind it.
  lemma TwoSymbols(a: Symbol, b: Symbol, current: nat)
    requires b.Data?
    ensures a.Data? ==> Tag([a, b], current, current) == [Tagged(current, a.value), Tagged(current, b.value)]
                        && TagEnd([a, b], current, current) == (current, current)
    ensures a.NewId? ==> Tag([a, b], current, current) == [Tagged(if a.delayed then current else a.id, b.value)]
                         && TagEnd([a, b], current, current) == (a.id, a.id)
  {
    var s := [a, b];
    assert s[1..] == [b];
    var next := if a.Data? then current else if a.id != current && !a.delayed then a.id else current;
    LastSymbol(b, if a.Data? then current else a.id, next);
  }

  lemma LastSymbol(b: Symbol, current: nat, next: nat)
    requires b.Data?
    ensures Tag([b], current, next) == [Tagged(next, b.value)] && TagEnd([b], current, next) == (current, current)
  {
    assert [b][1..] == [];
  }

  lemma PairCorrect(items: seq<Tagged>, current: nat)
    requires IdsFit(items) && current < 128
    ensures var p := PackPair(items, current);
            IdsFit(p.rest) && p.current < 128 && Sendable(p.symbols) && |p.rest| <= |items|
            && TagEnd(p.symbols, current, current) == (p.current, p.current)
            && Padded(Tag(p.symbols, current, current) + p.rest, items)
  {
    hide Tag, TagEnd;
    var p := PackPair(items, current);
    TwoSymbols(p.symbols[0], p.symbols[1], current);
    var first, second := Head(items), Head(Tail(items));
    if first.id == current == second.id {
      PaddedByTwo(items);
    } else {
      PaddedByOne(items);
    }
  }

  lemma PaddedByOne(items: seq<Tagged>)
    ensures Padded([Head(items)] + Tail(items), items)
  {}

  lemma PaddedByTwo(items: seq<Tagged>)
    ensures Padded([Head(items), Head(Tail(items))] + Tail(Tail(items)), items)
  {
    PaddedByOne(items);
    PaddedByOne(Tail(items));
    var one := [Head(Tail(items))] + Tail(Tail(items));
    PaddedPrefix([Head(items)], one, Tail(items));
    PaddedTrans([Head(items)] + one, [Head(items)] + Tail(items), items);
    assert [Head(items), Head(Tail(items))] + Tail(Tail(items)) == [Head(items)] + one;
  }

  lemma PaddedTrans(a: seq<Tagged>, b: seq<Tagged>, c: seq<Tagged>)
    requires Padded(a, b) && Padded(b, c)
    ensures Padded(a, c)
  {
    assert a[..|c|] == b[..|c|];
    forall i | |c| <= i < |a|
      ensures a[i] == NULL
    {
      if i < |b| { assert a[i] == a[..|b|][i] == b[i]; }
    }
  }

  lemma PaddedPrefix(x: seq<Tagged>, a: seq<Tagged>, b: seq<Tagged>)
    requires Padded(a, b)
    ensures Padded(x + a, x + b)
  {
    var xa, n := x + a, |x + b|;
    assert xa[..n] == x + a[..|b|];
    forall i | n <= i < |xa|
      ensures xa[i] == NULL
    {
      assert xa[i] == a[i - |x|];
    }
  }

  lemma PairsNone(items: seq<Tagged>, current: nat)
    ensures Sendable([]) && TagEnd([], current, current) == (current, current)
    ensures Padded(Tag([], current, current) + items, items)
  {}

  lemma SendableJoin(a: seq<Symbol>, b: seq<Symbol>)
    requires Sendable(a) && Sendable(b) && |a| % 2 == 0
    ensures Sendable(a + b)
  {
    forall i | |a| <= i < |a + b|
      ensures (i % 2 == 1 ==> (a + b)[i].Data?) && ((a + b)[i].NewId? ==> (a + b)[i].id < 128)
    {
      assert (a + b)[i] == b[i - |a|];
    }
  }

  lemma {:induction false} PairsCorrect(items: seq<Tagged>, current: nat, n: nat)
    requires IdsFit(items) && current < 128
    ensures var p := PackPairs(items, current, n);
            IdsFit(p.rest) && p.current < 128 && Sendable(p.symbols)
            && TagEnd(p.symbols, current, current) == (p.current, p.current)
            && Padded(Tag(p.symbols, current, current) + p.rest, items)
    decreases n
  {
    hide Sendable, Padded, IdsFit, Tag, TagEnd;
    if n == 0 {
      PairsNone(items, current);
    } else {
      var pair := PackPair(items, current);
      var more := PackPairs(pair.rest, pair.current, n - 1);
      PairCorrect(items, current);
      PairsCorrect(pair.rest, pair.current, n - 1);
      JoinCorrect(pair.symbols, more.symbols, current, pair.current, more.current, more.rest, pair.rest, items);
      SendableJoin(pair.symbols, more.symbols);
    }
  }

  // Two packed pieces, one after the other.
  lemma JoinCorrect(a: seq<Symbol>, b: seq<Symbol>, current: nat, middle: nat, end: nat,
                    restB: seq<Tagged>, restA: seq<Tagged>, items: seq<Tagged>)
    requires TagEnd(a, current, current) == (middle, middle) && TagEnd(b, middle, middle) == (end, end)
    requires Padded(Tag(a, current, current) + restA, items)
    requires Padded(Tag(b, middle, middle) + restB, restA)
    ensures TagEnd(a + b, current, current) == (end, end)
    ensures Padded(Tag(a + b, current, current) + restB, items)
  {
    TagConcat(a, b, current, current);
    TagEndConcat(a, b, current, current);
    var ta, tb := Tag(a, current, current), Tag(b, middle, middle);
    PaddedPrefix(ta, tb + restB, restA);
    assert (ta + tb) + restB == ta + (tb + restB);
    PaddedTrans(ta + tb + restB, ta + restA, items);
  }

  lemma {:induction false} TagEndConcat(a: seq<Symbol>, b: seq<Symbol>, current: nat, next: nat)
    ensures var end := TagEnd(a, current, next);
            TagEnd(a + b, current, next) == TagEnd(b, end.0, end.1)
  {
    if a == [] {
      assert a + b == b;
    } else {
      assert (a + b)[1..] == a[1..] + b;
      match a[0]
      case NewId(id, delayed) =>
        if id == current {
          TagEndConcat(a[1..], b, current, next);
        } else {
          TagEndConcat(a[1..], b, id, if delayed then next else id);
        }
      case Data(value) =>
        TagEndConcat(a[1..], b, current, current);
    }
  }

  lemma LastCorrect(items: seq<Tagged>, current: nat)
    requires IdsFit(items) && current < 128
    ensures var p := PackLast(items, current);
            IdsFit(p.rest) && p.current < 128 && Sendable(p.symbols)
            && TagEnd(p.symbols, current, current) == (p.current, p.current)
            && Padded(Tag(p.symbols, current, current) + p.rest, items)
  {
    var s := PackLast(items, current).symbols;
    assert s[1..] == [];
  }

  lemma FrameCorrect(items: seq<Tagged>, current: nat)
    requires IdsFit(items) && current < 128
    ensures var p := PackFrame(items, current);
            IdsFit(p.rest) && p.current < 128 && Sendable(p.symbols)
            && TagEnd(p.symbols, current, current) == (p.current, p.current)
            && Padded(Tag(p.symbols, current, current) + p.rest, items)
  {
    var pairs := PackPairs(items, current, 7);
    var last := PackLast(pairs.rest, pairs.current);
    hide Sendable, Padded, IdsFit, Tag, TagEnd;
    PairsCorrect(items, current, 7);
    LastCorrect(pairs.rest, pairs.current);
    SendableJoin(pairs.symbols, last.symbols);
    JoinCorrect(pairs.symbols, last.symbols, current, pairs.current, last.current, last.rest, pairs.rest, items);
  }

  // Packing any interleaving of sources and taking the frames apart again gives the same tagged
  // bytes back, followed at most by null bytes.
  lemma {:induction false} PackRoundTrip(items: seq<Tagged>, current: nat)
    requires IdsFit(items) && current < 128
    ensures Padded(Tag(StreamSymbols(Pack(items, current)), current, current), items)
    decreases |items|
  {
    if items != [] {
      var p := PackFrame(items, current);
      PackFrameProgress(items, current);
      FrameCorrect(items, current);
      var frame, more := Assemble(p.symbols), Pack(p.rest, p.current);
      FrameOfSymbols(p.symbols, 0);
      assert (frame + more)[..16] == frame && (frame + more)[16..] == more;
      assert FrameSymbols(frame, 0) == p.symbols;
      PackRoundTrip(p.rest, p.current);
      var tail := StreamSymbols(more);
      TagConcat(p.symbols, tail, current, current);
      var sent := Tag(p.symbols, current, current);
      PaddedPrefix(sent, Tag(tail, p.current, p.current), p.rest);
      PaddedTrans(sent + Tag(tail, p.current, p.current), sent + p.rest, items);
    }
  }

  lemma {:induction false} PickPadded(sent: seq<Tagged>, items: seq<Tagged>, mask: BitSeq)
    requires Padded(sent, items) && !Matches(mask, 0)
    ensures Pick(sent, mask) == Pick(items, mask)
  {
    if items != [] {
      assert sent[1..][..|items| - 1] == items[1..];
      PickPadded(sent[1..], items[1..], mask);
    } else if sent != [] {
      PickPadded(sent[1..], [], mask);
    }
  }

  // Reading the sources of a mask back from packed frames gives exactly their bytes, in order.
  lemma ReadBack(items: seq<Tagged>, mask: BitSeq)
    requires IdsFit(items) && !Matches(mask, 0)
    ensures Pick(Tag(StreamSymbols(Pack(items, 0)), 0, 0), mask) == Pick(items, mask)
  {
    PackRoundTrip(items, 0);
    PickPadded(Tag(StreamSymbols(Pack(items, 0)), 0, 0), items, mask);
  }
}
