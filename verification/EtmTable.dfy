/** The packet tables: which header byte starts which packet. */
module EtmTable {
  import opened Octets

  datatype Handler =
    | HBranch | HAsync | HCCount | HISync | HISyncCC | HVmid | HData | HTimestamp | HIgnore | HContextId | HPHeader
    | HISyncPft | HAtom | HBranchPft | HWaypoint | HTrigger | HTimestampPft | HExceptRet
    | HNone

  datatype Row = Row(mask: bv8, val: bv8, nonzero: bv8, handler: Handler)

  datatype Protocol = Etm33 | Pft

  // Both tables have 26 rows and then one that matches everything.
  const ROWS: nat := 26

  function EtmRow(i: nat): Row {
    if i < 13 then EtmRowLow(i) else EtmRowHigh(i)
  }

  function EtmRowLow(i: nat): Row {
    if i == 0 then Row(0x01, 0x01, 0x00, HBranch)
    else if i == 1 then Row(0xff, 0x00, 0x00, HAsync)
    else if i == 2 then Row(0xff, 0x04, 0x00, HCCount)
    else if i == 3 then Row(0xff, 0x08, 0x00, HISync)
    else if i == 4 then Row(0xff, 0x0c, 0x00, HNone)
    else if i == 5 then Row(0x93, 0x00, 0x60, HNone)
    else if i == 6 then Row(0xff, 0x50, 0x00, HNone)
    else if i == 7 then Row(0xff, 0x70, 0x00, HISyncCC)
    else if i == 8 then Row(0xd3, 0x50, 0x0c, HNone)
    else if i == 9 then Row(0xd3, 0x12, 0x00, HNone)
    else if i == 10 then Row(0xf3, 0x10, 0x00, HNone)
    else if i == 11 then Row(0xfb, 0x30, 0x00, HNone)
    else Row(0xff, 0x3c, 0x00, HVmid)
  }

  function EtmRowHigh(i: nat): Row {
    if i == 13 then Row(0xff, 0x38, 0x00, HNone)
    else if i == 14 then Row(0xd3, 0x02, 0x00, HData)
    else if i == 15 then Row(0xf3, 0x52, 0x00, HNone)
    else if i == 16 then Row(0xfb, 0x42, 0x00, HTimestamp)
    else if i == 17 then Row(0xfb, 0x4a, 0x00, HNone)
    else if i == 18 then Row(0xff, 0x62, 0x00, HNone)
    else if i == 19 then Row(0xff, 0x66, 0x00, HIgnore)
    else if i == 20 then Row(0xef, 0x6a, 0x00, HNone)
    else if i == 21 then Row(0xff, 0x6e, 0x00, HContextId)
    else if i == 22 then Row(0xff, 0x76, 0x00, HNone)
    else if i == 23 then Row(0xff, 0x7e, 0x00, HNone)
    else if i == 24 then Row(0xff, 0x72, 0x00, HNone)
    else if i == 25 then Row(0x81, 0x80, 0x00, HPHeader)
    else Row(0x00, 0x00, 0x00, HNone)
  }

  function PftRow(i: nat): Row {
    if i < 13 then PftRowLow(i) else PftRowHigh(i)
  }

  function PftRowLow(i: nat): Row {
    if i == 0 then Row(0xff, 0x00, 0x00, HAsync)
    else if i == 1 then Row(0xff, 0x08, 0x00, HISyncPft)
    else if i == 2 then Row(0x81, 0x80, 0x00, HAtom)
    else if i == 3 then Row(0x01, 0x01, 0x00, HBranchPft)
    else if i == 4 then Row(0xff, 0x72, 0x00, HWaypoint)
    else if i == 5 then Row(0xff, 0x0c, 0x00, HTrigger)
    else if i == 6 then Row(0xff, 0x6e, 0x00, HContextId)
    else if i == 7 then Row(0xff, 0x3c, 0x00, HVmid)
    else if i == 8 then Row(0xfb, 0x42, 0x00, HTimestampPft)
    else if i == 9 then Row(0xff, 0x76, 0x00, HExceptRet)
    else if i == 10 then Row(0xff, 0x66, 0x00, HIgnore)
    else if i == 11 then Row(0xff, 0x04, 0x00, HNone)
    else Row(0x93, 0x00, 0x60, HNone)
  }

  function PftRowHigh(i: nat): Row {
    if i == 13 then Row(0xff, 0x50, 0x00, HNone)
    else if i == 14 then Row(0xff, 0x70, 0x00, HNone)
    else if i == 15 then Row(0xd3, 0x50, 0x0c, HNone)
    else if i == 16 then Row(0xd3, 0x12, 0x00, HNone)
    else if i == 17 then Row(0xf3, 0x10, 0x00, HNone)
    else if i == 18 then Row(0xfb, 0x30, 0x00, HNone)
    else if i == 19 then Row(0xff, 0x38, 0x00, HNone)
    else if i == 20 then Row(0xd3, 0x02, 0x00, HNone)
    else if i == 21 then Row(0xf3, 0x52, 0x00, HNone)
    else if i == 22 then Row(0xfb, 0x4a, 0x00, HNone)
    else if i == 23 then Row(0xff, 0x62, 0x00, HNone)
    else if i == 24 then Row(0xef, 0x6a, 0x00, HNone)
    else if i == 25 then Row(0xff, 0x7e, 0x00, HNone)
    else Row(0x00, 0x00, 0x00, HNone)
  }

  function RowAt(p: Protocol, i: nat): Row {
    if p.Etm33? then EtmRow(i) else PftRow(i)
  }

  predicate IsMatch(r: Row, ch: bv8) {
    ch & r.mask == r.val && (r.nonzero == 0 || r.nonzero & ch != 0)
  }

  // The byte with the given bits.
  function ToByte(b: Octet): bv8 {
    (if b[0] then 0x01 else 0) | (if b[1] then 0x02 else 0) | (if b[2] then 0x04 else 0) | (if b[3] then 0x08 else 0)
    | (if b[4] then 0x10 else 0) | (if b[5] then 0x20 else 0) | (if b[6] then 0x40 else 0) | (if b[7] then 0x80 else 0)
  }

  // The first row from i on that matches.
  function FirstMatch(p: Protocol, ch: bv8, i: nat): (k: nat)
    requires i <= ROWS
    ensures i <= k <= ROWS
    decreases ROWS - i
  {
    if i == ROWS || IsMatch(RowAt(p, i), ch) then i else FirstMatch(p, ch, i + 1)
  }

  // The row for each byte, worked out by hand: below 26 always.
  function EtmIndex(x: bv8): nat {
    if x & 1 != 0 then 0
    else if x & 0x80 != 0 then 25
    else if x & 2 == 0 then
      // bits 1 and 0 clear
      if x & 0x10 == 0 then
        if x & 0x60 != 0 then 5
        else if x == 0 then 1 else if x == 4 then 2 else if x == 8 then 3 else 4
      else if x & 0x40 == 0 then
        if x & 0x20 == 0 then 10 else if x & 8 == 0 then 11 else if x == 0x38 then 13 else 12
      else if x == 0x50 then 6 else if x == 0x70 then 7 else 8
    else
      if x & 0x40 == 0 then
        if x & 0x10 == 0 then 14 else 9
      else if x & 0x20 == 0 then
        if x & 0x10 != 0 then 15 else if x & 8 == 0 then 16 else 17
      else if x == 0x62 then 18 else if x == 0x66 then 19 else if x & 0x8 != 0 && x & 4 == 0 then 20
      else if x == 0x6e then 21 else if x == 0x76 then 22 else if x == 0x7e then 23 else 24
  }

  lemma EtmRows0(x: bv8)
    ensures IsMatch(EtmRow(0), x) <==> EtmIndex(x) == 0
    ensures IsMatch(EtmRow(1), x) <==> EtmIndex(x) == 1
    ensures IsMatch(EtmRow(2), x) <==> EtmIndex(x) == 2
    ensures IsMatch(EtmRow(3), x) <==> EtmIndex(x) == 3
    ensures IsMatch(EtmRow(4), x) <==> EtmIndex(x) == 4
    ensures IsMatch(EtmRow(5), x) <==> EtmIndex(x) == 5
    ensures IsMatch(EtmRow(6), x) <==> EtmIndex(x) == 6
  {}

  lemma EtmRows1(x: bv8)
    ensures IsMatch(EtmRow(7), x) <==> EtmIndex(x) == 7
    ensures IsMatch(EtmRow(8), x) <==> EtmIndex(x) == 8
    ensures IsMatch(EtmRow(9), x) <==> EtmIndex(x) == 9
    ensures IsMatch(EtmRow(10), x) <==> EtmIndex(x) == 10
    ensures IsMatch(EtmRow(11), x) <==> EtmIndex(x) == 11
    ensures IsMatch(EtmRow(12), x) <==> EtmIndex(x) == 12
  {}

  lemma EtmRows2(x: bv8)
    ensures IsMatch(EtmRow(13), x) <==> EtmIndex(x) == 13
    ensures IsMatch(EtmRow(14), x) <==> EtmIndex(x) == 14
    ensures IsMatch(EtmRow(15), x) <==> EtmIndex(x) == 15
    ensures IsMatch(EtmRow(16), x) <==> EtmIndex(x) == 16
    ensures IsMatch(EtmRow(17), x) <==> EtmIndex(x) == 17
    ensures IsMatch(EtmRow(18), x) <==> EtmIndex(x) == 18
    ensures IsMatch(EtmRow(19), x) <==> EtmIndex(x) == 19
  {}

  lemma EtmRows3(x: bv8)
    ensures IsMatch(EtmRow(20), x) <==> EtmIndex(x) == 20
    ensures IsMatch(EtmRow(21), x) <==> EtmIndex(x) == 21
    ensures IsMatch(EtmRow(22), x) <==> EtmIndex(x) == 22
    ensures IsMatch(EtmRow(23), x) <==> EtmIndex(x) == 23
    ensures IsMatch(EtmRow(24), x) <==> EtmIndex(x) == 24
    ensures IsMatch(EtmRow(25), x) <==> EtmIndex(x) == 25
  {}

  lemma EtmRowIsIndex(x: bv8, i: nat)
    requires i < ROWS
    ensures IsMatch(EtmRow(i), x) <==> EtmIndex(x) == i
    ensures EtmIndex(x) < ROWS
  {
    hide IsMatch, EtmRow;
    EtmIndexBound(x);
    if i < 7 { EtmRows0(x); } else if i < 13 { EtmRows1(x); } else if i < 20 { EtmRows2(x); } else { EtmRows3(x); }
  }

  lemma EtmIndexBound(x: bv8)
    ensures EtmIndex(x) < ROWS
  {}

  // The PFT table has the patterns of the ETM table in another order: the ETM row k is its row PftPlace(k).
  function PftPlace(k: nat): nat {
    if k == 0 then 3 else if k == 1 then 0 else if k == 2 then 11 else if k == 3 then 1 else
    if k == 4 then 5 else if k == 5 then 12 else if k == 6 then 13 else if k == 7 then 14 else
    if k == 8 then 15 else if k == 9 then 16 else if k == 10 then 17 else if k == 11 then 18 else
    if k == 12 then 7 else if k == 13 then 19 else if k == 14 then 20 else if k == 15 then 21 else
    if k == 16 then 8 else if k == 17 then 22 else if k == 18 then 23 else if k == 19 then 10 else
    if k == 20 then 24 else if k == 21 then 6 else if k == 22 then 9 else if k == 23 then 25 else
    if k == 24 then 4 else 2
  }

  function EtmPlace(i: nat): nat {
    if i == 0 then 1 else if i == 1 then 3 else if i == 2 then 25 else if i == 3 then 0 else
    if i == 4 then 24 else if i == 5 then 4 else if i == 6 then 21 else if i == 7 then 12 else
    if i == 8 then 16 else if i == 9 then 22 else if i == 10 then 19 else if i == 11 then 2 else
    if i == 12 then 5 else if i == 13 then 6 else if i == 14 then 7 else if i == 15 then 8 else
    if i == 16 then 9 else if i == 17 then 10 else if i == 18 then 11 else if i == 19 then 13 else
    if i == 20 then 14 else if i == 21 then 15 else if i == 22 then 17 else if i == 23 then 18 else
    if i == 24 then 20 else 23
  }

  lemma PftRows0(x: bv8)
    ensures IsMatch(PftRow(0), x) <==> EtmIndex(x) == 1
    ensures IsMatch(PftRow(1), x) <==> EtmIndex(x) == 3
    ensures IsMatch(PftRow(2), x) <==> EtmIndex(x) == 25
    ensures IsMatch(PftRow(3), x) <==> EtmIndex(x) == 0
    ensures IsMatch(PftRow(4), x) <==> EtmIndex(x) == 24
    ensures IsMatch(PftRow(5), x) <==> EtmIndex(x) == 4
    ensures IsMatch(PftRow(6), x) <==> EtmIndex(x) == 21
  {}

  lemma PftRows1(x: bv8)
    ensures IsMatch(PftRow(7), x) <==> EtmIndex(x) == 12
    ensures IsMatch(PftRow(8), x) <==> EtmIndex(x) == 16
    ensures IsMatch(PftRow(9), x) <==> EtmIndex(x) == 22
    ensures IsMatch(PftRow(10), x) <==> EtmIndex(x) == 19
    ensures IsMatch(PftRow(11), x) <==> EtmIndex(x) == 2
    ensures IsMatch(PftRow(12), x) <==> EtmIndex(x) == 5
  {}

  lemma PftRows2(x: bv8)
    ensures IsMatch(PftRow(13), x) <==> EtmIndex(x) == 6
    ensures IsMatch(PftRow(14), x) <==> EtmIndex(x) == 7
    ensures IsMatch(PftRow(15), x) <==> EtmIndex(x) == 8
    ensures IsMatch(PftRow(16), x) <==> EtmIndex(x) == 9
    ensures IsMatch(PftRow(17), x) <==> EtmIndex(x) == 10
    ensures IsMatch(PftRow(18), x) <==> EtmIndex(x) == 11
    ensures IsMatch(PftRow(19), x) <==> EtmIndex(x) == 13
  {}

  lemma PftRows3(x: bv8)
    ensures IsMatch(PftRow(20), x) <==> EtmIndex(x) == 14
    ensures IsMatch(PftRow(21), x) <==> EtmIndex(x) == 15
    ensures IsMatch(PftRow(22), x) <==> EtmIndex(x) == 17
    ensures IsMatch(PftRow(23), x) <==> EtmIndex(x) == 18
    ensures IsMatch(PftRow(24), x) <==> EtmIndex(x) == 20
    ensures IsMatch(PftRow(25), x) <==> EtmIndex(x) == 23
  {}

  lemma PftRowIsIndex(x: bv8, i: nat)
    requires i < ROWS
    ensures IsMatch(PftRow(i), x) <==> EtmIndex(x) == EtmPlace(i)
  {
    hide IsMatch, PftRow, EtmIndex;
    if i < 7 { PftRows0(x); } else if i < 13 { PftRows1(x); } else if i < 20 { PftRows2(x); } else { PftRows3(x); }
  }

  lemma PlacesInvert(k: nat)
    requires k < ROWS
    ensures PftPlace(k) < ROWS && EtmPlace(PftPlace(k)) == k
    ensures EtmPlace(k) < ROWS && PftPlace(EtmPlace(k)) == k
  {}

  function RowIndex(p: Protocol, x: bv8): nat {
    if p.Etm33? then EtmIndex(x) else PftPlace(EtmIndex(x))
  }

  lemma RowIsIndex(p: Protocol, x: bv8, i: nat)
    requires i < ROWS
    ensures IsMatch(RowAt(p, i), x) <==> RowIndex(p, x) == i
    ensures RowIndex(p, x) < ROWS
  {
    hide EtmIndex, EtmRow, PftRow, EtmPlace, PftPlace, IsMatch;
    EtmRowIsIndex(x, i);
    PftRowIsIndex(x, i);
    PlacesInvert(EtmIndex(x));
    PlacesInvert(i);
  }

  lemma {:induction false} FirstMatchIsIndex(p: Protocol, x: bv8, i: nat)
    requires i <= RowIndex(p, x) < ROWS
    ensures FirstMatch(p, x, i) == RowIndex(p, x)
    decreases ROWS - i
  {
    hide IsMatch, RowAt, RowIndex;
    RowIsIndex(p, x, i);
    if i < RowIndex(p, x) { FirstMatchIsIndex(p, x, i + 1); }
  }

  // For every protocol and every byte exactly one row of the table matches, and the search finds it.
  lemma ExactlyOneRow(p: Protocol, x: bv8)
    ensures FirstMatch(p, x, 0) < ROWS
    ensures forall j: nat | j < ROWS :: IsMatch(RowAt(p, j), x) <==> j == FirstMatch(p, x, 0)
  {
    hide IsMatch, RowAt, RowIndex;
    RowIsIndex(p, x, 0);
    FirstMatchIsIndex(p, x, 0);
    forall j: nat | j < ROWS
      ensures IsMatch(RowAt(p, j), x) <==> j == FirstMatch(p, x, 0)
    {
      RowIsIndex(p, x, j);
    }
  }

  // The packet that a header byte starts.
  function HandlerOf(p: Protocol, header: Octet): Handler {
    RowAt(p, FirstMatch(p, ToByte(header), 0)).handler
  }

  /** ---- Which byte starts which packet ---- */

  // The headers of Arm IHI 0014 and of Arm IHI 0035, as far as the program decodes their packets.
  function Starts(p: Protocol, x: bv8): Handler {
    if x & 0x01 != 0 then if p.Etm33? then HBranch else HBranchPft
    else if x & 0x80 != 0 then if p.Etm33? then HPHeader else HAtom
    else if x == 0x00 then HAsync
    else if x == 0x08 then if p.Etm33? then HISync else HISyncPft
    else if x == 0x3c then HVmid
    else if x == 0x42 || x == 0x46 then if p.Etm33? then HTimestamp else HTimestampPft
    else if x == 0x66 then HIgnore
    else if x == 0x6e then HContextId
    else if p.Etm33? then if x == 0x04 then HCCount else if x == 0x70 then HISyncCC
        else if x & 0xd3 == 0x02 then HData else HNone
    else if x == 0x0c then HTrigger else if x == 0x72 then HWaypoint else if x == 0x76 then HExceptRet else HNone
  }

  lemma EtmStarts(x: bv8)
    ensures EtmRow(EtmIndex(x)).handler == Starts(Etm33, x)
  {}

  function PftHandler(k: nat): Handler {
    if k == 0 then HBranchPft else if k == 1 then HAsync else if k == 3 then HISyncPft else if k == 4 then HTrigger
    else if k == 12 then HVmid else if k == 16 then HTimestampPft else if k == 19 then HIgnore
    else if k == 21 then HContextId else if k == 22 then HExceptRet else if k == 24 then HWaypoint
    else if k == 25 then HAtom else HNone
  }

  lemma PftHandlers(k: nat)
    requires k < ROWS
    ensures PftRow(PftPlace(k)).handler == PftHandler(k)
  {}

  lemma PftStarts(x: bv8)
    ensures PftRow(PftPlace(EtmIndex(x))).handler == Starts(Pft, x)
  {
    EtmIndexBound(x);
    PftHandlers(EtmIndex(x));
    hide PftRow, PftPlace;
  }

  // Each of the 256 bytes starts the packet it should in either protocol.
  lemma HeaderStarts(p: Protocol, header: Octet)
    ensures HandlerOf(p, header) == Starts(p, ToByte(header))
  {
    hide EtmRow, PftRow, EtmIndex, PftPlace, Starts, IsMatch, ToByte;
    var x := ToByte(header);
    RowIsIndex(p, x, 0);
    FirstMatchIsIndex(p, x, 0);
    EtmStarts(x);
    PftStarts(x);
  }

  // The byte of a number.
  function Header(x: bv8): Octet {
    [x & 0x01 != 0, x & 0x02 != 0, x & 0x04 != 0, x & 0x08 != 0, x & 0x10 != 0, x & 0x20 != 0, x & 0x40 != 0, x & 0x80 != 0]
  }

  lemma HeaderByte(x: bv8)
    ensures ToByte(Header(x)) == x
  {}
}
