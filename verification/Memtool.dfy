/** Bit fields of a register and the access to physical memory through one mapped page. Words are bit
    sequences, least significant bit first. */
module Memtool {
  import opened Octets
  import opened WordBits

  const PAGE: nat := 4096
  const WRAP: nat := 0x1_0000_0000

  /** ---- Words ---- */

  // The right shift of a signed number.
  function Sar(w: Word, n: nat): Word
    requires n <= 32
  {
    w[n..] + seq(n, i => w[31])
  }

  /** ---- Fields ---- */

  function GetValue(value: Word, lsb: nat, msb: nat): Word
    requires lsb <= msb < 32
  {
    And(Sar(value, lsb), Shr(Ones(32), 31 - (msb - lsb)))
  }

  function Mask(lsb: nat, msb: nat): Word
    requires lsb <= msb < 32
  {
    Shr(Shl(Shl(Shr(Ones(32), lsb), lsb), 31 - msb), 31 - msb)
  }

  function SetField(org: Word, value: Word, lsb: nat, msb: nat): Word
    requires lsb <= msb < 32
  {
    Or(And(org, Not(Mask(lsb, msb))), And(Shl(value, lsb), Mask(lsb, msb)))
  }

  lemma MaskBits(lsb: nat, msb: nat)
    requires lsb <= msb < 32
    ensures forall i | 0 <= i < 32 :: Mask(lsb, msb)[i] == (lsb <= i <= msb)
  {
    var a := Shl(Shr(Ones(32), lsb), lsb);
    assert forall i | 0 <= i < 32 :: a[i] == (lsb <= i);
    var b := Shl(a, 31 - msb);
    assert forall i | 0 <= i < 32 :: b[i] == (lsb + 31 - msb <= i);
  }

  // Extraction takes exactly the bits of the field, whatever the sign of the register.
  lemma GetValueIsField(value: Word, lsb: nat, msb: nat)
    requires lsb <= msb < 32
    ensures GetValue(value, lsb, msb) == value[lsb..msb + 1] + Zeros(31 - (msb - lsb))
    ensures ToNat(GetValue(value, lsb, msb)) == ToNat(value) / Pow2(lsb) % Pow2(msb - lsb + 1)
  {
    var n := msb - lsb + 1;
    var field := value[lsb..msb + 1];
    var m := Shr(Ones(32), 32 - n);
    assert forall i | 0 <= i < 32 :: m[i] == (i < n);
    assert GetValue(value, lsb, msb) == field + Zeros(32 - n);
    FieldValue(value, lsb, n);
    ToNatJoin(field, Zeros(32 - n));
    ZerosAreNothing(32 - n);
  }

  // A field write replaces exactly the bits of the field by the low bits of the value.
  lemma SetFieldSplices(org: Word, value: Word, lsb: nat, msb: nat)
    requires lsb <= msb < 32
    ensures SetField(org, value, lsb, msb) == org[..lsb] + value[..msb - lsb + 1] + org[msb + 1..]
  {
    MaskBits(lsb, msb);
    hide Mask;
  }

  // Reading a field back gives the value modulo the width of the field.
  lemma WriteThenRead(org: Word, value: Word, lsb: nat, msb: nat)
    requires lsb <= msb < 32
    ensures ToNat(GetValue(SetField(org, value, lsb, msb), lsb, msb)) == ToNat(value) % Pow2(msb - lsb + 1)
  {
    hide SetField, GetValue;
    var n := msb - lsb + 1;
    var w := SetField(org, value, lsb, msb);
    SetFieldSplices(org, value, lsb, msb);
    GetValueIsField(w, lsb, msb);
    MiddlePart(org[..lsb], value[..n], org[msb + 1..]);
    assert w[lsb..msb + 1] == value[..n];
    FieldValue(w, lsb, n);
    CutValue(value, n);
  }

  lemma OutsideField(org: Word, value: Word, lsb: nat, msb: nat, w: Word, lsb': nat, msb': nat)
    requires lsb <= msb < 32 && lsb' <= msb' < 32 && (msb < lsb' || msb' < lsb)
    requires w == org[..lsb] + value[..msb - lsb + 1] + org[msb + 1..]
    ensures w[lsb'..msb' + 1] == org[lsb'..msb' + 1]
  {
    assert forall i | lsb' <= i <= msb' :: w[i] == org[i];
  }

  // A field that does not overlap reads as before.
  lemma OtherFieldsKept(org: Word, value: Word, lsb: nat, msb: nat, lsb': nat, msb': nat)
    requires lsb <= msb < 32 && lsb' <= msb' < 32 && (msb < lsb' || msb' < lsb)
    ensures GetValue(SetField(org, value, lsb, msb), lsb', msb') == GetValue(org, lsb', msb')
  {
    hide SetField, GetValue;
    var w := SetField(org, value, lsb, msb);
    SetFieldSplices(org, value, lsb, msb);
    GetValueIsField(w, lsb', msb');
    GetValueIsField(org, lsb', msb');
    OutsideField(org, value, lsb, msb, w, lsb', msb');
  }

  lemma LaterWriteWins(org: Word, first: Word, second: Word, lsb: nat, msb: nat)
    requires lsb <= msb < 32
    ensures SetField(SetField(org, first, lsb, msb), second, lsb, msb) == SetField(org, second, lsb, msb)
  {
    hide SetField;
    SetFieldSplices(org, first, lsb, msb);
    SetFieldSplices(org, second, lsb, msb);
    SetFieldSplices(SetField(org, first, lsb, msb), second, lsb, msb);
  }

  lemma DisjointWritesCommute(org: Word, v: Word, lsb: nat, msb: nat, v': Word, lsb': nat, msb': nat)
    requires lsb <= msb < lsb' <= msb' < 32
    ensures SetField(SetField(org, v, lsb, msb), v', lsb', msb') == SetField(SetField(org, v', lsb', msb'), v, lsb, msb)
  {
    hide SetField;
    SetFieldSplices(org, v, lsb, msb);
    SetFieldSplices(org, v', lsb', msb');
    SetFieldSplices(SetField(org, v, lsb, msb), v', lsb', msb');
    SetFieldSplices(SetField(org, v', lsb', msb'), v, lsb, msb);
  }

  /** ---- Flat memory ---- */

  predicate IsWidth(width: nat) {
    width == 1 || width == 2 || width == 4
  }

  // The access stays inside its page, as every aligned one does.
  predicate InPage(address: nat, width: nat) {
    address % 4096 + width <= 4096
  }

  lemma AlignedStaysInPage(address: nat, width: nat)
    requires IsWidth(width) && address % width == 0
    ensures InPage(address, width)
  {
    var k, q, m := address / width, address / 4096, address % 4096;
    if width == 2 { EvenPlace(m, k - 2048 * q); }
    if width == 4 { FourthPlace(m, k - 1024 * q); }
  }

  lemma EvenPlace(m: nat, k: int)
    requires m == 2 * k && m < 4096
    ensures m <= 4094
  {}

  lemma FourthPlace(m: nat, k: int)
    requires m == 4 * k && m < 4096
    ensures m <= 4092
  {}

  function FlatRead(m: seq<Octet>, address: nat, width: nat): Word
    requires IsWidth(width) && address + width <= |m|
  {
    if width == 1 then m[address] + Zeros(24)
    else if width == 2 then m[address] + m[address + 1] + Zeros(16)
    else Word4(m[address], m[address + 1], m[address + 2], m[address + 3])
  }

  function FlatWrite(m: seq<Octet>, address: nat, width: nat, value: Word): (r: seq<Octet>)
    requires IsWidth(width) && address + width <= |m|
    ensures |r| == |m|
  {
    var m1 := m[address := value[..8]];
    if width == 1 then m1 else
    var m2 := m1[address + 1 := value[8..16]];
    if width == 2 then m2 else m2[address + 2 := value[16..24]][address + 3 := value[24..]]
  }

  // The least significant byte comes first: as a number, byte i counts 256^i, and a byte written at
  // address + i is that digit of the value.
  lemma LittleEndian(m: seq<Octet>, address: nat, width: nat, value: Word)
    requires IsWidth(width) && address + width <= |m|
    ensures ToNat(FlatRead(m, address, width))
         == ToNat(m[address]) + (if width >= 2 then 0x100 * ToNat(m[address + 1]) else 0)
            + (if width == 4 then 0x1_0000 * ToNat(m[address + 2]) + 0x100_0000 * ToNat(m[address + 3]) else 0)
    ensures forall i: nat | i < width ::
              ToNat(FlatWrite(m, address, width, value)[address + i]) == ToNat(value) / Pow2(8 * i) % 0x100
    ensures forall i | 0 <= i < |m| && !(address <= i < address + width) :: FlatWrite(m, address, width, value)[i] == m[i]
  {
    hide ToNat, Pow2;
    WordPowers();
    BytesValue(m, address, width);
    forall i: nat | i < width
      ensures ToNat(FlatWrite(m, address, width, value)[address + i]) == ToNat(value) / Pow2(8 * i) % 0x100
    {
      FieldValue(value, 8 * i, 8);
      assert FlatWrite(m, address, width, value)[address + i] == value[8 * i..8 * i + 8];
    }
  }

  lemma BytesValue(m: seq<Octet>, address: nat, width: nat)
    requires IsWidth(width) && address + width <= |m|
    ensures ToNat(FlatRead(m, address, width))
         == ToNat(m[address]) + (if width >= 2 then 0x100 * ToNat(m[address + 1]) else 0)
            + (if width == 4 then 0x1_0000 * ToNat(m[address + 2]) + 0x100_0000 * ToNat(m[address + 3]) else 0)
  {
    hide ToNat, Pow2;
    WordPowers();
    ZerosAreNothing(24);
    ZerosAreNothing(16);
    ToNatJoin(m[address], Zeros(24));
    if width >= 2 {
      ToNatJoin(m[address], m[address + 1]);
      ToNatJoin(Bits2(m[address], m[address + 1]), Zeros(16));
    }
    if width == 4 {
      ToNatJoin(m[address + 2], m[address + 3]);
      ToNatJoin(Bits2(m[address], m[address + 1]), Bits2(m[address + 2], m[address + 3]));
    }
  }

  lemma ReadBackWritten(m: seq<Octet>, address: nat, width: nat, value: Word)
    requires IsWidth(width) && address + width <= |m|
    ensures FlatRead(FlatWrite(m, address, width, value), address, width) == value[..8 * width] + Zeros(32 - 8 * width)
  {}

  // A field write to a register in memory.
  function FlatSetField(m: seq<Octet>, address: nat, width: nat, value: Word, lsb: nat, msb: nat): seq<Octet>
    requires IsWidth(width) && address + width <= |m| && lsb <= msb < 32
  {
    FlatWrite(m, address, width, SetField(FlatRead(m, address, width), value, lsb, msb))
  }

  // The register of a field inside its width reads as the field write left it.
  lemma RegisterAfterField(m: seq<Octet>, address: nat, width: nat, value: Word, lsb: nat, msb: nat)
    requires IsWidth(width) && address + width <= |m| && lsb <= msb < 8 * width
    ensures FlatRead(FlatSetField(m, address, width, value, lsb, msb), address, width)
         == SetField(FlatRead(m, address, width), value, lsb, msb)
  {
    hide SetField, FlatWrite;
    var org := FlatRead(m, address, width);
    SetFieldSplices(org, value, lsb, msb);
    ReadBackWritten(m, address, width, SetField(org, value, lsb, msb));
  }

  // In memory: the field reads back, nothing outside the register changes.
  lemma FieldInMemory(m: seq<Octet>, address: nat, width: nat, value: Word, lsb: nat, msb: nat)
    requires IsWidth(width) && address + width <= |m| && lsb <= msb < 8 * width
    ensures var m' := FlatSetField(m, address, width, value, lsb, msb);
            ToNat(GetValue(FlatRead(m', address, width), lsb, msb)) == ToNat(value) % Pow2(msb - lsb + 1)
            && |m'| == |m| && forall i | 0 <= i < |m| && !(address <= i < address + width) :: m'[i] == m[i]
  {
    RegisterAfterField(m, address, width, value, lsb, msb);
    WriteThenRead(FlatRead(m, address, width), value, lsb, msb);
  }

  lemma WritesApart(m: seq<Octet>, a: nat, w: nat, v: Word, a': nat, w': nat, v': Word)
    requires IsWidth(w) && a + w <= |m| && IsWidth(w') && a' + w' <= |m| && (a + w <= a' || a' + w' <= a)
    ensures FlatRead(FlatWrite(m, a, w, v), a', w') == FlatRead(m, a', w')
    ensures FlatWrite(FlatWrite(m, a, w, v), a', w', v') == FlatWrite(FlatWrite(m, a', w', v'), a, w, v)
  {}

  lemma Overwrites(m: seq<Octet>, a: nat, w: nat, v: Word, v': Word)
    requires IsWidth(w) && a + w <= |m|
    ensures FlatWrite(FlatWrite(m, a, w, v), a, w, v') == FlatWrite(m, a, w, v')
  {}

  // In memory a later write to the same field wins.
  lemma LaterFieldWriteWins(m: seq<Octet>, a: nat, w: nat, first: Word, second: Word, lsb: nat, msb: nat)
    requires IsWidth(w) && a + w <= |m| && lsb <= msb < 8 * w
    ensures FlatSetField(FlatSetField(m, a, w, first, lsb, msb), a, w, second, lsb, msb)
         == FlatSetField(m, a, w, second, lsb, msb)
  {
    hide SetField, FlatRead, FlatWrite;
    var org := FlatRead(m, a, w);
    RegisterAfterField(m, a, w, first, lsb, msb);
    LaterWriteWins(org, first, second, lsb, msb);
    Overwrites(m, a, w, SetField(org, first, lsb, msb), SetField(org, second, lsb, msb));
  }

  // Field writes commute in memory when they go to disjoint fields of a register or to registers apart.
  lemma FieldWritesCommute(m: seq<Octet>, a: nat, w: nat, v: Word, lsb: nat, msb: nat,
                           a': nat, w': nat, v': Word, lsb': nat, msb': nat)
    requires IsWidth(w) && a + w <= |m| && lsb <= msb < 8 * w
    requires IsWidth(w') && a' + w' <= |m| && lsb' <= msb' < 8 * w'
    requires a + w <= a' || a' + w' <= a || (a == a' && w == w' && (msb < lsb' || msb' < lsb))
    ensures FlatSetField(FlatSetField(m, a, w, v, lsb, msb), a', w', v', lsb', msb')
         == FlatSetField(FlatSetField(m, a', w', v', lsb', msb'), a, w, v, lsb, msb)
  {
    hide SetField, FlatRead, FlatWrite;
    var x, x' := FlatRead(m, a, w), FlatRead(m, a', w');
    var y, y' := SetField(x, v, lsb, msb), SetField(x', v', lsb', msb');
    if a == a' {
      RegisterAfterField(m, a, w, v, lsb, msb);
      RegisterAfterField(m, a, w, v', lsb', msb');
      if msb < lsb' {
        DisjointWritesCommute(x, v, lsb, msb, v', lsb', msb');
      } else {
        DisjointWritesCommute(x, v', lsb', msb', v, lsb, msb);
      }
      Overwrites(m, a, w, y, SetField(y, v', lsb', msb'));
      Overwrites(m, a, w, y', SetField(y, v', lsb', msb'));
    } else {
      WritesApart(m, a, w, y, a', w', y');
      WritesApart(m, a', w', y', a, w, y);
    }
  }

  /** ---- Sequences of accesses ---- */

  datatype Access = Read(address: nat, width: nat) | Write(address: nat, width: nat, value: Word)

  datatype FlatRun = FlatRun(memory: seq<Octet>, results: seq<Word>)

  predicate Fits(op: Access, size: nat) {
    IsWidth(op.width) && op.address + op.width <= size && InPage(op.address, op.width)
  }

  // What the accesses read and leave when memory is simply there.
  function RunFlat(m: seq<Octet>, ops: seq<Access>): (r: FlatRun)
    requires forall i | 0 <= i < |ops| :: Fits(ops[i], |m|)
    ensures |r.memory| == |m|
  {
    if ops == [] then FlatRun(m, []) else
      var before := RunFlat(m, ops[..|ops| - 1]);
      var last := ops[|ops| - 1];
      assert Fits(last, |m|);
      match last
      case Read(address, width) => before.(results := before.results + [FlatRead(before.memory, address, width)])
      case Write(address, width, value) => before.(memory := FlatWrite(before.memory, address, width, value))
  }

  /** ---- One mapped page ---- */

  // The process: physical memory, the pages mapped into its address space, and the two globals.
  class Mapper {
    var memory: seq<Octet>
    var mapped: map<nat, nat>
    var mapVaddr: nat
    var mapPaddr: nat

    // At most one page is mapped, the one the globals name.
    predicate Valid()
      reads this
    {
      mapped == (if mapVaddr == 0 then map[] else map[mapVaddr := mapPaddr])
      && mapVaddr % 4096 == 0 && mapPaddr % 4096 == 0 && (mapVaddr == 0 ==> mapPaddr == 0)
    }

    constructor (memory: seq<Octet>)
      ensures Valid() && this.memory == memory && mapVaddr == 0
    {
      this.memory, mapped, mapVaddr, mapPaddr := memory, map[], 0, 0;
    }

    // Maps the page of an address; place is where the kernel puts it.
    method MapAddress(address: nat, place: nat)
      requires Valid() && place != 0 && place % 4096 == 0
      modifies this`mapped, this`mapVaddr, this`mapPaddr
      ensures Valid() && mapPaddr == address - address % 4096
      ensures mapVaddr == 0 <==> old(mapVaddr) == 0 && address < PAGE
    {
      if address - address % 4096 == mapPaddr { return; }
      if mapVaddr != 0 { mapped := mapped - {mapVaddr}; }
      mapVaddr := place;
      mapped := mapped[place := address - address % 4096];
      mapPaddr := address - address % 4096;
    }

    // Where a virtual address leads, if its page is mapped.
    function Physical(v: nat): nat
      reads this
      requires v - v % 4096 in mapped
    {
      mapped[v - v % 4096] + v % 4096
    }

    predicate Accessible(v: nat)
      reads this
    {
      v - v % 4096 in mapped
    }

    lemma Reaches(address: nat)
      requires Valid() && mapPaddr == address - address % 4096
      ensures var v := mapVaddr + address % 4096;
              (Accessible(v) <==> mapVaddr != 0) && (Accessible(v) ==> Physical(v) == address)
    {
      assert (mapVaddr + address % 4096) % 4096 == address % 4096;
    }

    // ok is false when the access hits an unmapped page.
    method ReadMem(address: nat, width: nat, place: nat) returns (ok: bool, value: Word)
      requires Valid() && place != 0 && place % 4096 == 0 && Fits(Read(address, width), |memory|)
      modifies this`mapped, this`mapVaddr, this`mapPaddr
      ensures Valid() && ok == (old(mapVaddr) != 0 || PAGE <= address) && (ok <==> mapVaddr != 0)
      ensures ok ==> value == FlatRead(memory, address, width)
    {
      MapAddress(address, place);
      Reaches(address);
      var v := mapVaddr + address % 4096;
      ok := Accessible(v);
      value := Zeros(32);
      if ok { value := FlatRead(memory, Physical(v), width); }
    }

    method WriteMem(address: nat, width: nat, value: Word, place: nat) returns (ok: bool)
      requires Valid() && place != 0 && place % 4096 == 0 && Fits(Read(address, width), |memory|)
      modifies this
      ensures Valid() && ok == (old(mapVaddr) != 0 || PAGE <= address) && (ok <==> mapVaddr != 0)
      ensures memory == if ok then FlatWrite(old(memory), address, width, value) else old(memory)
    {
      MapAddress(address, place);
      Reaches(address);
      var v := mapVaddr + address % 4096;
      ok := Accessible(v);
      if ok { memory := FlatWrite(memory, Physical(v), width, value); }
    }

    // A field write is a read and a write of the whole register.
    method WriteRegMask(address: nat, width: nat, value: Word, lsb: nat, msb: nat, place: nat) returns (ok: bool)
      requires Valid() && place != 0 && place % 4096 == 0 && Fits(Read(address, width), |memory|) && lsb <= msb < 32
      modifies this
      ensures Valid() && ok == (old(mapVaddr) != 0 || PAGE <= address)
      ensures memory == if ok then FlatSetField(old(memory), address, width, value, lsb, msb) else old(memory)
    {
      var org;
      ok, org := ReadMem(address, width, place);
      if !ok { return; }
      var mask := Ones(32);
      mask := Shr(mask, lsb);
      mask := Shl(mask, lsb);
      mask := Shl(mask, 31 - msb);
      mask := Shr(mask, 31 - msb);
      org := And(org, Not(mask));
      var moved := Shl(value, lsb);
      org := Or(org, And(moved, mask));
      ok := WriteMem(address, width, org, place);
    }

    // Any accesses: the same results and the same memory as without mapping, unless the very first
    // one, with nothing mapped, is in page 0. Then, and only then, the program faults.
    method Run(ops: seq<Access>, places: seq<nat>) returns (ok: bool, results: seq<Word>)
      requires Valid() && |places| == |ops|
      requires forall i | 0 <= i < |ops| :: Fits(ops[i], |memory|) && places[i] != 0 && places[i] % 4096 == 0
      modifies this
      ensures Valid()
      ensures ok <==> (old(mapVaddr) == 0 && ops != [] ==> PAGE <= ops[0].address)
      ensures ok ==> FlatRun(memory, results) == RunFlat(old(memory), ops)
      ensures !ok ==> memory == old(memory) && results == []
    {
      hide FlatRead, FlatWrite;
      results := [];
      for i := 0 to |ops|
        invariant Valid() && |memory| == |old(memory)|
        invariant mapVaddr != 0 <==> old(mapVaddr) != 0 || 0 < i
        invariant 0 < i ==> old(mapVaddr) != 0 || PAGE <= ops[0].address
        invariant FlatRun(memory, results) == RunFlat(old(memory), ops[..i])
      {
        assert ops[..i + 1][..i] == ops[..i];
        match ops[i]
        case Read(address, width) =>
          var value;
          ok, value := ReadMem(address, width, places[i]);
          if !ok { return; }
          results := results + [value];
        case Write(address, width, value) =>
          ok := WriteMem(address, width, value, places[i]);
          if !ok { return; }
      }
      assert ops[..|ops|] == ops;
      ok := true;
    }

    // So any accesses aligned to their widths.
    method RunAligned(ops: seq<Access>, places: seq<nat>) returns (ok: bool, results: seq<Word>)
      requires Valid() && |places| == |ops|
      requires forall i | 0 <= i < |ops| ::
                 IsWidth(ops[i].width) && ops[i].address % ops[i].width == 0 && ops[i].address + ops[i].width <= |memory|
                 && places[i] != 0 && places[i] % 4096 == 0
      modifies this
      ensures Valid() && (forall i | 0 <= i < |ops| :: Fits(ops[i], |old(memory)|))
      ensures ok <==> (old(mapVaddr) == 0 && ops != [] ==> PAGE <= ops[0].address)
      ensures ok ==> FlatRun(memory, results) == RunFlat(old(memory), ops)
      ensures !ok ==> memory == old(memory) && results == []
    {
      forall i | 0 <= i < |ops|
        ensures Fits(ops[i], |memory|)
      {
        AlignedStaysInPage(ops[i].address, ops[i].width);
      }
      ok, results := Run(ops, places);
    }
  }

  /** ---- The window of the command line ---- */

  datatype Window = Window(base: nat, size: nat)

  // The pages mapped for count items of size bytes from an address on, in 32-bit arithmetic.
  function WindowOf(address: nat, count: nat, size: nat): Window
    requires IsWidth(size) && address < WRAP && count < WRAP
  {
    var paddr := address - address % size;
    var base := paddr - paddr % 4096;
    var length := (paddr - base + count * size) % 0x1_0000_0000;
    var rounded := (length + 4095) % 0x1_0000_0000;
    Window(base, rounded - rounded % 4096)
  }

  // The window holds the bytes it is for, without a whole page to spare, if and only if their end
  // still rounds up within 32 bits.
  lemma WindowCovers(address: nat, count: nat, size: nat)
    requires IsWidth(size) && address < WRAP && count < WRAP
    ensures var w := WindowOf(address, count, size);
            var first := address - address % size;
            var needed := first % 4096 + count * size;
            w.base % 4096 == 0 && w.size % 4096 == 0 && w.base <= first < w.base + PAGE
            && (needed + 4095 < WRAP <==> first + count * size <= w.base + w.size)
            && (needed + 4095 < WRAP ==> w.size < needed + PAGE)
  {
    var first := address - address % size;
    var needed := first % 4096 + count * size;
    hide InPage;
    WindowInWords(first % 4096, count * size);
  }

  lemma WindowInWords(offset: nat, bytes: nat)
    requires offset < PAGE
    ensures var rounded := ((offset + bytes) % 0x1_0000_0000 + 4095) % 0x1_0000_0000;
            var size := rounded - rounded % 4096;
            size % 4096 == 0
            && (offset + bytes + 4095 < WRAP <==> offset + bytes <= size)
            && (offset + bytes + 4095 < WRAP ==> size < offset + bytes + PAGE)
  {}
}
