/**
 The lookup tables of src/crc16.cpp and the proof that entry i is eight clocks
 of the reflected Modbus register holding i: the table is linear, so it is
 enough to clock its entries at 1, 2, 4, ..., 128.
 */
module ModbusTable {
  import opened Gf2
  import opened RegisterBits
  import opened CrcBitwise

  /** aucCRCHi[16 * h] to aucCRCHi[16 * h + 15], first entry on top. */
  function HiRow(h: bv8): bv128
    requires h < 16
  {
    match h
    case 0 => 0x00C18140_01C08041_01C08041_00C18140
    case 1 => 0x01C08041_00C18140_00C18140_01C08041
    case 2 => 0x01C08041_00C18140_00C18140_01C08041
    case 3 => 0x00C18140_01C08041_01C08041_00C18140
    case 4 => 0x01C08041_00C18140_00C18140_01C08041
    case 5 => 0x00C18140_01C08041_01C08041_00C18140
    case 6 => 0x00C18140_01C08041_01C08041_00C18140
    case 7 => 0x01C08041_00C18140_00C18140_01C08041
    case 8 => 0x01C08041_00C18140_00C18140_01C08041
    case 9 => 0x00C18140_01C08041_01C08041_00C18140
    case 10 => 0x00C18140_01C08041_01C08041_00C18140
    case 11 => 0x01C08041_00C18140_00C18140_01C08041
    case 12 => 0x00C18140_01C08041_01C08041_00C18140
    case 13 => 0x01C08041_00C18140_00C18140_01C08041
    case 14 => 0x01C08041_00C18140_00C18140_01C08041
    case _ => 0x00C18140_01C08041_01C08041_00C18140
  }

  /** The same of aucCRCLo. */
  function LoRow(h: bv8): bv128
    requires h < 16
  {
    match h
    case 0 => 0x00C0C101_C30302C2_C60607C7_05C5C404
    case 1 => 0xCC0C0DCD_0FCFCE0E_0ACACB0B_C90908C8
    case 2 => 0xD81819D9_1BDBDA1A_1EDEDF1F_DD1D1CDC
    case 3 => 0x14D4D515_D71716D6_D21213D3_11D1D010
    case 4 => 0xF03031F1_33F3F232_36F6F737_F53534F4
    case 5 => 0x3CFCFD3D_FF3F3EFE_FA3A3BFB_39F9F838
    case 6 => 0x28E8E929_EB2B2AEA_EE2E2FEF_2DEDEC2C
    case 7 => 0xE42425E5_27E7E626_22E2E323_E12120E0
    case 8 => 0xA06061A1_63A3A262_66A6A767_A56564A4
    case 9 => 0x6CACAD6D_AF6F6EAE_AA6A6BAB_69A9A868
    case 10 => 0x78B8B979_BB7B7ABA_BE7E7FBF_7DBDBC7C
    case 11 => 0xB47475B5_77B7B676_72B2B373_B17170B0
    case 12 => 0x50909151_93535292_96565797_55959454
    case 13 => 0x9C5C5D9D_5F9F9E5E_5A9A9B5B_99595898
    case 14 => 0x88484989_4B8B8A4A_4E8E8F4F_8D4D4C8C
    case _ => 0x44848545_87474686_82424383_41818040
  }

  function Byte(row: bv128, l: bv8): bv8
    requires l < 16
  {
    ((row >> (120 - 8 * l)) & 0xFF) as bv8
  }

  /** The table pair at index 16 * h + l as one register. */
  function At(h: bv8, l: bv8): bv16
    requires h < 16 && l < 16
  {
    Pair(Byte(LoRow(h), l), Byte(HiRow(h), l))
  }

  /** The two bytes of a pair as one register. */
  function Pair(lo: bv8, hi: bv8): bv16 {
    (lo as bv16 << 8) | hi as bv16
  }

  lemma Nibbles(x: bv8)
    ensures x >> 4 < 16 && x & 0x0F < 16
  {
  }

  function HiEntry(x: bv8): bv8 {
    Nibbles(x);
    Byte(HiRow(x >> 4), x & 0x0F)
  }

  function LoEntry(x: bv8): bv8 {
    Nibbles(x);
    Byte(LoRow(x >> 4), x & 0x0F)
  }

  // The table is linear

  /** row is first with c added to each byte. */
  predicate IsShifted(row: bv128, first: bv128, c: bv8) {
    row == first ^ (c as bv128 * 0x01010101_01010101_01010101_01010101)
  }

  /** Each row is the first one with its own first entry added throughout. */
  lemma HiRowIsShifted(h: bv8)
    requires h < 16
    ensures IsShifted(HiRow(h), HiRow(0), Byte(HiRow(h), 0))
  {
  }

  lemma LoRowIsShifted(h: bv8)
    requires h < 16
    ensures IsShifted(LoRow(h), LoRow(0), Byte(LoRow(h), 0))
  {
    assert h == 0 || h == 1 || h == 2 || h == 3 || h == 4 || h == 5 || h == 6 || h == 7
        || h == 8 || h == 9 || h == 10 || h == 11 || h == 12 || h == 13 || h == 14 || h == 15;
  }

  lemma ByteOfShifted(row: bv128, first: bv128, c: bv8, l: bv8)
    requires l < 16 && IsShifted(row, first, c)
    ensures Byte(row, l) == Byte(first, l) ^ c
  {
  }

  function Plus(a: bv16, b: bv16): bv16 {
    a ^ b
  }

  lemma PairSum(lo: bv8, hi: bv8, lo1: bv8, hi1: bv8, lo2: bv8, hi2: bv8)
    requires lo == lo1 ^ lo2 && hi == hi1 ^ hi2
    ensures Pair(lo, hi) == Plus(Pair(lo1, hi1), Pair(lo2, hi2))
  {
  }

  lemma HiByte(h: bv8, l: bv8)
    requires h < 16 && l < 16
    ensures Byte(HiRow(h), l) == Byte(HiRow(0), l) ^ Byte(HiRow(h), 0)
  {
    hide HiRow, Byte, IsShifted;
    HiRowIsShifted(h);
    ByteOfShifted(HiRow(h), HiRow(0), Byte(HiRow(h), 0), l);
  }

  lemma LoByte(h: bv8, l: bv8)
    requires h < 16 && l < 16
    ensures Byte(LoRow(h), l) == Byte(LoRow(0), l) ^ Byte(LoRow(h), 0)
  {
    hide LoRow, Byte, IsShifted;
    LoRowIsShifted(h);
    ByteOfShifted(LoRow(h), LoRow(0), Byte(LoRow(h), 0), l);
  }

  lemma RowPlusColumn(h: bv8, l: bv8)
    requires h < 16 && l < 16
    ensures At(h, l) == Plus(At(0, l), At(h, 0))
  {
    hide HiRow, LoRow, Byte, Pair, Plus;
    HiByte(h, l);
    LoByte(h, l);
    PairSum(Byte(LoRow(h), l), Byte(HiRow(h), l), Byte(LoRow(0), l), Byte(HiRow(0), l),
            Byte(LoRow(h), 0), Byte(HiRow(h), 0));
  }

  function If(b: bool, e: bv16): bv16 {
    if b then e else 0
  }

  function Sum4(n: bv8, e1: bv16, e2: bv16, e4: bv16, e8: bv16): bv16 {
    Plus(Plus(Plus(If(n & 1 != 0, e1), If(n & 2 != 0, e2)), If(n & 4 != 0, e4)), If(n & 8 != 0, e8))
  }

  /** In the first row and in the first column, entries are sums of four. */
  lemma FirstRow(l: bv8)
    requires l < 16
    ensures At(0, l) == Sum4(l, At(0, 1), At(0, 2), At(0, 4), At(0, 8))
  {
    assert l == 0 || l == 1 || l == 2 || l == 3 || l == 4 || l == 5 || l == 6 || l == 7
        || l == 8 || l == 9 || l == 10 || l == 11 || l == 12 || l == 13 || l == 14 || l == 15;
  }

  lemma FirstColumn(h: bv8)
    requires h < 16
    ensures At(h, 0) == Sum4(h, At(1, 0), At(2, 0), At(4, 0), At(8, 0))
  {
    assert At(1, 0) == 0xCC01 && At(2, 0) == 0xD801 && At(4, 0) == 0xF001 && At(8, 0) == 0xA001;
    assert h == 0 || h == 1 || h == 2 || h == 3 || h == 4 || h == 5 || h == 6 || h == 7
        || h == 8 || h == 9 || h == 10 || h == 11 || h == 12 || h == 13 || h == 14 || h == 15;
  }

  // Eight clocks

  function Clock8(r: bv16): bv16 {
    ModbusClock(ModbusClock(ModbusClock(ModbusClock(
      ModbusClock(ModbusClock(ModbusClock(ModbusClock(r))))))))
  }

  lemma EightClocks(r: bv16)
    ensures ModbusClocks(r, 8) == Clock8(r)
  {
    var c1 := ModbusClock(r);
    var c2 := ModbusClock(c1);
    var c3 := ModbusClock(c2);
    var c4 := ModbusClock(c3);
    assert ModbusClocks(r, 1) == c1;
    assert ModbusClocks(r, 2) == c2;
    assert ModbusClocks(r, 3) == c3;
    assert ModbusClocks(r, 4) == c4;
    assert ModbusClocks(r, 5) == ModbusClock(c4);
    assert ModbusClocks(r, 6) == ModbusClock(ModbusClock(c4));
    assert ModbusClocks(r, 7) == ModbusClock(ModbusClock(ModbusClock(c4)));
  }

  /** The eight entries that fix all others. */
  lemma BasisIsClocked()
    ensures At(0, 1) == Clock8(0x01) && At(0, 2) == Clock8(0x02) && At(0, 4) == Clock8(0x04) && At(0, 8) == Clock8(0x08)
    ensures At(1, 0) == Clock8(0x10) && At(2, 0) == Clock8(0x20) && At(4, 0) == Clock8(0x40) && At(8, 0) == Clock8(0x80)
  {
  }

  /** e is x divided by the generator: x clocked eight times. */
  ghost predicate IsEntry(x: bv16, e: bv16) {
    LowFirst(e, 16) == Run(MODBUS, LowFirst(x, 16), Zeros(8))
  }

  lemma ClockedIsEntry(x: bv16, e: bv16)
    requires e == Clock8(x)
    ensures IsEntry(x, e)
  {
    EightClocks(x);
    ModbusClocksAreRun(x, 8);
    SameBits(e, ModbusClocks(x, 8));
  }

  lemma EntrySum(x: bv16, y: bv16, e: bv16, f: bv16)
    requires IsEntry(x, e) && IsEntry(y, f)
    ensures IsEntry(Plus(x, y), Plus(e, f))
  {
    BitsOfSum(Plus(x, y), x, y);
    BitsOfSum(Plus(e, f), e, f);
    hide LowFirst, Run, Plus;
    RunLinear(MODBUS, LowFirst(x, 16), LowFirst(y, 16), Zeros(8), Zeros(8));
    XorZeros(Zeros(8));
  }

  lemma EntryIf(b: bool, x: bv16, e: bv16)
    requires IsEntry(x, e)
    ensures IsEntry(If(b, x), If(b, e))
  {
    ZeroBits(0);
    RunZeros(MODBUS, 16, 8);
  }

  lemma EntrySum4(n: bv8, x1: bv16, x2: bv16, x4: bv16, x8: bv16, e1: bv16, e2: bv16, e4: bv16, e8: bv16)
    requires IsEntry(x1, e1) && IsEntry(x2, e2) && IsEntry(x4, e4) && IsEntry(x8, e8)
    ensures IsEntry(Sum4(n, x1, x2, x4, x8), Sum4(n, e1, e2, e4, e8))
  {
    EntryIf(n & 1 != 0, x1, e1);
    EntryIf(n & 2 != 0, x2, e2);
    EntryIf(n & 4 != 0, x4, e4);
    EntryIf(n & 8 != 0, x8, e8);
    hide IsEntry, If, Plus;
    var a1, a2, a4, a8 := If(n & 1 != 0, x1), If(n & 2 != 0, x2), If(n & 4 != 0, x4), If(n & 8 != 0, x8);
    var b1, b2, b4, b8 := If(n & 1 != 0, e1), If(n & 2 != 0, e2), If(n & 4 != 0, e4), If(n & 8 != 0, e8);
    EntrySum(a1, a2, b1, b2);
    EntrySum(Plus(a1, a2), a4, Plus(b1, b2), b4);
    EntrySum(Plus(Plus(a1, a2), a4), a8, Plus(Plus(b1, b2), b4), b8);
  }

  lemma BasisEntries()
    ensures IsEntry(0x01, At(0, 1)) && IsEntry(0x02, At(0, 2)) && IsEntry(0x04, At(0, 4)) && IsEntry(0x08, At(0, 8))
    ensures IsEntry(0x10, At(1, 0)) && IsEntry(0x20, At(2, 0)) && IsEntry(0x40, At(4, 0)) && IsEntry(0x80, At(8, 0))
  {
    BasisIsClocked();
    hide At, Clock8, IsEntry;
    ClockedIsEntry(0x01, At(0, 1));
    ClockedIsEntry(0x02, At(0, 2));
    ClockedIsEntry(0x04, At(0, 4));
    ClockedIsEntry(0x08, At(0, 8));
    ClockedIsEntry(0x10, At(1, 0));
    ClockedIsEntry(0x20, At(2, 0));
    ClockedIsEntry(0x40, At(4, 0));
    ClockedIsEntry(0x80, At(8, 0));
  }

  lemma IndexIsSum(x: bv8, h: bv8, l: bv8)
    requires h == x >> 4 && l == x & 0x0F
    ensures x as bv16 == Plus(Sum4(l, 0x01, 0x02, 0x04, 0x08), Sum4(h, 0x10, 0x20, 0x40, 0x80))
  {
    Nibbles(x);
    NibbleIsSum(l);
    NibbleIsSum(h);
    hide Sum4;
  }

  lemma NibbleIsSum(n: bv8)
    requires n < 16
    ensures Sum4(n, 0x01, 0x02, 0x04, 0x08) == n as bv16
    ensures Sum4(n, 0x10, 0x20, 0x40, 0x80) == n as bv16 << 4
  {
  }

  lemma AnyEntry(h: bv8, l: bv8)
    requires h < 16 && l < 16
    ensures IsEntry(Plus(Sum4(l, 0x01, 0x02, 0x04, 0x08), Sum4(h, 0x10, 0x20, 0x40, 0x80)), At(h, l))
  {
    BasisEntries();
    FirstRow(l);
    FirstColumn(h);
    RowPlusColumn(h, l);
    hide At, Sum4, IsEntry, Plus;
    EntrySum4(l, 0x01, 0x02, 0x04, 0x08, At(0, 1), At(0, 2), At(0, 4), At(0, 8));
    EntrySum4(h, 0x10, 0x20, 0x40, 0x80, At(1, 0), At(2, 0), At(4, 0), At(8, 0));
    EntrySum(Sum4(l, 0x01, 0x02, 0x04, 0x08), Sum4(h, 0x10, 0x20, 0x40, 0x80), At(0, l), At(h, 0));
  }

  lemma SameEntry(x: bv16, y: bv16, e: bv16)
    requires x == y && IsEntry(y, e)
    ensures IsEntry(x, e)
  {
  }

  lemma EntryDivides(x: bv8)
    ensures IsEntry(x as bv16, Pair(LoEntry(x), HiEntry(x)))
  {
    Nibbles(x);
    var h, l := x >> 4, x & 0x0F;
    AnyEntry(h, l);
    IndexIsSum(x, h, l);
    assert At(h, l) == Pair(LoEntry(x), HiEntry(x));
    hide At, IsEntry, Sum4, Plus, LoEntry, HiEntry, Pair;
    SameEntry(x as bv16, Plus(Sum4(l, 0x01, 0x02, 0x04, 0x08), Sum4(h, 0x10, 0x20, 0x40, 0x80)), At(h, l));
  }

  /** Every table pair is eight bitwise clocks of its index. */
  lemma EntryIsEightClocks(x: bv8)
    ensures Pair(LoEntry(x), HiEntry(x)) == ModbusClocks(x as bv16, 8)
  {
    hide LoEntry, HiEntry, Pair;
    EntryDivides(x);
    ModbusClocksAreRun(x as bv16, 8);
    hide LowFirst;
    BitsInjective(Pair(LoEntry(x), HiEntry(x)), ModbusClocks(x as bv16, 8));
  }

  /** Entry x is the division of x by the generator. */
  ghost predicate EntryOk(x: bv8, hi: bv8, lo: bv8) {
    IsEntry(x as bv16, Pair(lo, hi))
  }

  ghost predicate EntryAt(x: bv8, aucCRCHi: seq<bv8>, aucCRCLo: seq<bv8>)
    requires |aucCRCHi| == |aucCRCLo| == 256
  {
    EntryOk(x, aucCRCHi[x as int], aucCRCLo[x as int])
  }

  lemma EntryIsRun(x: bv8)
    ensures EntryOk(x, HiEntry(x), LoEntry(x))
  {
    EntryDivides(x);
  }

  lemma EntryFound(x: bv8, aucCRCHi: seq<bv8>, aucCRCLo: seq<bv8>)
    requires |aucCRCHi| == |aucCRCLo| == 256
    requires aucCRCHi[x as int] == HiEntry(x) && aucCRCLo[x as int] == LoEntry(x)
    ensures EntryAt(x, aucCRCHi, aucCRCLo)
  {
    EntryIsRun(x);
  }

  /** The two static arrays, with what fixes every entry of them: entry x is the
      division of x. */
  method StaticTables() returns (aucCRCHi: seq<bv8>, aucCRCLo: seq<bv8>)
    ensures |aucCRCHi| == |aucCRCLo| == 256
    ensures forall x: bv8 :: EntryAt(x, aucCRCHi, aucCRCLo)
  {
    aucCRCHi := seq(256, i requires 0 <= i < 256 => HiEntry(i as bv8));
    aucCRCLo := seq(256, i requires 0 <= i < 256 => LoEntry(i as bv8));
    forall x: bv8 ensures EntryAt(x, aucCRCHi, aucCRCLo) {
      EntryFound(x, aucCRCHi, aucCRCLo);
    }
  }
}
