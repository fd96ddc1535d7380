/**
 The two CRC routines of src/crc16.cpp, in the form of the source: a table
 lookup per byte on a register split into two bytes, and a bit loop nested in
 a byte loop.
 */
module Crc16 {
  import opened Gf2
  import opened RegisterBits
  import opened CrcBitwise
  import opened ModbusTable

  lemma HighByteClock(r: bv16, h: bv16)
    requires r & 1 == 0 && r >> 1 == h
    ensures ModbusClock(r) == h
  {
  }

  lemma HighByteClocks(h: bv8)
    ensures ModbusClocks(h as bv16 << 8, 8) == h as bv16
  {
    var x := h as bv16;
    HighByteClock(x << 8, x << 7);
    HighByteClock(x << 7, x << 6);
    HighByteClock(x << 6, x << 5);
    HighByteClock(x << 5, x << 4);
    HighByteClock(x << 4, x << 3);
    HighByteClock(x << 3, x << 2);
    HighByteClock(x << 2, x << 1);
    HighByteClock(x << 1, x);
    EightClocks(x << 8);
  }

  lemma HighByteRun(h: bv8)
    ensures LowFirst(h as bv16, 16) == Run(MODBUS, LowFirst(h as bv16 << 8, 16), Zeros(8))
  {
    HighByteClocks(h);
    ModbusClocksAreRun(h as bv16 << 8, 8);
  }

  /** The register with the byte added, as the sum of its shifted-out half and
      the table index. */
  lemma SplitBits(hi: bv8, lo: bv8, b: bv8)
    ensures LowFirst(Pair(hi, lo) ^ b as bv16, 16)
         == Xor(LowFirst(hi as bv16 << 8, 16), LowFirst((lo ^ b) as bv16, 16))
  {
    BitsOfSum(Pair(hi, lo) ^ b as bv16, hi as bv16 << 8, (lo ^ b) as bv16);
  }

  lemma JoinBits(tableLo: bv8, tableHi: bv8, hi: bv8)
    ensures LowFirst(Pair(tableLo, hi ^ tableHi), 16)
         == Xor(LowFirst(hi as bv16, 16), LowFirst(Pair(tableLo, tableHi), 16))
  {
    BitsOfSum(Pair(tableLo, hi ^ tableHi), hi as bv16, Pair(tableLo, tableHi));
  }

  /** Because division is linear, the two parts may be divided separately and
      the quotient of the second looked up. */
  lemma PairIsByte(hi: bv8, lo: bv8, b: bv8, tableLo: bv8, tableHi: bv8)
    requires LowFirst(Pair(tableLo, tableHi), 16) == Run(MODBUS, LowFirst((lo ^ b) as bv16, 16), Zeros(8))
    ensures LowFirst(Pair(tableLo, hi ^ tableHi), 16) == Run(MODBUS, LowFirst(Pair(hi, lo), 16), LowFirst(b as bv16, 8))
  {
    JoinBits(tableLo, tableHi, hi);
    HighByteRun(hi);
    XorZeros(Zeros(8));
    RunLinear(MODBUS, LowFirst(hi as bv16 << 8, 16), LowFirst((lo ^ b) as bv16, 16), Zeros(8), Zeros(8));
    SplitBits(hi, lo, b);
    ModbusByteIsRun(Pair(hi, lo), b);
  }

  /** The split register holds the division register after data. */
  ghost predicate Consumed(hi: bv8, lo: bv8, data: seq<bv8>) {
    LowFirst(Pair(hi, lo), 16) == Run(MODBUS, LowFirst(0xFFFF, 16), LowStream(data))
  }

  /** One table lookup consumes one byte. */
  lemma ConsumedNext(hi: bv8, lo: bv8, data: seq<bv8>, b: bv8, tableHi: bv8, tableLo: bv8)
    requires Consumed(hi, lo, data)
    requires EntryOk(lo ^ b, tableHi, tableLo)
    ensures Consumed(tableLo, hi ^ tableHi, data + [b])
  {
    PairIsByte(hi, lo, b, tableLo, tableHi);
    LowStreamAppend(MODBUS, LowFirst(0xFFFF, 16), data, b);
  }

  lemma ConsumedAll(hi: bv8, lo: bv8, data: seq<bv8>)
    requires Consumed(hi, lo, data)
    ensures Pair(hi, lo) == ModbusCrc(0xFFFF, data)
  {
    ModbusCrcIsRun(0xFFFF, data);
    BitsInjective(Pair(hi, lo), ModbusCrc(0xFFFF, data));
  }

  lemma TableStep(hi: bv8, lo: bv8, data: seq<bv8>, b: bv8, aucCRCHi: seq<bv8>, aucCRCLo: seq<bv8>,
                  iIndex: int, hi': bv8, lo': bv8)
    requires |aucCRCHi| == |aucCRCLo| == 256
    requires forall x: bv8 :: EntryAt(x, aucCRCHi, aucCRCLo)
    requires Consumed(hi, lo, data)
    requires iIndex == (lo ^ b) as int
    requires lo' == hi ^ aucCRCHi[iIndex] && hi' == aucCRCLo[iIndex]
    ensures Consumed(hi', lo', data + [b])
  {
    assert EntryAt(lo ^ b, aucCRCHi, aucCRCLo);
    ConsumedNext(hi, lo, data, b, aucCRCHi[iIndex], aucCRCLo[iIndex]);
  }

  /** The table-driven Modbus CRC of the first usLen bytes of the frame. */
  method UsMBCRC16(pucFrame: array<bv8>, usLen: nat) returns (crc: bv16)
    requires usLen <= pucFrame.Length && usLen < 0x1_0000
    ensures crc == ModbusCrc(0xFFFF, pucFrame[..usLen])
  {
    var aucCRCHi, aucCRCLo := StaticTables();
    var ucCRCHi: bv8, ucCRCLo: bv8 := 0xFF, 0xFF;
    var left, p := usLen, 0;
    ghost var done: seq<bv8> := [];
    while left > 0
      invariant p + left == usLen && done == pucFrame[..p]
      invariant Consumed(ucCRCHi, ucCRCLo, done)
    {
      ghost var hi, lo, b := ucCRCHi, ucCRCLo, pucFrame[p];
      left := left - 1;
      var iIndex := (ucCRCLo ^ pucFrame[p]) as int;
      p := p + 1;
      ucCRCLo := ucCRCHi ^ aucCRCHi[iIndex];
      ucCRCHi := aucCRCLo[iIndex];
      TableStep(hi, lo, done, b, aucCRCHi, aucCRCLo, iIndex, ucCRCHi, ucCRCLo);
      done := done + [b];
    }
    crc := (ucCRCHi as bv16 << 8) | ucCRCLo as bv16;
    ConsumedAll(ucCRCHi, ucCRCLo, done);
  }

  /** The CCITT CRC of the first size bytes of data. */
  method IotCalcCrc16(data: array<bv8>, size: nat) returns (crc: bv16)
    requires size <= data.Length && size < 0x1_0000_0000
    ensures crc == CcittCrc(0, data[..size])
  {
    crc := 0;
    var left, p := size, 0;
    while left > 0
      invariant p + left == size
      invariant crc == CcittCrc(0, data[..p])
    {
      left := left - 1;
      var byte := data[p];
      CrcAppend(0, data[..p], byte);
      assert data[..p + 1] == data[..p] + [byte];
      p := p + 1;
      crc := crc ^ (byte as bv16 << 8);
      ghost var start := crc;
      var j := 0;
      while j < 8
        invariant j <= 8
        invariant crc == CcittClocks(start, j)
      {
        ghost var before := crc;
        var tmp := crc & 0x8000;
        crc := crc << 1;
        if tmp != 0 {
          crc := crc ^ 0x1021;
        }
        CcittClockCases(before, crc);
        j := j + 1;
      }
    }
  }
}
