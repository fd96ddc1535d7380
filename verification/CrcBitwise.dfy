/**
 The bit-by-bit Modbus and CCITT algorithms on a 16-bit register, each tied to
 the GF(2) division register of module Gf2.
 */
module CrcBitwise {
  import opened Gf2
  import opened RegisterBits

  /** x^16 + x^15 + x^2 + 1 */
  const MODBUS := Poly(16, {16, 15, 2, 0})

  /** x^16 + x^12 + x^5 + 1 */
  const CCITT := Poly(16, {16, 12, 5, 0})

  lemma ModbusGenerator()
    ensures IsGenerator(MODBUS) && !Parity(MODBUS) && |MODBUS| == 17
  {
    ParityFourTerms(16, 16, 15, 2, 0);
  }

  lemma CcittGenerator()
    ensures IsGenerator(CCITT) && !Parity(CCITT) && |CCITT| == 17
  {
    ParityFourTerms(16, 16, 12, 5, 0);
  }

  // One clock of each register

  /** Reflected register: the highest coefficient is bit 0. */
  function ModbusClock(r: bv16): bv16 {
    if r & 1 != 0 then (r >> 1) ^ 0xA001 else r >> 1
  }

  function CcittClock(r: bv16): bv16 {
    if r & 0x8000 != 0 then (r << 1) ^ 0x1021 else r << 1
  }

  lemma FeedbackWords()
    ensures LowFirst(0xA001, 16) == MODBUS[1..]
    ensures HighFirst(0x1021, 16) == CCITT[1..]
  {
    Masks();
  }

  lemma ModbusClockIsStep(r: bv16)
    ensures LowFirst(ModbusClock(r), 16) == Step(MODBUS, LowFirst(r, 16), false)
  {
    LowFirstShift(r);
    FirstXor(r >> 1, 0xA001, 16);
    FeedbackWords();
    assert LowFirst(r, 16)[0] == (r & 1 != 0);
  }

  lemma CcittClockIsStep(r: bv16)
    ensures HighFirst(CcittClock(r), 16) == Step(CCITT, HighFirst(r, 16), false)
  {
    HighFirstShift(r);
    FirstXor(r << 1, 0x1021, 16);
    FeedbackWords();
    TopBit(r);
  }

  lemma TopBit(r: bv16)
    ensures HighFirst(r, 16)[0] == (r & 0x8000 != 0)
  {
    assert Mask(15) == 0x8000 by {
      Masks();
    }
    assert HighFirst(r, 16)[0] == Has(r, 15);
  }

  function ModbusClocks(r: bv16, n: nat): bv16 {
    if n == 0 then r else ModbusClock(ModbusClocks(r, n - 1))
  }

  function CcittClocks(r: bv16, n: nat): bv16 {
    if n == 0 then r else CcittClock(CcittClocks(r, n - 1))
  }

  lemma CcittClockCases(r: bv16, s: bv16)
    requires s == if r & 0x8000 != 0 then (r << 1) ^ 0x1021 else r << 1
    ensures s == CcittClock(r)
  {
  }

  lemma RunLastZero(g: Bits, r: Bits, n: nat)
    requires |r| > 0 && |r| + 1 == |g| && n > 0
    ensures Run(g, r, Zeros(n)) == Step(g, Run(g, r, Zeros(n - 1)), false)
  {
    assert Zeros(n) == Zeros(n - 1) + [false];
    RunConcat(g, r, Zeros(n - 1), [false]);
  }

  lemma {:induction false} ModbusClocksAreRun(r: bv16, n: nat)
    ensures LowFirst(ModbusClocks(r, n), 16) == Run(MODBUS, LowFirst(r, 16), Zeros(n))
  {
    if n > 0 {
      ModbusClocksAreRun(r, n - 1);
      ModbusClockIsStep(ModbusClocks(r, n - 1));
      RunLastZero(MODBUS, LowFirst(r, 16), n);
    }
  }

  lemma {:induction false} CcittClocksAreRun(r: bv16, n: nat)
    ensures HighFirst(CcittClocks(r, n), 16) == Run(CCITT, HighFirst(r, 16), Zeros(n))
  {
    if n > 0 {
      CcittClocksAreRun(r, n - 1);
      CcittClockIsStep(CcittClocks(r, n - 1));
      RunLastZero(CCITT, HighFirst(r, 16), n);
    }
  }

  // Whole messages

  /** The CRC of data continued from register r, least significant bit first. */
  function ModbusCrc(r: bv16, data: seq<bv8>): bv16 {
    if data == [] then r
    else ModbusClocks(ModbusCrc(r, data[..|data| - 1]) ^ data[|data| - 1] as bv16, 8)
  }

  /** The CRC of data continued from register r, most significant bit first. */
  function CcittCrc(r: bv16, data: seq<bv8>): bv16 {
    if data == [] then r
    else CcittClocks(CcittCrc(r, data[..|data| - 1]) ^ (data[|data| - 1] as bv16 << 8), 8)
  }

  lemma CrcAppend(r: bv16, data: seq<bv8>, b: bv8)
    ensures ModbusCrc(r, data + [b]) == ModbusClocks(ModbusCrc(r, data) ^ b as bv16, 8)
    ensures CcittCrc(r, data + [b]) == CcittClocks(CcittCrc(r, data) ^ (b as bv16 << 8), 8)
  {
    assert (data + [b])[..|data|] == data;
  }

  /** The bits of a message in the order the Modbus CRC consumes them. */
  function LowStream(data: seq<bv8>): (b: Bits)
    ensures |b| == 8 * |data|
  {
    if data == [] then [] else LowStream(data[..|data| - 1]) + LowFirst(data[|data| - 1] as bv16, 8)
  }

  /** The bits of a message in the order the CCITT CRC consumes them. */
  function HighStream(data: seq<bv8>): (b: Bits)
    ensures |b| == 8 * |data|
  {
    if data == [] then [] else HighStream(data[..|data| - 1]) + HighFirst(data[|data| - 1] as bv16, 8)
  }

  lemma StreamSnoc(data: seq<bv8>, b: bv8)
    ensures LowStream(data + [b]) == LowStream(data) + LowFirst(b as bv16, 8)
    ensures HighStream(data + [b]) == HighStream(data) + HighFirst(b as bv16, 8)
  {
    assert (data + [b])[..|data|] == data;
  }

  lemma LowStreamAppend(g: Bits, r: Bits, data: seq<bv8>, b: bv8)
    requires |r| > 0 && |r| + 1 == |g|
    ensures Run(g, r, LowStream(data + [b])) == Run(g, Run(g, r, LowStream(data)), LowFirst(b as bv16, 8))
  {
    StreamSnoc(data, b);
    RunConcat(g, r, LowStream(data), LowFirst(b as bv16, 8));
  }

  lemma HighStreamAppend(g: Bits, r: Bits, data: seq<bv8>, b: bv8)
    requires |r| > 0 && |r| + 1 == |g|
    ensures Run(g, r, HighStream(data + [b])) == Run(g, Run(g, r, HighStream(data)), HighFirst(b as bv16, 8))
  {
    StreamSnoc(data, b);
    RunConcat(g, r, HighStream(data), HighFirst(b as bv16, 8));
  }

  lemma BitsAdded(s: bv16, x: bv16, m: Bits)
    requires |m| == 16
    ensures LowFirst(x, 16) == m ==> LowFirst(s ^ x, 16) == Xor(LowFirst(s, 16), m)
    ensures HighFirst(x, 16) == m ==> HighFirst(s ^ x, 16) == Xor(HighFirst(s, 16), m)
  {
    FirstXor(s, x, 16);
  }

  lemma LowByteAdded(s: bv16, b: bv8)
    ensures LowFirst(s ^ b as bv16, 16) == Xor(LowFirst(s, 16), LowFirst(b as bv16, 8) + Zeros(8))
  {
    BytePlaced(b);
    BitsAdded(s, b as bv16, LowFirst(b as bv16, 8) + Zeros(8));
  }

  lemma HighByteAdded(s: bv16, b: bv8)
    ensures HighFirst(s ^ (b as bv16 << 8), 16) == Xor(HighFirst(s, 16), HighFirst(b as bv16, 8) + Zeros(8))
  {
    BytePlaced(b);
    BitsAdded(s, b as bv16 << 8, HighFirst(b as bv16, 8) + Zeros(8));
  }

  lemma PreloadByte(g: Bits, r: Bits, m: Bits, s: Bits)
    requires |g| == 17 && |r| == 16 && |m| == 8
    requires s == Xor(r, m + Zeros(8))
    ensures Run(g, s, Zeros(8)) == Run(g, r, m)
  {
    RunPreload(g, r, m);
  }

  /** Adding a byte to the low half of the reflected register and clocking
      eight zeros consumes the byte. */
  lemma ModbusByteIsRun(s: bv16, b: bv8)
    ensures Run(MODBUS, LowFirst(s ^ b as bv16, 16), Zeros(8)) == Run(MODBUS, LowFirst(s, 16), LowFirst(b as bv16, 8))
  {
    LowByteAdded(s, b);
    PreloadByte(MODBUS, LowFirst(s, 16), LowFirst(b as bv16, 8), LowFirst(s ^ b as bv16, 16));
  }

  /** Adding a byte to the high half of the register and clocking eight zeros
      consumes the byte. */
  lemma CcittByteIsRun(s: bv16, b: bv8)
    ensures Run(CCITT, HighFirst(s ^ (b as bv16 << 8), 16), Zeros(8))
         == Run(CCITT, HighFirst(s, 16), HighFirst(b as bv16, 8))
  {
    HighByteAdded(s, b);
    PreloadByte(CCITT, HighFirst(s, 16), HighFirst(b as bv16, 8), HighFirst(s ^ (b as bv16 << 8), 16));
  }

  lemma ModbusByteClocks(s: bv16, b: bv8)
    ensures LowFirst(ModbusClocks(s ^ b as bv16, 8), 16) == Run(MODBUS, LowFirst(s, 16), LowFirst(b as bv16, 8))
  {
    ModbusClocksAreRun(s ^ b as bv16, 8);
    ModbusByteIsRun(s, b);
  }

  lemma CcittByteClocks(s: bv16, b: bv8)
    ensures HighFirst(CcittClocks(s ^ (b as bv16 << 8), 8), 16)
         == Run(CCITT, HighFirst(s, 16), HighFirst(b as bv16, 8))
  {
    CcittClocksAreRun(s ^ (b as bv16 << 8), 8);
    CcittByteIsRun(s, b);
  }

  lemma LastByte(data: seq<bv8>)
    requires data != []
    ensures data == data[..|data| - 1] + [data[|data| - 1]]
  {
  }

  lemma ModbusAppendBits(r: bv16, data: seq<bv8>, b: bv8)
    ensures LowFirst(ModbusCrc(r, data + [b]), 16)
         == Run(MODBUS, LowFirst(ModbusCrc(r, data), 16), LowFirst(b as bv16, 8))
  {
    CrcAppend(r, data, b);
    ModbusByteClocks(ModbusCrc(r, data), b);
  }

  /** The reflected Modbus CRC is the division register. */
  lemma {:induction false} ModbusCrcIsRun(r: bv16, data: seq<bv8>)
    ensures LowFirst(ModbusCrc(r, data), 16) == Run(MODBUS, LowFirst(r, 16), LowStream(data))
  {
    if data != [] {
      var init, b := data[..|data| - 1], data[|data| - 1];
      ModbusCrcIsRun(r, init);
      LastByte(data);
      ModbusAppendBits(r, init, b);
      LowStreamAppend(MODBUS, LowFirst(r, 16), init, b);
    }
  }

  lemma CcittAppendBits(r: bv16, data: seq<bv8>, b: bv8)
    ensures HighFirst(CcittCrc(r, data + [b]), 16)
         == Run(CCITT, HighFirst(CcittCrc(r, data), 16), HighFirst(b as bv16, 8))
  {
    CrcAppend(r, data, b);
    CcittByteClocks(CcittCrc(r, data), b);
  }

  /** The CCITT CRC is the division register. */
  lemma {:induction false} CcittCrcIsRun(r: bv16, data: seq<bv8>)
    ensures HighFirst(CcittCrc(r, data), 16) == Run(CCITT, HighFirst(r, 16), HighStream(data))
  {
    if data != [] {
      var init, b := data[..|data| - 1], data[|data| - 1];
      CcittCrcIsRun(r, init);
      LastByte(data);
      CcittAppendBits(r, init, b);
      HighStreamAppend(CCITT, HighFirst(r, 16), init, b);
    }
  }
}
