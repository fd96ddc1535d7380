/**
 Machine words in memory. The host byte order is a parameter wherever the
 source depends on it.
 */
module Bytes {

  type byte = b: int | 0 <= b < 0x100
  type uint16 = x: int | 0 <= x < 0x1_0000
  type uint32 = x: int | 0 <= x < 0x1_0000_0000

  datatype ByteOrder = LittleEndian | BigEndian

  function Word(hi: byte, lo: byte): uint16 {
    0x100 * (hi as int) + lo as int
  }

  function DoubleWord(hi: uint16, lo: uint16): uint32 {
    0x1_0000 * (hi as int) + lo as int
  }

  /** The two bytes a host stores for v. */
  function Store16(order: ByteOrder, v: uint16): (s: seq<byte>)
    ensures |s| == 2
  {
    if order == BigEndian then [v / 0x100, v % 0x100] else [v % 0x100, v / 0x100]
  }

  /** The value a host reads from two bytes. */
  function Load16(order: ByteOrder, s: seq<byte>): uint16
    requires |s| == 2
  {
    if order == BigEndian then Word(s[0], s[1]) else Word(s[1], s[0])
  }

  function Store32(order: ByteOrder, v: uint32): (s: seq<byte>)
    ensures |s| == 4
  {
    if order == BigEndian then Store16(order, v / 0x1_0000) + Store16(order, v % 0x1_0000)
    else Store16(order, v % 0x1_0000) + Store16(order, v / 0x1_0000)
  }

  function Load32(order: ByteOrder, s: seq<byte>): uint32
    requires |s| == 4
  {
    if order == BigEndian then DoubleWord(Load16(order, s[..2]), Load16(order, s[2..]))
    else DoubleWord(Load16(order, s[2..]), Load16(order, s[..2]))
  }

  function Swap16(v: uint16): uint16 {
    Word(v % 0x100, v / 0x100)
  }

  function Swap32(v: uint32): uint32 {
    DoubleWord(Swap16(v % 0x1_0000), Swap16(v / 0x1_0000))
  }

  /** htons and ntohs are the same function. */
  function Htons(order: ByteOrder, v: uint16): uint16 {
    if order == BigEndian then v else Swap16(v)
  }

  function Htonl(order: ByteOrder, v: uint32): uint32 {
    if order == BigEndian then v else Swap32(v)
  }

  lemma WordHalves(hi: byte, lo: byte)
    ensures Word(hi, lo) / 0x100 == hi && Word(hi, lo) % 0x100 == lo
  {
  }

  lemma DoubleWordHalves(hi: uint16, lo: uint16)
    ensures DoubleWord(hi, lo) / 0x1_0000 == hi && DoubleWord(hi, lo) % 0x1_0000 == lo
  {
  }

  lemma LoadStore16(order: ByteOrder, v: uint16)
    ensures Load16(order, Store16(order, v)) == v
  {
  }

  lemma LoadStore32(order: ByteOrder, v: uint32)
    ensures Load32(order, Store32(order, v)) == v
  {
    var hi, lo := v / 0x1_0000, v % 0x1_0000;
    LoadStore16(order, hi);
    LoadStore16(order, lo);
    if order == BigEndian {
      assert Store32(order, v)[..2] == Store16(order, hi) && Store32(order, v)[2..] == Store16(order, lo);
    } else {
      assert Store32(order, v)[..2] == Store16(order, lo) && Store32(order, v)[2..] == Store16(order, hi);
    }
  }

  /** A converted value is stored in network order on either host, and
      converting twice changes nothing. */
  lemma NetworkStore16(order: ByteOrder, v: uint16)
    ensures Store16(order, Htons(order, v)) == Store16(BigEndian, v)
    ensures Htons(order, Htons(order, v)) == v
  {
    WordHalves(v % 0x100, v / 0x100);
  }

  lemma NetworkStore32(order: ByteOrder, v: uint32)
    ensures Store32(order, Htonl(order, v)) == Store32(BigEndian, v)
    ensures Htonl(order, Htonl(order, v)) == v
  {
    var hi, lo := v / 0x1_0000, v % 0x1_0000;
    NetworkStore16(LittleEndian, hi);
    NetworkStore16(LittleEndian, lo);
    DoubleWordHalves(Swap16(lo), Swap16(hi));
  }
}
