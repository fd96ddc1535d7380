/**
 The header structures of lib/netpackets and the routines that fill them in:
 pack_ipv4_hdr, config_ip4_hdr, the echo request of send_icmp_echo,
 pack_ether_hdr and pack_vlan_hdr. A class holds the fields as the host sees
 them; its Image is the packed structure in memory.
 */
module Headers {
  import opened Bytes
  import opened InternetChecksum

  type nibble = x: int | 0 <= x < 16

  // Section 3.1 of RFC 791

  datatype Ipv4 = Ipv4(
    version: nat, ihl: nat, tos: byte, totLen: uint16, id: uint16, flags: nat, fragOffset: nat,
    ttl: byte, protocol: byte, checksum: uint16, src: seq<byte>, dst: seq<byte>)

  function ParseIpv4(b: seq<byte>): Ipv4
    requires |b| == 20
  {
    Ipv4(b[0] / 16, b[0] % 16, b[1], Word(b[2], b[3]), Word(b[4], b[5]),
         Word(b[6], b[7]) / 0x2000, Word(b[6], b[7]) % 0x2000,
         b[8], b[9], Word(b[10], b[11]), b[12..16], b[16..20])
  }

  /** The conversion to a 16-bit unsigned parameter. */
  function Mod16(x: int): (r: uint16)
    ensures 0 <= x < 0x1_0000 ==> r == x
    ensures (x - r) % 0x1_0000 == 0
  {
    x % 0x1_0000
  }

  const DF: uint16 := 0x4000

  /** x |= DF */
  function WithDf(x: uint16): uint16 {
    if (x / DF) % 2 == 1 then x else x + DF
  }

  /** The header says "do not fragment" and nothing else exactly when frag held
      0 or that flag on entry. */
  lemma DfAlone(frag: uint16)
    ensures WithDf(frag) / 0x2000 == 2 && WithDf(frag) % 0x2000 == 0 <==> frag == 0 || frag == DF
  {
    assert frag == DF * (frag / DF) + frag % DF;
    assert frag / DF < 4;
  }

  /** What both packers mean to send: version 4, no service bits, 64 hops. */
  function Ipv4Fields(ihl: nat, totLen: uint16, id: uint16, frag: uint16, protocol: byte, checksum: uint16,
                      src: seq<byte>, dst: seq<byte>): Ipv4
  {
    Ipv4(4, ihl, 0, totLen, id, frag / 0x2000, frag % 0x2000, 64, protocol, checksum, src, dst)
  }

  /** The 20 bytes of a header without options. */
  function Ipv4Bytes(version: nibble, ihl: nibble, tos: byte, totLen: seq<byte>, id: seq<byte>, frag: seq<byte>,
                     ttl: byte, protocol: byte, checksum: seq<byte>, src: seq<byte>, dst: seq<byte>): (b: seq<byte>)
    requires |totLen| == |id| == |frag| == |checksum| == 2 && |src| == |dst| == 4
    ensures |b| == 20
  {
    [16 * version + ihl, tos, totLen[0], totLen[1], id[0], id[1], frag[0], frag[1],
     ttl, protocol, checksum[0], checksum[1],
     src[0], src[1], src[2], src[3], dst[0], dst[1], dst[2], dst[3]]
  }

  lemma ReadWord(v: uint16)
    ensures Word(Store16(BigEndian, v)[0], Store16(BigEndian, v)[1]) == v
  {
  }

  lemma Nibbles(hi: nibble, lo: nibble)
    ensures (16 * hi + lo) / 16 == hi && (16 * hi + lo) % 16 == lo
  {
  }

  lemma ParseIpv4Bytes(version: nibble, ihl: nibble, tos: byte, totLen: uint16, id: uint16, frag: uint16,
                       ttl: byte, protocol: byte, checksum: uint16, src: seq<byte>, dst: seq<byte>)
    requires |src| == |dst| == 4
    ensures ParseIpv4(Ipv4Bytes(version, ihl, tos, Store16(BigEndian, totLen), Store16(BigEndian, id),
                                Store16(BigEndian, frag), ttl, protocol, Store16(BigEndian, checksum), src, dst))
         == Ipv4(version, ihl, tos, totLen, id, frag / 0x2000, frag % 0x2000, ttl, protocol, checksum, src, dst)
  {
    var tl, i := Store16(BigEndian, totLen), Store16(BigEndian, id);
    var f, c := Store16(BigEndian, frag), Store16(BigEndian, checksum);
    var b := Ipv4Bytes(version, ihl, tos, tl, i, f, ttl, protocol, c, src, dst);
    assert b[12..16] == src && b[16..20] == dst;
    assert Word(b[2], b[3]) == totLen by { ReadWord(totLen); }
    assert Word(b[4], b[5]) == id by { ReadWord(id); }
    assert Word(b[6], b[7]) == frag by { ReadWord(frag); }
    assert Word(b[10], b[11]) == checksum by { ReadWord(checksum); }
    Nibbles(version, ihl);
  }

  /** Filling in a zeroed checksum field is PutWord at offset 10. */
  lemma ChecksumField(version: nibble, ihl: nibble, tos: byte, totLen: seq<byte>, id: seq<byte>, frag: seq<byte>,
                      ttl: byte, protocol: byte, checksum: uint16, src: seq<byte>, dst: seq<byte>)
    requires |totLen| == |id| == |frag| == 2 && |src| == |dst| == 4
    ensures var h := Ipv4Bytes(version, ihl, tos, totLen, id, frag, ttl, protocol, [0, 0], src, dst);
      && h[10] == h[11] == 0
      && Ipv4Bytes(version, ihl, tos, totLen, id, frag, ttl, protocol, Store16(BigEndian, checksum), src, dst)
      == PutWord(h, 10, checksum)
  {
  }

  /** The header a host stores when every multi-byte field but the checksum
      has been converted to network order. */
  function Ipv4Packed(order: ByteOrder, ihl: nibble, totLen: uint16, id: uint16, frag: uint16, protocol: byte,
                      checksum: uint16, src: uint32, dst: uint32): (b: seq<byte>)
    ensures |b| == 20
  {
    Ipv4Bytes(4, ihl, 0, Store16(order, Htons(order, totLen)), Store16(order, Htons(order, id)),
              Store16(order, Htons(order, frag)), 64, protocol, Store16(order, checksum),
              Store32(order, src), Store32(order, dst))
  }

  lemma ParsePacked(order: ByteOrder, ihl: nibble, totLen: uint16, id: uint16, frag: uint16, protocol: byte,
                    checksum: uint16, src: uint32, dst: uint32)
    ensures ParseIpv4(Ipv4Packed(order, ihl, totLen, id, frag, protocol, checksum, src, dst))
         == Ipv4Fields(ihl, totLen, id, frag, protocol, Htons(order, checksum),
                       Store32(order, src), Store32(order, dst))
  {
    NetworkStore16(order, totLen);
    NetworkStore16(order, id);
    NetworkStore16(order, frag);
    NetworkStore16(order, Htons(order, checksum));
    ParseIpv4Bytes(4, ihl, 0, totLen, id, frag, 64, protocol, Htons(order, checksum),
                   Store32(order, src), Store32(order, dst));
  }

  /** Storing a checksum field, in the terms of SelfVerifies. */
  lemma PackedChecksum(order: ByteOrder, ihl: nibble, totLen: uint16, id: uint16, frag: uint16, protocol: byte,
                       checksum: uint16, src: uint32, dst: uint32)
    ensures var h := Ipv4Packed(order, ihl, totLen, id, frag, protocol, 0, src, dst);
      && h[10] == h[11] == 0
      && Ipv4Packed(order, ihl, totLen, id, frag, protocol, checksum, src, dst)
      == PutWord(h, 10, Htons(order, checksum))
  {
    assert Store16(order, checksum) == Store16(BigEndian, Htons(order, checksum)) by {
      NetworkStore16(order, Htons(order, checksum));
      NetworkStore16(order, checksum);
    }
    assert Store16(order, 0) == [0, 0];
    ChecksumField(4, ihl, 0, Store16(order, Htons(order, totLen)), Store16(order, Htons(order, id)),
                  Store16(order, Htons(order, frag)), 64, protocol, Htons(order, checksum),
                  Store32(order, src), Store32(order, dst));
  }

  /** A zeroed field, then the computed checksum converted and stored: the
      result verifies. */
  lemma PackedVerifies(order: ByteOrder, ihl: nibble, totLen: uint16, id: uint16, frag: uint16, protocol: byte,
                       c: uint16, src: uint32, dst: uint32, zeroed: seq<byte>, filled: seq<byte>)
    requires zeroed == Ipv4Packed(order, ihl, totLen, id, frag, protocol, 0, src, dst) && c == ChecksumOf(zeroed)
    requires filled == Ipv4Packed(order, ihl, totLen, id, frag, protocol, Htons(order, c), src, dst)
    ensures ChecksumOf(filled) == 0
  {
    PackedChecksum(order, ihl, totLen, id, frag, protocol, Htons(order, c), src, dst);
    NetworkStore16(order, c);
    SelfVerifies(zeroed, 10);
  }

  /** PackedVerifies for a header given by its stored fields. */
  lemma StoredVerifies(order: ByteOrder, version: nibble, ihl: nibble, tos: byte, totLen: uint16, id: uint16,
                       frag: uint16, ttl: byte, protocol: byte, checksum: uint16, src: uint32, dst: uint32,
                       len: uint16, pid: uint16, fragment: uint16, c: uint16)
    requires version == 4 && tos == 0 && ttl == 64
    requires totLen == Htons(order, len) && id == Htons(order, pid) && frag == Htons(order, fragment)
    requires c == ChecksumOf(Ipv4Bytes(version, ihl, tos, Store16(order, totLen), Store16(order, id),
                                       Store16(order, frag), ttl, protocol, Store16(order, 0),
                                       Store32(order, src), Store32(order, dst)))
    requires checksum == Htons(order, c)
    ensures var b := Ipv4Bytes(version, ihl, tos, Store16(order, totLen), Store16(order, id), Store16(order, frag),
                               ttl, protocol, Store16(order, checksum), Store32(order, src), Store32(order, dst));
      && ChecksumOf(b) == 0
      && b == Ipv4Packed(order, ihl, len, pid, fragment, protocol, checksum, src, dst)
  {
    PackedVerifies(order, ihl, len, pid, fragment, protocol, c, src, dst,
                   Ipv4Packed(order, ihl, len, pid, fragment, protocol, 0, src, dst),
                   Ipv4Packed(order, ihl, len, pid, fragment, protocol, checksum, src, dst));
  }

  class Ipv4Hdr {
    var version: nibble
    var ihl: nibble
    var tos: byte
    var totLen: uint16
    var id: uint16
    var frag: uint16
    var ttl: byte
    var protocol: byte
    var checksum: uint16
    var srcAddr: uint32
    var dstAddr: uint32

    /** A structure laid over memory with any contents. */
    constructor () {
    }

    function Image(order: ByteOrder): (b: seq<byte>)
      reads this
      ensures |b| == 20
    {
      Ipv4Bytes(version, ihl, tos, Store16(order, totLen), Store16(order, id), Store16(order, frag),
                ttl, protocol, Store16(order, checksum), Store32(order, srcAddr), Store32(order, dstAddr))
    }

    /** The stores both packers make before they compute the checksum. */
    method SetFields(order: ByteOrder, hdrWords: nibble, len: uint16, pid: uint16, flags: uint16, proto: byte,
                     src: uint32, dst: uint32)
      modifies this
      ensures version == 4 && ihl == hdrWords && tos == 0 && ttl == 64 && protocol == proto && checksum == 0
      ensures totLen == Htons(order, len) && id == Htons(order, pid) && frag == Htons(order, flags)
      ensures srcAddr == src && dstAddr == dst
    {
      version := 4;
      ihl := hdrWords;
      tos := 0;
      totLen := Htons(order, len);
      id := Htons(order, pid);
      frag := Htons(order, flags);
      ttl := 64;
      protocol := proto;
      checksum := 0;
      srcAddr := src;
      dstAddr := dst;
    }

    /** config_ip4_hdr. Every header it leaves verifies; DF is added to whatever
        frag held, read as a host number. */
    method ConfigIp4Hdr(order: ByteOrder, hdrLen: uint16, dataLen: uint16, srcIp: uint32, dstIp: uint32, pid: nat)
      modifies this
      ensures ChecksumOf(Image(order)) == 0
      ensures Image(order) == Ipv4Packed(order, (hdrLen / 4) % 16, Mod16(hdrLen + dataLen), Mod16(pid),
                                         WithDf(old(frag)), 40, checksum, srcIp, dstIp)
    {
      ghost var df := WithDf(frag);
      SetFields(order, (hdrLen / 4) % 16, Mod16(hdrLen + dataLen), Mod16(pid), WithDf(frag), 40, srcIp, dstIp);
      var c := Checksum(Image(order));
      checksum := Htons(order, c);
      StoredVerifies(order, version, ihl, tos, totLen, id, frag, ttl, protocol, checksum, srcAddr, dstAddr,
                     Mod16(hdrLen + dataLen), Mod16(pid), df, c);
    }

    /** pack_ipv4_hdr, which stores the checksum without converting it: the
        header verifies on a big-endian host, and on a little-endian one only
        when the two bytes of the checksum are equal. */
    method PackIpv4Hdr(order: ByteOrder, src: uint32, dst: uint32, proto: byte, dataLen: uint16, pid: nat)
      modifies this
      ensures checksum == ChecksumOf(Ipv4Packed(order, 5, Mod16(20 + dataLen), Mod16(pid), DF, proto, 0, src, dst))
      ensures Image(order) == Ipv4Packed(order, 5, Mod16(20 + dataLen), Mod16(pid), DF, proto, checksum, src, dst)
      ensures ChecksumOf(Image(order)) == 0 <==> order == BigEndian || checksum / 0x100 == checksum % 0x100
    {
      SetFields(order, 20 / 4, Mod16(20 + dataLen), Mod16(pid), DF, proto, src, dst);
      assert Image(order) == Ipv4Packed(order, 5, Mod16(20 + dataLen), Mod16(pid), DF, proto, 0, src, dst);
      var c := Checksum(Image(order));
      checksum := c;
      UnconvertedVerifies(order, 5, Mod16(20 + dataLen), Mod16(pid), DF, proto, c, src, dst);
    }

    /** ipv4_ntohs: three fields become the numbers the packet carries; the
        fragment word is left as stored. */
    method Ipv4Ntohs(order: ByteOrder)
      modifies this
      ensures var h := ParseIpv4(old(Image(order)));
        totLen == h.totLen && id == h.id && checksum == h.checksum
      ensures frag == old(frag) && srcAddr == old(srcAddr) && dstAddr == old(dstAddr)
      ensures version == old(version) && ihl == old(ihl) && tos == old(tos)
      ensures ttl == old(ttl) && protocol == old(protocol)
    {
      ReadAsNetwork(order, totLen);
      ReadAsNetwork(order, id);
      ReadAsNetwork(order, checksum);
      totLen := Htons(order, totLen);
      id := Htons(order, id);
      checksum := Htons(order, checksum);
    }
  }

  /** What a receiver reads, high byte first, from a field stored in host order. */
  lemma ReadAsNetwork(order: ByteOrder, v: uint16)
    ensures Word(Store16(order, v)[0], Store16(order, v)[1]) == Htons(order, v)
  {
  }

  lemma UnconvertedVerifies(order: ByteOrder, ihl: nibble, totLen: uint16, id: uint16, frag: uint16, protocol: byte,
                            c: uint16, src: uint32, dst: uint32)
    requires c == ChecksumOf(Ipv4Packed(order, ihl, totLen, id, frag, protocol, 0, src, dst))
    ensures ChecksumOf(Ipv4Packed(order, ihl, totLen, id, frag, protocol, c, src, dst)) == 0
       <==> order == BigEndian || c / 0x100 == c % 0x100
  {
    var zeroed := Ipv4Packed(order, ihl, totLen, id, frag, protocol, 0, src, dst);
    PackedChecksum(order, ihl, totLen, id, frag, protocol, c, src, dst);
    SelfVerifies(zeroed, 10);
    SwappedVerifiesExactly(zeroed, 10);
  }

  /** On a little-endian host the stored checksum bytes are the swap of the
      bytes that would verify. */
  lemma UnconvertedIsSwapped(ihl: nibble, totLen: uint16, id: uint16, frag: uint16, protocol: byte,
                             c: uint16, src: uint32, dst: uint32)
    requires c == ChecksumOf(Ipv4Packed(LittleEndian, ihl, totLen, id, frag, protocol, 0, src, dst))
    ensures var sent := Ipv4Packed(LittleEndian, ihl, totLen, id, frag, protocol, c, src, dst);
      ChecksumOf(sent[10 := sent[11]][11 := sent[10]]) == 0
  {
    var zeroed := Ipv4Packed(LittleEndian, ihl, totLen, id, frag, protocol, 0, src, dst);
    var sent := Ipv4Packed(LittleEndian, ihl, totLen, id, frag, protocol, c, src, dst);
    PackedChecksum(LittleEndian, ihl, totLen, id, frag, protocol, c, src, dst);
    SelfVerifies(zeroed, 10);
    SwapPut(zeroed, c);
  }

  lemma TotalPair(a: byte, b: byte, rest: seq<byte>)
    ensures Total([a, b] + rest) == Word(a, b) + Total(rest)
  {
    assert ([a, b] + rest)[2..] == rest;
  }

  /** The header of send_vlan after its identification, before the checksum is
      stored: protocol 40, from 192.168.5.2 to 192.168.5.3. */
  function VlanRest(): (b: seq<byte>)
    ensures |b| == 14
  {
    [0x40, 0x00] + ([0x40, 0x28] + ([0x00, 0x00]
    + ([0xC0, 0xA8] + ([0x05, 0x02] + ([0xC0, 0xA8] + ([0x05, 0x03] + []))))))
  }

  /** The whole header, 32 bytes being announced and the process id being the
      identification. */
  function VlanHeader(id: uint16): (b: seq<byte>)
    ensures |b| == 20
  {
    [0x45, 0x00] + ([0x00, 0x20] + ([id / 0x100, id % 0x100] + VlanRest()))
  }

  lemma VlanRestTotal()
    ensures Total(VlanRest()) == 0x2_0B7D
  {
    var t6 := [0x05, 0x03] + [];
    var t5 := [0xC0, 0xA8] + t6;
    var t4 := [0x05, 0x02] + t5;
    var t3 := [0xC0, 0xA8] + t4;
    var t2 := [0x00, 0x00] + t3;
    var t1 := [0x40, 0x28] + t2;
    TotalPair(0x05, 0x03, []);
    TotalPair(0xC0, 0xA8, t6);
    TotalPair(0x05, 0x02, t5);
    TotalPair(0xC0, 0xA8, t4);
    TotalPair(0x00, 0x00, t3);
    TotalPair(0x40, 0x28, t2);
    TotalPair(0x40, 0x00, t1);
  }

  lemma VlanHeaderTotal(id: uint16)
    ensures Total(VlanHeader(id)) == 0x2_509D + id
  {
    hide VlanRest, Total;
    VlanRestTotal();
    var hi, lo := id / 0x100, id % 0x100;
    TotalPair(hi, lo, VlanRest());
    TotalPair(0x00, 0x20, [hi, lo] + VlanRest());
    TotalPair(0x45, 0x00, [0x00, 0x20] + ([hi, lo] + VlanRest()));
  }

  /** 192.168.5.2 and 192.168.5.3 as a little-endian host holds them. */
  const VLAN_SRC: uint32 := 0x0205_A8C0
  const VLAN_DST: uint32 := 0x0305_A8C0

  lemma StoredNumber(v: uint16)
    ensures Store16(LittleEndian, Htons(LittleEndian, v)) == [v / 0x100, v % 0x100]
  {
    NetworkStore16(LittleEndian, v);
  }

  lemma StoredAddresses()
    ensures Store32(LittleEndian, VLAN_SRC) == [0xC0, 0xA8, 0x05, 0x02]
    ensures Store32(LittleEndian, VLAN_DST) == [0xC0, 0xA8, 0x05, 0x03]
  {
  }

  lemma VlanHeaderBytes(id: uint16)
    ensures Ipv4Packed(LittleEndian, 5, 32, id, DF, 40, 0, VLAN_SRC, VLAN_DST) == VlanHeader(id)
  {
    assert Store16(LittleEndian, 0) == [0, 0];
    hide Store16, Store32, Htons;
    StoredNumber(32);
    StoredNumber(id);
    StoredNumber(DF);
    StoredAddresses();
  }

  lemma EqualBytes(c: uint16)
    ensures c / 0x100 == c % 0x100 <==> c % 257 == 0
  {
    var hi, lo := c / 0x100, c % 0x100;
    Residue257(c, hi, lo - hi);
  }

  lemma Residue257(c: int, q: int, d: int)
    requires c == 257 * q + d && -257 < d < 257
    ensures c % 257 == 0 <==> d == 0
  {
  }

  lemma Opposite257(c: int, q: int, d: int)
    requires c == 257 * q - d
    ensures c % 257 == 0 <==> d % 257 == 0
  {
  }

  lemma Shifted257(id: nat)
    ensures (id + 79) % 257 == 0 <==> id % 257 == 178
  {
  }

  /** The checksum of such a header has two equal bytes for one identification
      in 257. */
  lemma VlanChecksumBytes(id: uint16, c: uint16)
    requires c == ChecksumOf(VlanHeader(id))
    ensures c / 0x100 == c % 0x100 <==> (id + 79) % 257 == 0
  {
    var total := Total(VlanHeader(id));
    VlanHeaderTotal(id);
    WrapSmall(total);
    hide VlanHeader, Total, Canon;
    var i := CanonOf(total);
    EqualBytes(c);
    Opposite257(c, 255 * (i + 1) - 590, id + 79);
  }

  lemma VlanChecksumOfZero()
    ensures ChecksumOf(VlanHeader(0)) == 0xAF60
  {
    hide VlanHeader, Total, Canon;
    VlanHeaderTotal(0);
    WrapSmall(0x2_509D);
    CanonIs(0x2_509D, 2, 0x509F);
  }

  /** From a little-endian host, the header of send_vlan verifies exactly for
      the identifications that are 178 modulo 257; for 0 its checksum is 0xAF60. */
  lemma VlanVerifiesExactly(id: uint16, c: uint16)
    requires c == ChecksumOf(Ipv4Packed(LittleEndian, 5, 32, id, DF, 40, 0, VLAN_SRC, VLAN_DST))
    ensures ChecksumOf(Ipv4Packed(LittleEndian, 5, 32, id, DF, 40, c, VLAN_SRC, VLAN_DST)) == 0 <==> id % 257 == 178
    ensures id == 0 ==> c == 0xAF60
  {
    hide ChecksumOf, Ipv4Packed, VlanHeader;
    VlanHeaderBytes(id);
    VlanChecksumBytes(id, c);
    VlanChecksumOfZero();
    Shifted257(id);
    UnconvertedVerifies(LittleEndian, 5, 32, id, DF, 40, c, VLAN_SRC, VLAN_DST);
  }

  lemma SwapPut(d: seq<byte>, c: uint16)
    requires |d| == 20
    ensures var r := PutWord(d, 10, Swap16(c));
      r[10 := r[11]][11 := r[10]] == PutWord(d, 10, c)
  {
    WordHalves(c % 0x100, c / 0x100);
  }

  // The echo message of RFC 792, as send_icmp_echo sends it

  const MAGIC_LEN := 18

  datatype EchoMessage = EchoMessage(kind: byte, code: byte, checksum: uint16, identifier: uint16, sequence: uint16,
                                     data: seq<byte>)

  function ParseEcho(b: seq<byte>): EchoMessage
    requires |b| >= 8
  {
    EchoMessage(b[0], b[1], Word(b[2], b[3]), Word(b[4], b[5]), Word(b[6], b[7]), b[8..])
  }

  lemma ParseEchoBytes(kind: byte, code: byte, checksum: uint16, identifier: uint16, sequence: uint16, data: seq<byte>)
    requires |data| == MAGIC_LEN
    ensures var b := EchoBytes(kind, code, Store16(BigEndian, checksum), Store16(BigEndian, identifier),
                               Store16(BigEndian, sequence), data);
      && ParseEcho(b) == EchoMessage(kind, code, checksum, identifier, sequence, data)
      && b[2 := 0][3 := 0] == EchoBytes(kind, code, [0, 0], Store16(BigEndian, identifier),
                                        Store16(BigEndian, sequence), data)
  {
    ReadWord(checksum);
    ReadWord(identifier);
    ReadWord(sequence);
  }

  function EchoBytes(kind: byte, code: byte, checksum: seq<byte>, identifier: seq<byte>, sequence: seq<byte>,
                     data: seq<byte>): (b: seq<byte>)
    requires |checksum| == |identifier| == |sequence| == 2 && |data| == MAGIC_LEN
    ensures |b| == 26
  {
    [kind, code, checksum[0], checksum[1], identifier[0], identifier[1], sequence[0], sequence[1]] + data
  }

  lemma EchoChecksum(kind: byte, code: byte, checksum: uint16, identifier: seq<byte>, sequence: seq<byte>,
                     data: seq<byte>)
    requires |identifier| == |sequence| == 2 && |data| == MAGIC_LEN
    ensures var h := EchoBytes(kind, code, [0, 0], identifier, sequence, data);
      && h[2] == h[3] == 0
      && EchoBytes(kind, code, Store16(BigEndian, checksum), identifier, sequence, data) == PutWord(h, 2, checksum)
  {
  }

  lemma EchoVerifies(kind: byte, code: byte, c: uint16, identifier: seq<byte>, sequence: seq<byte>, data: seq<byte>)
    requires |identifier| == |sequence| == 2 && |data| == MAGIC_LEN
    requires c == ChecksumOf(EchoBytes(kind, code, [0, 0], identifier, sequence, data))
    ensures ChecksumOf(EchoBytes(kind, code, Store16(BigEndian, c), identifier, sequence, data)) == 0
  {
    EchoChecksum(kind, code, c, identifier, sequence, data);
    SelfVerifies(EchoBytes(kind, code, [0, 0], identifier, sequence, data), 2);
  }

  lemma StoredEcho(order: ByteOrder, kind: byte, code: byte, checksum: uint16, identifier: uint16, sequence: uint16,
                   data: seq<byte>, pid: uint16, seqNo: uint16, c: uint16)
    requires |data| == MAGIC_LEN
    requires identifier == Htons(order, pid) && sequence == Htons(order, seqNo) && checksum == Htons(order, c)
    requires c == ChecksumOf(EchoBytes(kind, code, Store16(order, 0), Store16(order, identifier),
                                       Store16(order, sequence), data))
    ensures var b := EchoBytes(kind, code, Store16(order, checksum), Store16(order, identifier),
                               Store16(order, sequence), data);
      && ChecksumOf(b) == 0
      && ParseEcho(b) == EchoMessage(kind, code, c, pid, seqNo, data) && c == ChecksumOf(b[2 := 0][3 := 0])
  {
    NetworkStore16(order, pid);
    NetworkStore16(order, seqNo);
    NetworkStore16(order, c);
    assert Store16(order, 0) == [0, 0];
    ParseEchoBytes(kind, code, c, pid, seqNo, data);
    hide EchoBytes, ParseEcho, ChecksumOf, Htons, Store16;
    EchoVerifies(kind, code, c, Store16(BigEndian, pid), Store16(BigEndian, seqNo), data);
  }

  class PingPacket {
    var kind: byte
    var code: byte
    var checksum: uint16
    var identifier: uint16
    var sequence: uint16
    var data: seq<byte>

    /** A structure laid over memory with any contents. */
    constructor () {
    }

    function Image(order: ByteOrder): (b: seq<byte>)
      reads this
      requires |data| == MAGIC_LEN
      ensures |b| == 26
    {
      EchoBytes(kind, code, Store16(order, checksum), Store16(order, identifier), Store16(order, sequence), data)
    }

    method SetFields(order: ByteOrder, pid: uint16, seqNo: uint16, magic: seq<byte>)
      modifies this
      ensures kind == 8 && code == 0 && checksum == 0 && data == magic
      ensures identifier == Htons(order, pid) && sequence == Htons(order, seqNo)
    {
      kind := 8;
      code := 0;
      checksum := 0;
      identifier := Htons(order, pid);
      sequence := Htons(order, seqNo);
      data := magic;
    }

    /** Lines 183-191 of send_icmp_echo.c: the request verifies, and a receiver
        reads the process and sequence numbers, cut to 16 bits, from a host of
        either byte order. */
    method Assemble(order: ByteOrder, pid: nat, seqNo: int, magic: seq<byte>)
      requires |magic| == MAGIC_LEN
      modifies this
      ensures data == magic && ChecksumOf(Image(order)) == 0
      ensures ParseEcho(Image(order))
           == EchoMessage(8, 0, ChecksumOf(Image(order)[2 := 0][3 := 0]), pid % 0x1_0000, seqNo % 0x1_0000, magic)
    {
      SetFields(order, Mod16(pid), Mod16(seqNo), magic);
      var checksum1 := Checksum(Image(order));
      checksum := Htons(order, checksum1);
      StoredEcho(order, kind, code, checksum, identifier, sequence, data, Mod16(pid), Mod16(seqNo), checksum1);
    }
  }

  // Ethernet and VLAN headers

  class EtherHdr {
    var dstMac: seq<byte>
    var sourceMac: seq<byte>
    var protoType: uint16

    /** A structure laid over memory with any contents. */
    constructor () {
    }

    function Image(order: ByteOrder): (b: seq<byte>)
      reads this
    {
      dstMac + sourceMac + Store16(order, protoType)
    }

    /** pack_ether_hdr: destination, source and type in the order they travel. */
    method PackEtherHdr(order: ByteOrder, dst: seq<byte>, source: seq<byte>, proto: uint16)
      requires |dst| == |source| == 6
      modifies this
      ensures |Image(order)| == 14
      ensures Image(order)[..6] == dst && Image(order)[6..12] == source
      ensures Word(Image(order)[12], Image(order)[13]) == proto
    {
      dstMac := dst;
      sourceMac := source;
      protoType := Htons(order, proto);
      NetworkStore16(order, proto);
    }
  }

  /** The tag of clause 9.6 of IEEE 802.1Q: priority, drop eligibility and VLAN
      identifier, then the type of what follows. */
  datatype VlanTag = VlanTag(pcp: nat, dei: nat, vid: nat, protoType: uint16)

  function ParseVlan(b: seq<byte>): VlanTag
    requires |b| == 4
  {
    VlanTag(b[0] / 32, (b[0] / 16) % 2, 0x100 * ((b[0] as int) % 16) + b[1], Word(b[2], b[3]))
  }

  lemma TagFields(p: nat, d: nat, v: nat, tci: uint16)
    requires p < 8 && d < 2 && v < 0x1000 && tci == 0x2000 * p + 0x1000 * d + v
    ensures tci / 0x100 == 32 * p + 16 * d + v / 0x100 && tci % 0x100 == v % 0x100
    ensures (tci / 0x100) / 32 == p && ((tci / 0x100) / 16) % 2 == d
    ensures 0x100 * ((tci / 0x100) % 16) + tci % 0x100 == v
  {
    var hi := v / 0x100;
    assert hi < 16;
  }

  lemma BitFields(before: uint16, id: uint16, dei: uint16, pri: uint16)
    ensures var withId := before / 0x1000 * 0x1000 + id % 0x1000;
      var withDei := withId / 0x2000 * 0x2000 + dei % 2 * 0x1000 + withId % 0x1000;
      withDei % 0x2000 == 0x1000 * (dei % 2) + id % 0x1000
  {
    var withId := before / 0x1000 * 0x1000 + id % 0x1000;
    assert withId % 0x1000 == id % 0x1000;
  }

  lemma ParseStoredTag(order: ByteOrder, p: nat, d: nat, v: nat, tci: uint16, proto: uint16)
    requires p < 8 && d < 2 && v < 0x1000 && tci == 0x2000 * p + 0x1000 * d + v
    ensures ParseVlan(Store16(order, Htons(order, tci)) + Store16(order, Htons(order, proto)))
         == VlanTag(p, d, v, proto)
  {
    NetworkStore16(order, tci);
    NetworkStore16(order, proto);
    TagFields(p, d, v, tci);
    ReadWord(proto);
  }

  class VlanHdr {
    var tci: uint16
    var protoType: uint16

    /** A structure laid over memory with any contents. */
    constructor () {
    }

    function Image(order: ByteOrder): (b: seq<byte>)
      reads this
      ensures |b| == 4
    {
      Store16(order, tci) + Store16(order, protoType)
    }

    /** pack_vlan_hdr. The bit-fields share tci: identifier in the 12 low bits,
        then one bit of dei and three of priority, on either host. Values too
        wide for their field are cut. */
    method PackVlanHdr(order: ByteOrder, id: uint16, dei: uint16, pri: uint16, proto: uint16)
      modifies this
      ensures ParseVlan(Image(order)) == VlanTag(pri % 8, dei % 2, id % 0x1000, proto)
    {
      hide Store16, Htons, ParseVlan;
      BitFields(tci, id, dei, pri);
      tci := tci / 0x1000 * 0x1000 + id % 0x1000;
      tci := tci / 0x2000 * 0x2000 + dei % 2 * 0x1000 + tci % 0x1000;
      tci := pri % 8 * 0x2000 + tci % 0x2000;
      ParseStoredTag(order, pri % 8, dei % 2, id % 0x1000, tci, proto);
      tci := Htons(order, tci);
      protoType := Htons(order, proto);
    }
  }
}
