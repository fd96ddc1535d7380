/**
 The frame that src/send_vlan.c builds: four pushes, three packed headers and
 a payload, sent as the used part of the buffer.
 */
module SendVlan {
  import opened Bytes
  import opened InternetChecksum
  import opened Headers
  import opened PacketBuff

  const ETH_TYPE_8021Q: uint16 := 0x8100
  const ETH_TYPE_IPV4: uint16 := 0x0800

  method PackEther(order: ByteOrder, dst: seq<byte>, source: seq<byte>) returns (e: seq<byte>)
    requires |dst| == |source| == 6
    ensures |e| == 14 && e[..6] == dst && e[6..12] == source && Word(e[12], e[13]) == 0x8100
  {
    var eth := new EtherHdr();
    eth.PackEtherHdr(order, dst, source, ETH_TYPE_8021Q);
    e := eth.Image(order);
  }

  method PackVlan(order: ByteOrder) returns (v: seq<byte>)
    ensures |v| == 4 && ParseVlan(v) == VlanTag(7, 0, 100, 0x0800)
  {
    var vlan := new VlanHdr();
    vlan.PackVlanHdr(order, 100, 0, 7, ETH_TYPE_IPV4);
    v := vlan.Image(order);
  }

  method PackIpv4(order: ByteOrder, sip: uint32, dip: uint32, dataLen: uint16, pid: nat)
    returns (i: seq<byte>, checksum: uint16)
    ensures |i| == 20 && SentHeader(order, i, sip, dip, dataLen, pid, checksum)
  {
    hide Ipv4Packed, ChecksumOf, ParseIpv4, SentHeader, Mod16;
    var ipv4 := new Ipv4Hdr();
    ipv4.PackIpv4Hdr(order, sip, dip, 40, dataLen, pid);
    i := ipv4.Image(order);
    checksum := ipv4.checksum;
    ParsePacked(order, 5, Mod16(20 + dataLen), Mod16(pid), DF, 40, checksum, sip, dip);
    SentFields(order, i, sip, dip, dataLen, pid, checksum);
  }

  lemma SentFields(order: ByteOrder, i: seq<byte>, sip: uint32, dip: uint32, dataLen: uint16, pid: nat,
                   checksum: uint16)
    ensures |i| == 20
      && ParseIpv4(i) == Ipv4Fields(5, Mod16(20 + dataLen), Mod16(pid), DF, 40, Htons(order, checksum),
                                    Store32(order, sip), Store32(order, dip))
      && (ChecksumOf(i) == 0 <==> order == BigEndian || checksum / 0x100 == checksum % 0x100)
      ==> SentHeader(order, i, sip, dip, dataLen, pid, checksum)
  {
    hide ChecksumOf, ParseIpv4, Htons, Store32;
  }

  /** The header that pack_ipv4_hdr sends, with the checksum as it was stored. */
  ghost predicate SentHeader(order: ByteOrder, i: seq<byte>, sip: uint32, dip: uint32, dataLen: uint16, pid: nat,
                             checksum: uint16)
  {
    && |i| == 20
    && ParseIpv4(i) == Ipv4(4, 5, 0, (20 + dataLen) % 0x1_0000, pid % 0x1_0000, 2, 0, 64, 40, Htons(order, checksum),
                            Store32(order, sip), Store32(order, dip))
    && (ChecksumOf(i) == 0 <==> order == BigEndian || checksum / 0x100 == checksum % 0x100)
  }

  /** The parts a receiver finds in the frame. */
  ghost predicate DecodesTo(order: ByteOrder, frame: seq<byte>, smac: seq<byte>, dmac: seq<byte>,
                            sip: uint32, dip: uint32, pid: nat, payload: seq<byte>, checksum: uint16)
    requires |payload| < 0xFFFF
  {
    && |frame| == 38 + |payload| && frame[38..] == payload
    && frame[..6] == smac && frame[6..12] == dmac && Word(frame[12], frame[13]) == 0x8100
    && ParseVlan(frame[14..18]) == VlanTag(7, 0, 100, 0x0800)
    && SentHeader(order, frame[18..38], sip, dip, |payload|, pid, checksum)
  }

  lemma Parts(e: seq<byte>, v: seq<byte>, i: seq<byte>, d: seq<byte>)
    requires |e| == 14 && |v| == 4 && |i| == 20
    ensures var f := e + v + i + d;
      && |f| == 38 + |d| && f[38..] == d && f[14..18] == v && f[18..38] == i
      && f[..6] == e[..6] && f[6..12] == e[6..12] && f[12] == e[12] && f[13] == e[13]
  {
  }

  lemma FrameDecodes(order: ByteOrder, e: seq<byte>, v: seq<byte>, i: seq<byte>, smac: seq<byte>, dmac: seq<byte>,
                     sip: uint32, dip: uint32, pid: nat, payload: seq<byte>, checksum: uint16)
    requires |payload| < 0xFFFF
    requires |e| == 14 && e[..6] == smac && e[6..12] == dmac && Word(e[12], e[13]) == 0x8100
    requires |v| == 4 && ParseVlan(v) == VlanTag(7, 0, 100, 0x0800)
    requires |i| == 20 && SentHeader(order, i, sip, dip, |payload|, pid, checksum)
    ensures DecodesTo(order, e + v + i + payload, smac, dmac, sip, dip, pid, payload, checksum)
  {
    Parts(e, v, i, payload);
  }

  /** The stores through the four pointers, first to last. */
  method Fill(pktb: PacketBuffer, e: seq<byte>, v: seq<byte>, i: seq<byte>, payload: seq<byte>)
    requires pktb.Valid() && |e| + |v| + |i| + |payload| == pktb.data.Length
    modifies pktb.data
    ensures pktb.Valid() && pktb.data[..] == e + v + i + payload
  {
    pktb.Write(0, e);
    pktb.Write(|e|, v);
    assert pktb.data[..|e| + |v|] == e + v;
    pktb.Write(|e| + |v|, i);
    assert pktb.data[..|e| + |v| + |i|] == e + v + i;
    pktb.Write(|e| + |v| + |i|, payload);
    assert pktb.data[..pktb.data.Length] == pktb.data[..];
  }

  /** Four pushes take the whole buffer. */
  method Allocate(len: nat) returns (pktb: PacketBuffer)
    requires 38 + len < UINT32
    ensures fresh(pktb) && fresh(pktb.data) && pktb.Valid()
    ensures pktb.dataLen == pktb.data.Length == 38 + len
    ensures pktb.regions == [Region(0, 14), Region(14, 4), Region(18, 20), Region(38, len)]
  {
    hide Tiles;
    pktb := new PacketBuffer(14 + 4 + 20 + len);
    var eth := pktb.Push(14);
    var vlan := pktb.Push(4);
    var ipv4 := pktb.Push(20);
    var p := pktb.Push(len);
    pktb.LengthIsExact();
  }

  /** The frame sent is the four parts in push order, and each header decodes to
      what was packed. */
  method BuildFrame(order: ByteOrder, smac: seq<byte>, dmac: seq<byte>, sip: uint32, dip: uint32, pid: nat,
                    payload: seq<byte>) returns (frame: seq<byte>, checksum: uint16)
    requires |smac| == |dmac| == 6 && |payload| < 0xFFFF
    ensures DecodesTo(order, frame, smac, dmac, sip, dip, pid, payload, checksum)
  {
    var pktb := Allocate(|payload|);
    var e := PackEther(order, smac, dmac);
    var v := PackVlan(order);
    var i;
    i, checksum := PackIpv4(order, sip, dip, |payload|, pid);
    Fill(pktb, e, v, i, payload);
    frame := pktb.data[..pktb.dataLen];
    assert frame == e + v + i + payload;
    FrameDecodes(order, e, v, i, smac, dmac, sip, dip, pid, payload, checksum);
  }
}
