/**
 The scan of src/arp_scan.c: the addresses it goes through and the requests it
 sends to each. Addresses are 32-bit words as they lie in memory, in network
 order; what number such a word is depends on the host's byte order.
 */
module ArpScan {
  import opened Bytes
  import opened BitOps

  // Masks and addresses

  /** 1U << k. */
  function Shifted(k: nat): uint32
    requires k < 32
  {
    ShiftFits(k);
    Pow2(k)
  }

  lemma ShiftFits(k: nat)
    requires k < 32
    ensures Pow2(k) < 0x1_0000_0000
  {
    assert Pow2(32 - k) >= 2;
    hide Pow2;
    Powers();
    PowerSum(k, 32 - k);
    FactorBelow(Pow2(k), Pow2(32 - k), 0x1_0000_0000);
  }

  lemma FactorBelow(a: nat, b: nat, n: nat)
    requires a > 0 && b >= 2 && a * b == n
    ensures a < n
  {
    assert a * b == a * 2 + a * (b - 2);
  }

  /** A prefix length is 1 to 32; a shift by 32 is undefined. */
  function CreateMask(n: nat): uint32
    requires 1 <= n <= 32
  {
    Not32(Shifted(32 - n) - 1)
  }

  /** The number of an address: what ntohl makes of it. */
  function Number(order: ByteOrder, address: uint32): uint32 {
    Htonl(order, address)
  }

  /** How many addresses a network with this prefix length has. */
  function Size(n: nat): (size: nat)
    requires n <= 32
    ensures size > 0
  {
    Pow2(32 - n)
  }

  /** The number of the network address. */
  function NetworkNumber(order: ByteOrder, src: uint32, n: nat): nat
    requires n <= 32
  {
    RoundedDown(Number(order, src), Size(n))
  }

  /** An address with the same first n bits, other than the network and the
      broadcast address. */
  predicate IsHost(order: ByteOrder, src: uint32, n: nat, address: uint32)
    requires n <= 32
  {
    && Number(order, address) / Size(n) == Number(order, src) / Size(n)
    && Number(order, address) % Size(n) != 0 && Number(order, address) % Size(n) != Size(n) - 1
  }

  /** What src_ip & subnet_mask is as a number. */
  lemma NetworkAddress(order: ByteOrder, src: uint32, n: nat)
    requires 1 <= n <= 32
    ensures Number(order, Bitwise32(And, src, Htonl(order, CreateMask(n)))) == NetworkNumber(order, src, n)
  {
    hide Bitwise, Htonl, RoundedDown, Pow2;
    var mask := CreateMask(n);
    HtonlBits(order, And, src, Htonl(order, mask));
    NetworkStore32(order, mask);
    Powers();
    MaskedNumber(Number(order, src), n, 32 - n);
  }

  /** What ~subnet_mask is as a number. */
  lemma HostMask(order: ByteOrder, n: nat)
    requires 1 <= n <= 32
    ensures Htonl(order, Not32(Htonl(order, CreateMask(n)))) == Size(n) - 1
  {
    HtonlNot(order, Htonl(order, CreateMask(n)));
    NetworkStore32(order, CreateMask(n));
  }

  /** What network_ip | htonl(i) is as a number. */
  lemma TargetAddress(order: ByteOrder, network: uint32, i: uint32, src: uint32, n: nat)
    requires 1 <= n <= 32 && Number(order, network) == NetworkNumber(order, src, n) && i < Size(n)
    ensures Number(order, Bitwise32(Or, network, Htonl(order, i))) == NetworkNumber(order, src, n) + i
  {
    hide Bitwise, Htonl, Pow2;
    HtonlBits(order, Or, network, Htonl(order, i));
    NetworkStore32(order, i);
    Powers();
    PowerSum(n, 32 - n);
    QuotientBelow(Number(order, src), Size(n), Pow2(n));
    DivMod(Number(order, src), Size(n));
    OrBelow(Number(order, src) / Size(n), i, n, 32 - n);
  }

  // Requests and replies

  type Mac = seq<byte>

  datatype Message = Message(opcode: uint16, senderMac: Mac, senderIp: uint32, targetMac: Mac, targetIp: uint32)

  /** What one recvfrom comes to. */
  datatype Received = Timeout | Failed | Got(msg: Message)

  datatype Itf = Itf(v4: uint32, mac: Mac)

  const ARPOP_REPLY: uint16 := 2
  const RETRIES: nat := 3

  predicate IsReply(order: ByteOrder, itf: Itf, target: uint32, r: Received) {
    && r.Got? && r.msg.opcode == Htons(order, ARPOP_REPLY)
    && r.msg.targetIp == itf.v4 && r.msg.targetMac == itf.mac && r.msg.senderIp == target
  }

  datatype Answer = NoAnswer | From(mac: Mac)

  /** One host: the requests sent to it and who answered. */
  datatype Probe = Probe(target: uint32, requests: nat, answer: Answer)

  /** At most three requests, none after the first matching reply; who answered
      is the sender of that reply. */
  predicate IsProbe(order: ByteOrder, itf: Itf, recv: (uint32, nat) -> Received, p: Probe) {
    && 1 <= p.requests <= RETRIES
    && (forall j | 0 <= j < p.requests - 1 :: !IsReply(order, itf, p.target, recv(p.target, j)))
    && var last := recv(p.target, p.requests - 1);
       if IsReply(order, itf, p.target, last) then p.answer == From(last.msg.senderMac)
       else p.answer == NoAnswer && p.requests == RETRIES
  }

  /** What was received settles how a host is probed. */
  lemma ProbeIsUnique(order: ByteOrder, itf: Itf, recv: (uint32, nat) -> Received, p: Probe, q: Probe)
    requires IsProbe(order, itf, recv, p) && IsProbe(order, itf, recv, q) && p.target == q.target
    ensures p == q
  {
    var j: nat, k: nat := p.requests - 1, q.requests - 1;
    assert j < k ==> !IsReply(order, itf, p.target, recv(p.target, j));
    assert k < j ==> !IsReply(order, itf, p.target, recv(p.target, k));
  }

  /** The opcode of a reply lies in memory as the bytes 0 and 2 on either host. */
  lemma ReplyOpcode(order: ByteOrder, opcode: uint16)
    ensures opcode == Htons(order, ARPOP_REPLY) <==> Store16(order, opcode) == [0, 2]
  {
    assert Store16(BigEndian, ARPOP_REPLY) == [0, 2];
    hide Store16, Htons, Load16;
    NetworkStore16(order, ARPOP_REPLY);
    LoadStore16(order, opcode);
    LoadStore16(order, Htons(order, ARPOP_REPLY));
  }

  /** What the conditions of the source come to in a message as it arrives. */
  lemma RepliesAre(order: ByteOrder, itf: Itf, target: uint32, r: Received)
    ensures IsReply(order, itf, target, r) <==>
      && r.Got? && Store16(order, r.msg.opcode) == [0, 2]
      && r.msg.senderIp == target && r.msg.targetIp == itf.v4 && r.msg.targetMac == itf.mac
  {
    if r.Got? {
      ReplyOpcode(order, r.msg.opcode);
    }
  }

  /** The retry loop. A reply to the first request from the target to this
      interface ends it; three messages that each differ from one, whatever the
      field, or that do not arrive, are no answer. */
  method ProbeHost(order: ByteOrder, itf: Itf, recv: (uint32, nat) -> Received, target: uint32) returns (p: Probe)
    ensures p.target == target && IsProbe(order, itf, recv, p)
    ensures var r := recv(target, 0);
      && r.Got? && Store16(order, r.msg.opcode) == [0, 2]
      && r.msg.senderIp == target && r.msg.targetIp == itf.v4 && r.msg.targetMac == itf.mac
      ==> p == Probe(target, 1, From(r.msg.senderMac))
    ensures (forall j: nat | j < 3 && recv(target, j).Got? :: var m := recv(target, j).msg;
      Store16(order, m.opcode) != [0, 2] || m.senderIp != target || m.targetIp != itf.v4 || m.targetMac != itf.mac)
      ==> p == Probe(target, 3, NoAnswer)
  {
    forall j: nat {
      RepliesAre(order, itf, target, recv(target, j));
    }
    hide IsReply, Store16, Htons;
    var j := 0;
    while j < RETRIES
      invariant j <= RETRIES
      invariant forall k | 0 <= k < j :: !IsReply(order, itf, target, recv(target, k))
    {
      var r := recv(target, j);
      if IsReply(order, itf, target, r) {
        return Probe(target, j + 1, From(r.msg.senderMac));
      }
      j := j + 1;
    }
    p := Probe(target, RETRIES, NoAnswer);
  }

  function Targets(log: seq<Probe>): (t: seq<uint32>)
    ensures |t| == |log|
  {
    seq(|log|, k requires 0 <= k < |log| => log[k].target)
  }

  /** The addresses between the network and the broadcast address, in order. */
  predicate InOrder(order: ByteOrder, src: uint32, n: nat, targets: seq<uint32>)
    requires n <= 32
  {
    && |targets| == (if Size(n) <= 2 then 0 else Size(n) - 2)
    && forall k | 0 <= k < |targets| :: Number(order, targets[k]) == NetworkNumber(order, src, n) + 1 + k
  }

  /** The scan loop. */
  method Scan(order: ByteOrder, itf: Itf, src: uint32, n: nat, recv: (uint32, nat) -> Received)
    returns (log: seq<Probe>)
    requires 1 <= n <= 32
    ensures forall k | 0 <= k < |log| :: IsProbe(order, itf, recv, log[k])
    ensures InOrder(order, src, n, Targets(log))
  {
    hide CreateMask, Size, NetworkNumber, Number, Htonl, Bitwise32, Not32, IsProbe;
    var subnetMask := Htonl(order, CreateMask(n));
    var networkIp := Bitwise32(And, src, subnetMask);
    var hostNum := Not32(subnetMask);
    NetworkAddress(order, src, n);
    HostMask(order, n);
    log := [];
    var i := 1;
    while i < Htonl(order, hostNum)
      invariant i == |log| + 1 && (|log| == 0 || i < Size(n))
      invariant forall k | 0 <= k < |log| :: IsProbe(order, itf, recv, log[k])
      invariant forall k | 0 <= k < |log| :: Number(order, log[k].target) == NetworkNumber(order, src, n) + 1 + k
    {
      var target := Bitwise32(Or, networkIp, Htonl(order, i));
      TargetAddress(order, networkIp, i, src, n);
      var p := ProbeHost(order, itf, recv, target);
      log := log + [p];
      i := i + 1;
    }
  }

  /** The scan visits exactly the network's host addresses, each once and in
      ascending order, on a host of either byte order. */
  lemma ScanCovers(order: ByteOrder, src: uint32, n: nat, targets: seq<uint32>, address: uint32)
    requires 1 <= n <= 32 && InOrder(order, src, n, targets)
    ensures address in targets <==> IsHost(order, src, n, address)
    ensures forall j, k | 0 <= j < k < |targets| :: Number(order, targets[j]) < Number(order, targets[k])
  {
    hide Size, Number;
    var a, v, size := Number(order, src), Number(order, address), Size(n);
    DivMod(a, size);
    DivMod(v, size);
    if address in targets {
      var k :| 0 <= k < |targets| && targets[k] == address;
      PartsOf(v, a / size, k + 1, size);
    }
    if IsHost(order, src, n, address) {
      var k := v % size - 1;
      assert Number(order, targets[k]) == v;
      SameNumber(order, targets[k], address);
    }
  }

  lemma PartsOf(v: nat, q: nat, r: nat, size: nat)
    requires size > 0 && r < size && v == q * size + r
    ensures v / size == q && v % size == r
  {
    DivMod(v, size);
    var d := v / size;
    assert (d - q) * size == r - v % size;
    Cancel(size, d - q, 1);
    Cancel(size, -1, d - q);
  }

  lemma SameNumber(order: ByteOrder, a: uint32, b: uint32)
    requires Number(order, a) == Number(order, b)
    ensures a == b
  {
    NetworkStore32(order, a);
    NetworkStore32(order, b);
  }
}
