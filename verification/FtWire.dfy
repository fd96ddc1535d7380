/**
 The messages of the file-transfer program in src/ft: what client and server
 write into their buffers and what the other side reads out of them. Client
 and server may run on hosts of different byte order.
 */
module FtWire {
  import opened Bytes

  const BUF_SIZE: nat := 1024

  const DATA: byte := 0
  const LS: byte := 1
  const PWD: byte := 2
  const CD: byte := 3
  const GET: byte := 4
  const PUT: byte := 5
  const END: byte := 127
  /** (char)-1 */
  const ERROR: byte := 255

  const UINT32: nat := 0x1_0000_0000

  type uint64 = x: int | 0 <= x < 0x1_0000_0000_0000_0000

  // An 8-byte long in memory

  function Zeroes(n: nat): (z: seq<byte>)
    ensures |z| == n && forall i | 0 <= i < n :: z[i] == 0
  {
    seq(n, _ => 0)
  }

  /** A size cut to 32 bits. */
  function Size32(n: nat): uint32 {
    n % UINT32
  }

  /** The long a host stores for a 32-bit value. */
  function StoreLong(order: ByteOrder, v: uint32): (s: seq<byte>)
    ensures |s| == 8
  {
    if order == BigEndian then Zeroes(4) + Store32(order, v) else Store32(order, v) + Zeroes(4)
  }

  /** The half of a long that survives conversion to 32 bits. */
  function LowHalf(order: ByteOrder, s: seq<byte>): (h: seq<byte>)
    requires |s| == 8
    ensures |h| == 4
  {
    if order == BigEndian then s[4..] else s[..4]
  }

  // Sizes on the wire

  /** cmd_put: the converted size, widened to a long. */
  function PutSizeField(client: ByteOrder, n: uint32): (s: seq<byte>)
    ensures |s| == 8
  {
    StoreLong(client, Htonl(client, n))
  }

  /** response_get: the converted size in the first four of eight zeroed bytes. */
  function GetSizeField(server: ByteOrder, n: uint32): (s: seq<byte>)
    ensures |s| == 8
  {
    Store32(server, Htonl(server, n)) + Zeroes(4)
  }

  /** Both receivers: ntohl of a long. */
  function ReadSize(order: ByteOrder, s: seq<byte>): uint32
    requires |s| == 8
  {
    Htonl(order, Load32(order, LowHalf(order, s)))
  }

  /** A converted 32-bit read is the big-endian number in memory, on any host. */
  lemma NetworkLoad32(order: ByteOrder, s: seq<byte>)
    requires |s| == 4
    ensures Htonl(order, Load32(order, s)) == Load32(BigEndian, s)
  {
    WordHalves(s[1], s[0]);
    WordHalves(s[3], s[2]);
    DoubleWordHalves(Word(s[3], s[2]), Word(s[1], s[0]));
  }

  lemma LoadZeroes(s: seq<byte>)
    requires |s| == 4 && s[0] == s[1] == s[2] == s[3] == 0
    ensures Load32(BigEndian, s) == 0
  {
  }

  lemma ReadField(order: ByteOrder, s: seq<byte>, used: seq<byte>, n: uint32)
    requires |s| == 8 && used == LowHalf(order, s)
    requires used == Store32(BigEndian, n)
    ensures ReadSize(order, s) == n
  {
    NetworkLoad32(order, used);
    LoadStore32(BigEndian, n);
  }

  lemma ReadZeroField(order: ByteOrder, s: seq<byte>)
    requires |s| == 8 && LowHalf(order, s) == Zeroes(4)
    ensures ReadSize(order, s) == 0
  {
    NetworkLoad32(order, Zeroes(4));
    LoadZeroes(Zeroes(4));
  }

  lemma PutFieldLow(client: ByteOrder, server: ByteOrder, n: uint32)
    ensures LowHalf(server, PutSizeField(client, n)) == if client == server then Store32(BigEndian, n) else Zeroes(4)
  {
    NetworkStore32(client, n);
  }

  lemma GetFieldLow(client: ByteOrder, server: ByteOrder, n: uint32)
    ensures LowHalf(client, GetSizeField(server, n))
         == if client == LittleEndian then Store32(BigEndian, n) else Zeroes(4)
  {
    NetworkStore32(server, n);
  }

  /** A put request carries its size when both hosts have the same byte order;
      otherwise the server reads 0. */
  lemma PutSizeAcross(client: ByteOrder, server: ByteOrder, n: uint32)
    ensures ReadSize(server, PutSizeField(client, n)) == if client == server then n else 0
  {
    PutFieldLow(client, server, n);
    if client == server {
      ReadField(server, PutSizeField(client, n), Store32(BigEndian, n), n);
    } else {
      ReadZeroField(server, PutSizeField(client, n));
    }
  }

  /** A get reply carries its size to a little-endian client, whatever the
      server is; a big-endian client reads 0. */
  lemma GetSizeAcross(client: ByteOrder, server: ByteOrder, n: uint32)
    ensures ReadSize(client, GetSizeField(server, n)) == if client == LittleEndian then n else 0
  {
    GetFieldLow(client, server, n);
    if client == LittleEndian {
      ReadField(client, GetSizeField(server, n), Store32(BigEndian, n), n);
    } else {
      ReadZeroField(client, GetSizeField(server, n));
    }
  }

  // Requests

  /** A C string usable as one strtok word. */
  predicate IsWord(name: seq<byte>) {
    name != [] && forall i | 0 <= i < |name| :: name[i] != 0 && name[i] != 32
  }

  /** The word that strtok(args, " ") finds in a zero-terminated buffer. */
  function FirstWord(args: seq<byte>): seq<byte> {
    if args != [] && args[0] == 32 then FirstWord(args[1..]) else UpToBlank(args)
  }

  function UpToBlank(args: seq<byte>): seq<byte> {
    if args == [] || args[0] == 0 || args[0] == 32 then [] else [args[0]] + UpToBlank(args[1..])
  }

  lemma {:induction false} UpToBlankOfWord(name: seq<byte>, rest: seq<byte>)
    requires forall i | 0 <= i < |name| :: name[i] != 0 && name[i] != 32
    requires rest != [] ==> rest[0] == 0
    ensures UpToBlank(name + rest) == name
  {
    if name == [] {
      assert name + rest == rest;
    } else {
      assert (name + rest)[1..] == name[1..] + rest;
      UpToBlankOfWord(name[1..], rest);
    }
  }

  /** What a C program reads from here on: everything before the first zero. */
  function CString(b: seq<byte>): seq<byte> {
    if b == [] || b[0] == 0 then [] else [b[0]] + CString(b[1..])
  }

  lemma {:induction false} CStringOf(s: seq<byte>, rest: seq<byte>)
    requires 0 !in s && (rest == [] || rest[0] == 0)
    ensures CString(s + rest) == s
  {
    if s == [] {
      assert s + rest == rest;
    } else {
      assert (s + rest)[1..] == s[1..] + rest;
      CStringOf(s[1..], rest);
    }
  }

  /** ls, cd and get requests: kind and argument in a zeroed buffer. */
  function PaddedRequest(kind: byte, args: seq<byte>): (r: seq<byte>)
    requires |args| < BUF_SIZE
    ensures |r| == BUF_SIZE && r[0] == kind
  {
    [kind] + args + Zeroes(BUF_SIZE - 1 - |args|)
  }

  /** The server finds the file name the client put into a get request. */
  lemma GetNameRoundTrip(name: seq<byte>)
    requires IsWord(name) && |name| < BUF_SIZE
    ensures FirstWord(PaddedRequest(GET, name)[1..]) == name
  {
    var zs := Zeroes(BUF_SIZE - 1 - |name|);
    assert PaddedRequest(GET, name)[1..] == name + zs;
    UpToBlankOfWord(name, zs);
  }

  /** The path that ls and cd go to: the first word, or "." without arguments. */
  function PathOf(args: seq<byte>): seq<byte> {
    if args == [] || args[0] == 0 then [46] else FirstWord(args)
  }

  /** The server goes to the path that the client was given, or to ".". */
  lemma PathAcross(kind: byte, path: seq<byte>)
    requires |path| < BUF_SIZE && (IsWord(path) || path == [])
    ensures PathOf(PaddedRequest(kind, path)[1..]) == if path == [] then [46] else path
  {
    var zs := Zeroes(BUF_SIZE - 1 - |path|);
    assert PaddedRequest(kind, path)[1..] == path + zs;
    UpToBlankOfWord(path, zs);
  }

  const PUT_FIXED: nat := 13

  /** put request: kind, 8-byte size, 4-byte name length, name. */
  function PutHeader(client: ByteOrder, fsize: uint32, name: seq<byte>): (r: seq<byte>)
    requires |name| < UINT32
    ensures |r| == PUT_FIXED + |name| && r[0] == PUT
  {
    [PUT] + PutSizeField(client, fsize) + Store32(client, Htonl(client, |name|)) + name
  }

  /** The size is the four bytes of its 32-bit value, highest first, in the half
      of the field that the client's order puts it. */
  lemma PutHeaderBytes(client: ByteOrder, fsize: uint32, name: seq<byte>)
    requires |name| < UINT32
    ensures var r := PutHeader(client, fsize, name);
      && |r| == 13 + |name| && r[0] == 5 && r[13..] == name && Load32(BigEndian, r[9..13]) == |name|
      && (client == LittleEndian ==> Load32(BigEndian, r[1..5]) == fsize && r[5..9] == [0, 0, 0, 0])
      && (client == BigEndian ==> r[1..5] == [0, 0, 0, 0] && Load32(BigEndian, r[5..9]) == fsize)
  {
    var f, l := PutSizeField(client, fsize), Store32(client, Htonl(client, |name|));
    PutParts(f, l, name, []);
    assert [PUT] + f + l + name + [] == PutHeader(client, fsize, name);
    hide Load32, Store32, Htonl, PutHeader;
    NetworkStore32(client, fsize);
    NetworkStore32(client, |name|);
    LoadStore32(BigEndian, fsize);
    LoadStore32(BigEndian, |name|);
    assert PutHeader(client, fsize, name)[1..5] == f[..4] && PutHeader(client, fsize, name)[5..9] == f[4..];
  }

  /** What the server reads out of the first bytes of a put request. */
  function PutSize(server: ByteOrder, b: seq<byte>): uint32
    requires |b| >= PUT_FIXED
  {
    ReadSize(server, b[1..9])
  }

  function PutNameLength(server: ByteOrder, b: seq<byte>): uint32
    requires |b| >= PUT_FIXED
  {
    Htonl(server, Load32(server, b[9..13]))
  }

  /** The size of a put as the server reads it. */
  function PutAnnounced(client: ByteOrder, server: ByteOrder, size: nat): uint32 {
    if client == server then Size32(size) else 0
  }

  /** A request that came in one piece with whatever followed it decodes to the
      announced size and to the name the client meant, between any two hosts. */
  lemma PutRoundTrip(client: ByteOrder, server: ByteOrder, fsize: uint32, name: seq<byte>, rest: seq<byte>)
    requires |name| < UINT32
    ensures var b := PutHeader(client, fsize, name) + rest;
      && PutSize(server, b) == (if client == server then fsize else 0) && PutNameLength(server, b) == |name|
      && b[PUT_FIXED..PUT_FIXED + |name|] == name && b[PUT_FIXED + |name|..] == rest
  {
    var f, l := PutSizeField(client, fsize), Store32(client, Htonl(client, |name|));
    hide PutSizeField, ReadSize, Store32, Htonl, Load32;
    PutParts(f, l, name, rest);
    PutSizeAcross(client, server, fsize);
    LengthAcross(client, server, |name|);
  }

  lemma PutParts(f: seq<byte>, l: seq<byte>, name: seq<byte>, rest: seq<byte>)
    requires |f| == 8 && |l| == 4
    ensures var b := [PUT] + f + l + name + rest;
      && b[1..9] == f && b[9..13] == l
      && b[PUT_FIXED..PUT_FIXED + |name|] == name && b[PUT_FIXED + |name|..] == rest
  {
  }

  /** A converted 32-bit field is read as it was meant between any two hosts. */
  lemma LengthAcross(client: ByteOrder, server: ByteOrder, n: uint32)
    ensures Htonl(server, Load32(server, Store32(client, Htonl(client, n)))) == n
  {
    hide Store32, Htonl, Load32;
    NetworkStore32(client, n);
    NetworkLoad32(server, Store32(client, Htonl(client, n)));
    LoadStore32(BigEndian, n);
  }

  // Replies

  const GET_FIXED: nat := 9

  function GetHeader(server: ByteOrder, fsize: uint32): (r: seq<byte>)
    ensures |r| == GET_FIXED && r[0] == DATA
  {
    [DATA] + GetSizeField(server, fsize)
  }

  function GetSize(client: ByteOrder, b: seq<byte>): uint32
    requires |b| >= GET_FIXED
  {
    ReadSize(client, b[1..9])
  }

  /** The size of a get as the client reads it. */
  function GetAnnounced(client: ByteOrder, size: nat): uint32 {
    if client == LittleEndian then Size32(size) else 0
  }

  lemma GetRoundTrip(client: ByteOrder, server: ByteOrder, fsize: uint32, rest: seq<byte>)
    ensures GetSize(client, GetHeader(server, fsize) + rest) == if client == LittleEndian then fsize else 0
  {
    assert (GetHeader(server, fsize) + rest)[1..9] == GetSizeField(server, fsize);
    GetSizeAcross(client, server, fsize);
  }

  /** What a reply body prints as: everything before the first END. */
  function BeforeEnd(s: seq<byte>): seq<byte> {
    if s == [] || s[0] == END then [] else [s[0]] + BeforeEnd(s[1..])
  }

  lemma {:induction false} BeforeEndOf(body: seq<byte>, rest: seq<byte>)
    requires END !in body
    ensures BeforeEnd(body + [END] + rest) == body
    ensures BeforeEnd(body) == body
  {
    var s := body + [END] + rest;
    if body != [] {
      assert s[1..] == body[1..] + [END] + rest;
      BeforeEndOf(body[1..], rest);
    } else {
      assert s[0] == END;
    }
  }
}
