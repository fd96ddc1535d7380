/**
 A whole session of src/ft: one client and one server, each on a host of either
 byte order, joined by two byte channels. A send puts any non-empty part of what
 is still to be sent into a channel; a receive takes any non-empty prefix of at
 most 1024 bytes out of one. Runs interleave both sides in any order.

 The abstract session executes each command in one indivisible step. A command
 fits if the size that the receiver reads is the number of bytes that are sent,
 or its text holds no END byte; runs of fitting commands are shown to refine the
 abstract session, and a command is shown to leave the two sides in step if and
 only if it fits.
 */
module FtSession {
  import opened Bytes
  import opened FtWire

  datatype Hosts = Hosts(client: ByteOrder, server: ByteOrder)

  type Name = seq<byte>
  /** What can be opened under each name, with the bytes that can be read: none
      of a directory. */
  type Files = map<Name, seq<byte>>

  const NEWLINE: byte := 10

  /** For put, with the size that get_file_size finds, which need not be the
      number of bytes that can be read: a directory has a size and no bytes. */
  datatype Command =
    | List(args: seq<byte>)
    | PrintDir
    | ChangeDir(args: seq<byte>)
    | Get(name: Name)
    | Put(name: Name, size: nat)

  datatype Client =
    | Prompt
    | Printing
    | AwaitHead(name: Name)
    | Downloading(name: Name, size: nat, got: nat)
    | Uploading(name: Name, size: nat, unsent: seq<byte>)

  datatype Server =
    | Idle
    | Sending(out: seq<byte>)
    | Storing(name: Name, size: nat, got: nat)

  datatype State = State(client: Client, server: Server, c2s: seq<byte>, s2c: seq<byte>,
                         clientFiles: Files, serverFiles: Files, screen: seq<byte>)

  /** What the server decides when it takes a request: the text of a listing or
      a path, whether a file can be read and with what size, or that it will
      store a file. */
  datatype Reply =
    | Text(body: seq<byte>)
    | Failure(message: seq<byte>)
    | Contents(size: nat, file: seq<byte>)
    | Accepted

  datatype Label =
    | Issue(cmd: Command)
    | ServerTakes(k: nat, reply: Reply)
    | ServerSends(k: nat)
    | ServerStores(k: nat)
    | ClientSends(k: nat)
    | ClientPrints(k: nat)
    | ClientHead(k: nat)
    | ClientBody(k: nat)
    | ClientGetsEnd

  // The two programs

  predicate CanRecv(channel: seq<byte>, k: nat) {
    1 <= k <= BUF_SIZE && k <= |channel|
  }

  /** strncpy into a buffer after its first byte. */
  function Fitting(args: seq<byte>): (r: seq<byte>)
    ensures |r| < BUF_SIZE
  {
    if |args| < BUF_SIZE then args else args[..BUF_SIZE - 1]
  }

  /** What the client's commands may be given: the file to put exists, and a name
      is one word that fits the buffers. */
  predicate Sendable(s: State, cmd: Command) {
    match cmd
    case Get(name) => IsWord(name) && |name| + 2 <= BUF_SIZE
    case Put(name, _) => IsWord(name) && |name| < 256 && name in s.clientFiles
    case _ => true
  }

  /** ls, pwd and cd can be given at any time, get for a word of up to 1022 bytes,
      put for one of up to 255 bytes that names a file. */
  lemma WhatCanBeSent(s: State, args: seq<byte>, size: nat)
    ensures Sendable(s, List(args)) && Sendable(s, PrintDir) && Sendable(s, ChangeDir(args))
    ensures Sendable(s, Get(args)) <==> 1 <= |args| <= 1022 && forall i | 0 <= i < |args| :: args[i] !in {0, 32}
    ensures Sendable(s, Put(args, size)) <==>
      args in s.clientFiles && 1 <= |args| <= 255 && forall i | 0 <= i < |args| :: args[i] !in {0, 32}
  {
  }

  function Request(h: Hosts, s: State, cmd: Command): (r: seq<byte>)
    requires Sendable(s, cmd)
  {
    match cmd
    case List(args) => PaddedRequest(LS, Fitting(args))
    case PrintDir => [PWD]
    case ChangeDir(args) => PaddedRequest(CD, Fitting(args))
    case Get(name) => PaddedRequest(GET, name)
    case Put(name, size) => PutHeader(h.client, Size32(size), name)
  }

  /** The bytes of every request. A size is the four bytes of its 32-bit value,
      highest first, in the half of the field that the client's order puts it. */
  lemma RequestBytes(h: Hosts, s: State, cmd: Command)
    requires Sendable(s, cmd)
    ensures var r := Request(h, s, cmd);
      match cmd
      case List(args) => IsPadded(r, 1, args)
      case PrintDir => r == [2]
      case ChangeDir(args) => IsPadded(r, 3, args)
      case Get(name) => IsPadded(r, 4, name)
      case Put(name, size) =>
        && |r| == 13 + |name| && r[0] == 5 && r[13..] == name && Load32(BigEndian, r[9..13]) == |name|
        && (h.client == LittleEndian ==> Load32(BigEndian, r[1..5]) == size % UINT32 && r[5..9] == [0, 0, 0, 0])
        && (h.client == BigEndian ==> r[1..5] == [0, 0, 0, 0] && Load32(BigEndian, r[5..9]) == size % UINT32)
    ensures s.client.Prompt? ==> Step(h, s, Issue(cmd)).c2s == s.c2s + Request(h, s, cmd)
  {
    hide Fitting, PaddedRequest, PutHeader, IsPadded, Load32;
    match cmd
    case List(args) => PaddedIsPadded(1, args);
    case ChangeDir(args) => PaddedIsPadded(3, args);
    case Get(name) => NameIsPadded(name);
    case Put(name, size) => PutHeaderBytes(h.client, Size32(size), name);
    case _ =>
  }

  lemma NameIsPadded(name: seq<byte>)
    requires |name| < BUF_SIZE
    ensures IsPadded(PaddedRequest(GET, name), 4, name)
  {
    PaddedIsPadded(4, name);
  }

  /** 1024 bytes: the kind, the arguments up to 1023 bytes, then zeroes; what a
      server reads after the kind is those arguments. */
  predicate IsPadded(r: seq<byte>, kind: byte, args: seq<byte>) {
    var n := if |args| < 1023 then |args| else 1023;
    && |r| == 1024 && r[0] == kind && r[1..1 + n] == args[..n]
    && (forall i | n < i < 1024 :: r[i] == 0)
    && (0 !in args ==> CString(r[1..]) == args[..n])
  }

  lemma PaddedIsPadded(kind: byte, args: seq<byte>)
    ensures IsPadded(PaddedRequest(kind, Fitting(args)), kind, args)
  {
    var fitting := Fitting(args);
    var zs := Zeroes(BUF_SIZE - 1 - |fitting|);
    assert PaddedRequest(kind, fitting)[1..] == fitting + zs;
    if 0 !in args {
      CStringOf(fitting, zs);
    }
  }

  function Started(s: State, cmd: Command): Client
    requires Sendable(s, cmd)
  {
    match cmd
    case Get(name) => AwaitHead(name)
    case Put(name, size) => Uploading(name, size, s.clientFiles[name])
    case _ => Printing
  }

  /** What the server's receive brought begins a request that it can answer; of
      put it needs the header and the name. */
  predicate CanTake(h: Hosts, b: seq<byte>) {
    b != [] && (
      b[0] in {LS, PWD, CD, GET}
      || (b[0] == PUT && |b| >= PUT_FIXED && |b| >= PUT_FIXED + PutNameLength(h.server, b)))
  }

  /** The request arrived in one piece, for ls, cd and get the whole buffer. */
  predicate WholeRequest(h: Hosts, b: seq<byte>) {
    CanTake(h, b) && (b[0] in {LS, CD, GET} ==> |b| == BUF_SIZE)
  }

  /** The replies a server can give to a request; an error message fits msg. */
  predicate Answers(h: Hosts, s: State, b: seq<byte>, reply: Reply)
    requires CanTake(h, b)
  {
    if b[0] == GET then
      || (reply.Failure? && |reply.message| + 2 <= BUF_SIZE)
      || (reply.Contents? && FirstWord(b[1..]) != [] && FirstWord(b[1..]) in s.serverFiles
          && reply.file == s.serverFiles[FirstWord(b[1..])])
    else if b[0] == PUT then
      reply.Accepted?
    else
      reply.Text?
  }

  /** An error message has up to 1022 bytes; what a file holds is what is sent. */
  lemma WhatIsAnswered(h: Hosts, s: State, name: Name, reply: Reply)
    requires IsWord(name) && |name| < BUF_SIZE
    ensures var request := PaddedRequest(GET, name);
      && WholeRequest(h, request)
      && (Answers(h, s, request, reply) <==>
            || (reply.Failure? && |reply.message| <= 1022)
            || (reply.Contents? && name in s.serverFiles && reply.file == s.serverFiles[name]))
  {
    GetNameRoundTrip(name);
  }

  function PutName(h: Hosts, b: seq<byte>): Name
    requires CanTake(h, b) && b[0] == PUT
  {
    b[PUT_FIXED..PUT_FIXED + PutNameLength(h.server, b)]
  }

  function PutRest(h: Hosts, b: seq<byte>): seq<byte>
    requires CanTake(h, b) && b[0] == PUT
  {
    b[PUT_FIXED + PutNameLength(h.server, b)..]
  }

  /** Where response_put is once it has stored got of size bytes. */
  function StoredSoFar(name: Name, size: nat, got: nat): Server {
    if got < size then Storing(name, size, got) else Sending([END])
  }

  /** Where recv_file is once it has written got of size bytes. */
  function WrittenSoFar(name: Name, size: nat, got: nat): Client {
    if got < size then Downloading(name, size, got) else Prompt
  }

  function TakeRequest(h: Hosts, s: State, b: seq<byte>, reply: Reply): State
    requires CanTake(h, b) && Answers(h, s, b, reply)
  {
    match reply
    case Text(body) => s.(server := Sending(body + [END]))
    case Failure(message) => s.(server := Sending([ERROR] + message))
    case Contents(size, file) => s.(server := Sending(GetHeader(h.server, Size32(size)) + file))
    case Accepted =>
      s.(server := StoredSoFar(PutName(h, b), PutSize(h.server, b), |PutRest(h, b)|),
         serverFiles := s.serverFiles[PutName(h, b) := PutRest(h, b)])
  }

  /** The first receive of get: an error reply arrives in one piece, a data
      reply with at least its header. */
  predicate WholeHead(s: State, b: seq<byte>)
    requires b != []
  {
    if b[0] == ERROR then s.server.Idle? && b == s.s2c else |b| >= GET_FIXED
  }

  function TakeHead(h: Hosts, s: State, name: Name, b: seq<byte>): State
    requires b != [] && WholeHead(s, b)
  {
    if b[0] == ERROR then
      s.(client := Prompt, screen := s.screen + b[1..] + [NEWLINE])
    else
      s.(client := WrittenSoFar(name, GetSize(h.client, b), |b| - GET_FIXED),
         clientFiles := s.clientFiles[name := b[GET_FIXED..]])
  }

  function TakeText(s: State, b: seq<byte>): State {
    if END in b then s.(client := Prompt, screen := s.screen + BeforeEnd(b) + [NEWLINE])
    else s.(screen := s.screen + b)
  }

  predicate Enabled(h: Hosts, s: State, l: Label) {
    match l
    case Issue(cmd) => s.client.Prompt? && Sendable(s, cmd)
    case ServerTakes(k, reply) =>
      s.server.Idle? && CanRecv(s.c2s, k) && WholeRequest(h, s.c2s[..k]) && Answers(h, s, s.c2s[..k], reply)
    case ServerSends(k) => s.server.Sending? && 1 <= k <= |s.server.out|
    case ServerStores(k) => s.server.Storing? && CanRecv(s.c2s, k) && s.server.name in s.serverFiles
    case ClientSends(k) => s.client.Uploading? && 1 <= k <= |s.client.unsent|
    case ClientPrints(k) => s.client.Printing? && CanRecv(s.s2c, k)
    case ClientHead(k) => s.client.AwaitHead? && CanRecv(s.s2c, k) && WholeHead(s, s.s2c[..k])
    case ClientBody(k) => s.client.Downloading? && CanRecv(s.s2c, k) && s.client.name in s.clientFiles
    case ClientGetsEnd => s.client.Uploading? && s.client.unsent == [] && s.s2c != []
  }

  function Step(h: Hosts, s: State, l: Label): State
    requires Enabled(h, s, l)
  {
    match l
    case Issue(cmd) => s.(client := Started(s, cmd), c2s := s.c2s + Request(h, s, cmd))
    case ServerTakes(k, reply) => TakeRequest(h, s, s.c2s[..k], reply).(c2s := s.c2s[k..])
    case ServerSends(k) =>
      var out := s.server.out;
      s.(s2c := s.s2c + out[..k], server := if k == |out| then Idle else Sending(out[k..]))
    case ServerStores(k) =>
      var name := s.server.name;
      s.(c2s := s.c2s[k..], serverFiles := s.serverFiles[name := s.serverFiles[name] + s.c2s[..k]],
         server := StoredSoFar(name, s.server.size, s.server.got + k))
    case ClientSends(k) =>
      s.(c2s := s.c2s + s.client.unsent[..k], client := Uploading(s.client.name, s.client.size, s.client.unsent[k..]))
    case ClientPrints(k) => TakeText(s, s.s2c[..k]).(s2c := s.s2c[k..])
    case ClientHead(k) => TakeHead(h, s, s.client.name, s.s2c[..k]).(s2c := s.s2c[k..])
    case ClientBody(k) =>
      var name := s.client.name;
      s.(s2c := s.s2c[k..], clientFiles := s.clientFiles[name := s.clientFiles[name] + s.s2c[..k]],
         client := WrittenSoFar(name, s.client.size, s.client.got + k))
    case ClientGetsEnd => s.(s2c := s.s2c[1..], client := Prompt)
  }

  // The abstract session

  datatype World = World(clientFiles: Files, serverFiles: Files, screen: seq<byte>)

  datatype Current = None | Some(cmd: Command, reply: Answer)

  datatype Answer = Pending | Given(reply: Reply)

  datatype Session = Session(world: World, current: Current)

  /** The whole effect of a command: a listing or message printed with a
      newline, or one file copied from one side to the other. */
  function Executed(w: World, cmd: Command, reply: Reply): World {
    match cmd
    case Put(name, _) =>
      if name in w.clientFiles then w.(serverFiles := w.serverFiles[name := w.clientFiles[name]]) else w
    case Get(name) =>
      if reply.Failure? then w.(screen := w.screen + reply.message + [NEWLINE])
      else if name in w.serverFiles then w.(clientFiles := w.clientFiles[name := w.serverFiles[name]])
      else w
    case _ => if reply.Text? then w.(screen := w.screen + reply.body + [NEWLINE]) else w
  }

  /** The abstract session next to a step of the programs that leads to s. */
  function Follow(a: Session, l: Label, s: State): Session {
    match l
    case Issue(cmd) => a.(current := Some(cmd, Pending))
    case ServerTakes(_, reply) => if a.current.Some? then a.(current := Some(a.current.cmd, Given(reply))) else a
    case _ =>
      if s.client.Prompt? && a.current.Some? && a.current.reply.Given? then
        Session(Executed(a.world, a.current.cmd, a.current.reply.reply), None)
      else a
  }

  // Commands that fit

  /** The receiver reads the size of what is sent, or the text ends where it
      should. */
  predicate Fits(h: Hosts, w: World, cmd: Command, reply: Reply) {
    match cmd
    case Put(name, size) => name in w.clientFiles ==> PutFitting(h, size, w.clientFiles[name])
    case Get(_) => reply.Contents? ==> GetFitting(h, reply.size, reply.file)
    case _ => reply.Text? ==> END !in reply.body
  }

  predicate PutFitting(h: Hosts, size: nat, file: seq<byte>) {
    PutAnnounced(h.client, h.server, size) == |file|
  }

  predicate GetFitting(h: Hosts, size: nat, file: seq<byte>) {
    GetAnnounced(h.client, size) == |file|
  }

  /** In a caller's terms. For a file whose size is the number of its bytes: if it
      is shorter than 4 GiB and the hosts have the right byte orders, or it is
      empty. For a directory, whose bytes cannot be read: if the size is a multiple
      of 4 GiB or the hosts have the wrong byte orders. */
  lemma FittingExactly(h: Hosts, size: nat, file: seq<byte>)
    ensures |file| == size ==> (PutFitting(h, size, file) <==> size < UINT32 && (h.client == h.server || size == 0))
    ensures |file| == size ==> (GetFitting(h, size, file) <==> size < UINT32 && (h.client == LittleEndian || size == 0))
    ensures file == [] ==> (PutFitting(h, size, file) <==> h.client != h.server || size % UINT32 == 0)
    ensures file == [] ==> (GetFitting(h, size, file) <==> h.client == BigEndian || size % UINT32 == 0)
  {
  }

  // The invariant

  function Visible(s: State): World {
    World(s.clientFiles, s.serverFiles, s.screen)
  }

  /** What the server still has to send; nothing while it receives. */
  function Outgoing(server: Server): seq<byte> {
    if server.Sending? then server.out else []
  }

  predicate Resting(server: Server) {
    server.Idle? || (server.Sending? && server.out != [])
  }

  /** Client at the prompt, server at recv, both channels empty. */
  predicate Quiet(s: State) {
    s.client.Prompt? && s.server.Idle? && s.c2s == [] && s.s2c == []
  }

  predicate TextInProgress(w: World, request: seq<byte>, reply: Answer, s: State) {
    && s.client.Printing? && s.clientFiles == w.clientFiles && s.serverFiles == w.serverFiles
    && match reply
       case Pending => s.server.Idle? && s.c2s == request && s.s2c == [] && s.screen == w.screen
       case Given(r) =>
         && r.Text? && END !in r.body && Resting(s.server) && s.c2s == []
         && |w.screen| <= |s.screen| && s.s2c + Outgoing(s.server) != []
         && s.screen + (s.s2c + Outgoing(s.server)) == w.screen + r.body + [END]
  }

  predicate GetInProgress(h: Hosts, w: World, name: Name, reply: Answer, s: State) {
    && s.serverFiles == w.serverFiles && s.screen == w.screen && IsWord(name) && |name| + 2 <= BUF_SIZE
    && match reply
       case Pending =>
         && s.client == AwaitHead(name) && s.server.Idle? && s.clientFiles == w.clientFiles
         && s.c2s == PaddedRequest(GET, name) && s.s2c == []
       case Given(r) =>
         && s.c2s == [] && Resting(s.server)
         && match r
            case Failure(message) =>
              && s.client == AwaitHead(name) && s.clientFiles == w.clientFiles && |message| + 2 <= BUF_SIZE
              && s.s2c + Outgoing(s.server) == [ERROR] + message
            case Contents(size, file) =>
              && name in w.serverFiles && file == w.serverFiles[name] && GetFitting(h, size, file)
              && Fetching(h, w, name, size, file, s)
            case _ => false
  }

  /** written ++ in flight ++ unsent is the file, with the header before it until
      the client has taken that. */
  predicate Fetching(h: Hosts, w: World, name: Name, size: nat, file: seq<byte>, s: State) {
    match s.client
    case AwaitHead(n) =>
      n == name && s.clientFiles == w.clientFiles
      && s.s2c + Outgoing(s.server) == GetHeader(h.server, Size32(size)) + file
    case Downloading(n, announced, got) =>
      && n == name && announced == |file| && got < announced
      && name in s.clientFiles && s.clientFiles == w.clientFiles[name := s.clientFiles[name]]
      && got == |s.clientFiles[name]| && s.clientFiles[name] + (s.s2c + Outgoing(s.server)) == file
    case _ => false
  }

  predicate PutInProgress(h: Hosts, w: World, name: Name, size: nat, reply: Answer, s: State) {
    && s.clientFiles == w.clientFiles && s.screen == w.screen && IsWord(name) && |name| < 256
    && name in w.clientFiles && s.client.Uploading? && s.client.name == name && s.client.size == size
    && match reply
       case Pending =>
         && s.server.Idle? && s.serverFiles == w.serverFiles && s.s2c == [] && |s.c2s| >= PUT_FIXED + |name|
         && s.c2s + s.client.unsent
            == PutHeader(h.client, Size32(size), name) + w.clientFiles[name]
       case Given(r) =>
         && r.Accepted? && PutFitting(h, size, w.clientFiles[name])
         && name in s.serverFiles && s.serverFiles == w.serverFiles[name := s.serverFiles[name]]
         && Delivering(w.clientFiles[name], s.serverFiles[name], s)
  }

  predicate Delivering(file: seq<byte>, written: seq<byte>, s: State)
    requires s.client.Uploading?
  {
    match s.server
    case Storing(n, announced, got) =>
      && n == s.client.name && announced == |file| && got == |written| < announced && s.s2c == []
      && written + (s.c2s + s.client.unsent) == file
    case _ =>
      && written == file && s.c2s == [] && s.client.unsent == []
      && Resting(s.server) && s.s2c + Outgoing(s.server) == [END]
  }

  predicate Follows(h: Hosts, a: Session, s: State) {
    match a.current
    case None => Quiet(s) && a.world == Visible(s)
    case Some(cmd, reply) =>
      match cmd
      case Get(name) => GetInProgress(h, a.world, name, reply, s)
      case Put(name, size) => PutInProgress(h, a.world, name, size, reply, s)
      case List(args) => TextInProgress(a.world, PaddedRequest(LS, Fitting(args)), reply, s)
      case PrintDir => TextInProgress(a.world, [PWD], reply, s)
      case ChangeDir(args) => TextInProgress(a.world, PaddedRequest(CD, Fitting(args)), reply, s)
  }

  // Moving bytes along a channel

  lemma MoveIn(channel: seq<byte>, out: seq<byte>, k: nat)
    requires k <= |out|
    ensures channel + out[..k] + out[k..] == channel + out
  {
  }

  lemma MoveOut(taken: seq<byte>, channel: seq<byte>, out: seq<byte>, k: nat)
    requires k <= |channel|
    ensures taken + channel[..k] + (channel[k..] + out) == taken + (channel + out)
  {
    assert channel == channel[..k] + channel[k..];
  }

  // ls, pwd and cd

  /** What remains of a text reply ends in its only END byte. */
  lemma TextRest(before: seq<byte>, body: seq<byte>, shown: seq<byte>, rest: seq<byte>)
    requires shown + rest == before + body + [END] && |before| <= |shown| && rest != [] && END !in body
    ensures rest[|rest| - 1] == END && END !in rest[..|rest| - 1]
    ensures shown + rest[..|rest| - 1] == before + body
  {
    var all := before + body + [END];
    assert rest == all[|shown|..];
    assert rest[..|rest| - 1] == all[|shown|..|all| - 1];
    assert all[|shown|..|all| - 1] == body[|shown| - |before|..];
    assert all[..|all| - 1] == before + body;
    assert shown + rest[..|rest| - 1] == (shown + rest)[..|all| - 1];
  }

  lemma TextChunk(before: seq<byte>, body: seq<byte>, shown: seq<byte>, channel: seq<byte>, out: seq<byte>, k: nat)
    requires shown + (channel + out) == before + body + [END] && |before| <= |shown| && END !in body
    requires 1 <= k <= |channel|
    ensures END in channel[..k] ==>
      k == |channel| && out == [] && shown + BeforeEnd(channel[..k]) == before + body
    ensures END !in channel[..k] ==> channel[k..] + out != []
  {
    var rest := channel + out;
    TextRest(before, body, shown, rest);
    assert channel[..k] == rest[..k];
    if k < |rest| {
      assert rest[..k] == rest[..|rest| - 1][..k];
    } else {
      var text := rest[..|rest| - 1];
      assert channel[..k] == text + [END] == text + [END] + [];
      BeforeEndOf(text, []);
    }
  }

  lemma TextStep(h: Hosts, w: World, request: seq<byte>, reply: Answer, s: State, l: Label)
    requires request == [PWD] || (|request| == BUF_SIZE && request[0] in {LS, CD})
    requires TextInProgress(w, request, reply, s) && Enabled(h, s, l)
    requires l.ServerTakes? && l.reply.Text? ==> END !in l.reply.body
    ensures l.ServerTakes? ==> TextInProgress(w, request, Given(l.reply), Step(h, s, l))
    ensures !l.ServerTakes? && !Step(h, s, l).client.Prompt? ==> TextInProgress(w, request, reply, Step(h, s, l))
    ensures !l.ServerTakes? && Step(h, s, l).client.Prompt? ==>
      reply.Given? && reply.reply.Text? && Quiet(Step(h, s, l))
      && Visible(Step(h, s, l)) == w.(screen := w.screen + reply.reply.body + [NEWLINE])
  {
    hide GetHeader, FirstWord, GetSize, PutName, PutSize, PutRest, ReadSize, PutNameLength;
    match l
    case ServerTakes(k, r) =>
      assert s.c2s[..k] == request && s.c2s[k..] == [];
      assert w.screen + ([] + (r.body + [END])) == w.screen + r.body + [END];
    case ServerSends(k) =>
      MoveIn(s.s2c, s.server.out, k);
    case ClientPrints(k) =>
      TextChunk(w.screen, reply.reply.body, s.screen, s.s2c, Outgoing(s.server), k);
      MoveOut(s.screen, s.s2c, Outgoing(s.server), k);
    case _ =>
  }

  // get

  lemma GetTaken(h: Hosts, w: World, name: Name, s: State, k: nat, r: Reply)
    requires GetInProgress(h, w, name, Pending, s) && Enabled(h, s, ServerTakes(k, r))
    requires r.Contents? ==> GetFitting(h, r.size, r.file)
    ensures GetInProgress(h, w, name, Given(r), Step(h, s, ServerTakes(k, r)))
  {
    hide GetHeader, FirstWord, PaddedRequest, PutName, PutSize, PutRest, ReadSize;
    assert s.c2s[..k] == s.c2s && s.c2s[k..] == [];
    GetNameRoundTrip(name);
    if r.Contents? {
      assert [] + (GetHeader(h.server, Size32(r.size)) + r.file) == GetHeader(h.server, Size32(r.size)) + r.file;
    }
  }

  lemma FrontOf(b: seq<byte>, tail: seq<byte>, header: seq<byte>, file: seq<byte>)
    requires |b| >= |header| > 0 && b + tail == header + file
    ensures b[0] == header[0] && b == header + b[|header|..] && b[|header|..] + tail == file
  {
    assert b == (b + tail)[..|b|] && header == (header + file)[..|header|];
    assert file == (header + file)[|header|..];
  }

  /** A first receive that holds the header is read as the size of the file,
      whatever part of the file came along. */
  lemma HeadPrefix(h: Hosts, b: seq<byte>, tail: seq<byte>, size: nat, file: seq<byte>)
    requires |b| >= GET_FIXED && b + tail == GetHeader(h.server, Size32(size)) + file
    ensures b[0] == DATA && GetSize(h.client, b) == GetAnnounced(h.client, size) && b[GET_FIXED..] + tail == file
  {
    var header := GetHeader(h.server, Size32(size));
    FrontOf(b, tail, header, file);
    GetRoundTrip(h.client, h.server, Size32(size), b[GET_FIXED..]);
  }

  /** Nothing of a file follows once it is there in full. */
  lemma NothingLeft(part: seq<byte>, tail: seq<byte>, file: seq<byte>)
    requires part + tail == file
    ensures |part| >= |file| ==> tail == [] && part == file
  {
    assert |part + tail| == |part| + |tail|;
  }

  lemma FirstByte(b: seq<byte>, k: nat, tail: seq<byte>, all: seq<byte>)
    requires 1 <= k <= |b| && b + tail == all
    ensures b[..k][0] == all[0]
  {
  }

  lemma GetHead(h: Hosts, w: World, name: Name, size: nat, file: seq<byte>, s: State, k: nat)
    requires GetFitting(h, size, file) && Fetching(h, w, name, size, file, s) && Enabled(h, s, ClientHead(k))
    requires Resting(s.server)
    ensures var t := Step(h, s, ClientHead(k));
      && t.c2s == s.c2s && t.server == s.server && t.serverFiles == s.serverFiles && t.screen == s.screen
      && if t.client.Prompt? then t.s2c == [] && t.server.Idle? && t.clientFiles == w.clientFiles[name := file]
         else Fetching(h, w, name, size, file, t)
  {
    hide ReadSize, GetHeader, GetSize;
    var b, rest, out := s.s2c[..k], s.s2c[k..], Outgoing(s.server);
    FirstByte(s.s2c, k, out, GetHeader(h.server, Size32(size)) + file);
    MoveOut([], s.s2c, out, k);
    HeadPrefix(h, b, rest + out, size, file);
    NothingLeft(b[GET_FIXED..], rest + out, file);
  }

  lemma GetRefused(h: Hosts, w: World, name: Name, message: seq<byte>, s: State, k: nat)
    requires GetInProgress(h, w, name, Given(Failure(message)), s) && Enabled(h, s, ClientHead(k))
    ensures var t := Step(h, s, ClientHead(k));
      Quiet(t) && Visible(t) == w.(screen := w.screen + message + [NEWLINE])
  {
    FirstByte(s.s2c, k, Outgoing(s.server), [ERROR] + message);
    assert s.s2c + [] == s.s2c;
    assert s.s2c[1..] == message;
  }

  lemma GetBody(h: Hosts, w: World, name: Name, size: nat, file: seq<byte>, s: State, k: nat)
    requires GetFitting(h, size, file) && Fetching(h, w, name, size, file, s) && Enabled(h, s, ClientBody(k))
    requires Resting(s.server)
    ensures var t := Step(h, s, ClientBody(k));
      if t.client.Prompt? then t.s2c == [] && t.server.Idle? && t.clientFiles == w.clientFiles[name := file]
      else Fetching(h, w, name, size, file, t)
  {
    MoveOut(s.clientFiles[name], s.s2c, Outgoing(s.server), k);
    NothingLeft(s.clientFiles[name] + s.s2c[..k], s.s2c[k..] + Outgoing(s.server), file);
  }

  lemma GetStep(h: Hosts, w: World, name: Name, reply: Answer, s: State, l: Label)
    requires GetInProgress(h, w, name, reply, s) && Enabled(h, s, l)
    requires l.ServerTakes? && l.reply.Contents? ==> GetFitting(h, l.reply.size, l.reply.file)
    ensures l.ServerTakes? ==> GetInProgress(h, w, name, Given(l.reply), Step(h, s, l))
    ensures !l.ServerTakes? && !Step(h, s, l).client.Prompt? ==> GetInProgress(h, w, name, reply, Step(h, s, l))
    ensures !l.ServerTakes? && Step(h, s, l).client.Prompt? ==>
      reply.Given? && Quiet(Step(h, s, l)) && Visible(Step(h, s, l)) == Executed(w, Get(name), reply.reply)
  {
    hide PutName, PutSize, PutRest, ReadSize, FirstWord, GetHeader, WholeRequest, CanTake, PaddedRequest, BeforeEnd;
    match l
    case ServerTakes(k, r) => GetTaken(h, w, name, s, k, r);
    case ServerSends(k) => MoveIn(s.s2c, s.server.out, k);
    case ClientHead(k) =>
      if reply.reply.Contents? {
        GetHead(h, w, name, reply.reply.size, reply.reply.file, s, k);
      } else {
        GetRefused(h, w, name, reply.reply.message, s, k);
      }
    case ClientBody(k) => GetBody(h, w, name, reply.reply.size, reply.reply.file, s, k);
    case _ =>
  }

  // put

  /** A first receive that holds the header and the name is read as what the
      client meant, whatever part of the file came along. */
  lemma PutPrefix(h: Hosts, b: seq<byte>, tail: seq<byte>, name: Name, size: nat, file: seq<byte>)
    requires |name| < UINT32 && b + tail == PutHeader(h.client, Size32(size), name) + file
    requires WholeRequest(h, b) && b[0] == PUT
    ensures PutName(h, b) == name && PutSize(h.server, b) == PutAnnounced(h.client, h.server, size)
    ensures PutRest(h, b) + tail == file
  {
    hide ReadSize, PutHeader;
    var header := PutHeader(h.client, Size32(size), name);
    Window(b, tail, header, file, 9, 13);
    PutRoundTrip(h.client, h.server, Size32(size), name, []);
    assert header + [] == header;
    assert PutNameLength(h.server, b) == |name|;
    FrontOf(b, tail, header, file);
    PutRoundTrip(h.client, h.server, Size32(size), name, b[|header|..]);
  }

  lemma Window(a: seq<byte>, b: seq<byte>, c: seq<byte>, d: seq<byte>, from: nat, to: nat)
    requires a + b == c + d && from <= to <= |a| && to <= |c|
    ensures a[from..to] == c[from..to]
  {
    assert a[from..to] == (a + b)[from..to];
    assert c[from..to] == (c + d)[from..to];
  }

  lemma PutTaken(h: Hosts, w: World, name: Name, size: nat, s: State, k: nat, r: Reply)
    requires PutInProgress(h, w, name, size, Pending, s) && Enabled(h, s, ServerTakes(k, r))
    requires PutFitting(h, size, w.clientFiles[name])
    ensures PutInProgress(h, w, name, size, Given(r), Step(h, s, ServerTakes(k, r)))
  {
    hide ReadSize, PutNameLength, PutHeader;
    var b, tail, file := s.c2s[..k], s.c2s[k..] + s.client.unsent, w.clientFiles[name];
    FirstByte(s.c2s, k, s.client.unsent, PutHeader(h.client, Size32(size), name) + file);
    MoveOut([], s.c2s, s.client.unsent, k);
    PutPrefix(h, b, tail, name, size, file);
    NothingLeft(PutRest(h, b), tail, file);
  }

  lemma PutStored(h: Hosts, w: World, name: Name, size: nat, s: State, k: nat)
    requires PutInProgress(h, w, name, size, Given(Accepted), s) && Enabled(h, s, ServerStores(k))
    ensures PutInProgress(h, w, name, size, Given(Accepted), Step(h, s, ServerStores(k)))
  {
    MoveOut(s.serverFiles[name], s.c2s, s.client.unsent, k);
    NothingLeft(s.serverFiles[name] + s.c2s[..k], s.c2s[k..] + s.client.unsent, w.clientFiles[name]);
  }

  lemma PutStep(h: Hosts, w: World, name: Name, size: nat, reply: Answer, s: State, l: Label)
    requires PutInProgress(h, w, name, size, reply, s) && Enabled(h, s, l)
    requires l.ServerTakes? ==> PutFitting(h, size, w.clientFiles[name])
    ensures l.ServerTakes? ==> PutInProgress(h, w, name, size, Given(l.reply), Step(h, s, l))
    ensures !l.ServerTakes? && !Step(h, s, l).client.Prompt? ==> PutInProgress(h, w, name, size, reply, Step(h, s, l))
    ensures !l.ServerTakes? && Step(h, s, l).client.Prompt? ==>
      reply.Given? && Quiet(Step(h, s, l)) && Visible(Step(h, s, l)) == Executed(w, Put(name, size), reply.reply)
  {
    match l
    case ServerTakes(k, r) => PutTaken(h, w, name, size, s, k, r);
    case ServerSends(k) => MoveIn(s.s2c, s.server.out, k);
    case ClientSends(k) => MoveIn(s.c2s, s.client.unsent, k);
    case ServerStores(k) => PutStored(h, w, name, size, s, k);
    case _ =>
  }

  // Every step of either program

  lemma IssueFollows(h: Hosts, s: State, cmd: Command)
    requires Quiet(s) && Enabled(h, s, Issue(cmd))
    ensures Follows(h, Session(Visible(s), Some(cmd, Pending)), Step(h, s, Issue(cmd)))
  {
    assert [] + Request(h, s, cmd) == Request(h, s, cmd);
  }

  /** What the server takes fits. */
  predicate FitStep(h: Hosts, a: Session, l: Label) {
    l.ServerTakes? && a.current.Some? ==> Fits(h, a.world, a.current.cmd, l.reply)
  }

  /** Every step of either program keeps the invariant with the abstract session
      that follows it. */
  lemma StepFollows(h: Hosts, a: Session, s: State, l: Label)
    requires Follows(h, a, s) && Enabled(h, s, l) && FitStep(h, a, l)
    ensures Follows(h, Follow(a, l, Step(h, s, l)), Step(h, s, l))
  {
    hide TakeRequest, TakeHead, TakeText, Request, PaddedRequest, WholeRequest, CanTake, Answers, WholeHead;
    match a.current
    case None => IssueFollows(h, s, l.cmd);
    case Some(cmd, reply) =>
      match cmd
      case Get(name) => GetStep(h, a.world, name, reply, s, l);
      case Put(name, size) => PutStep(h, a.world, name, size, reply, s, l);
      case List(args) => TextStep(h, a.world, PaddedRequest(LS, Fitting(args)), reply, s, l);
      case PrintDir => TextStep(h, a.world, [PWD], reply, s, l);
      case ChangeDir(args) => TextStep(h, a.world, PaddedRequest(CD, Fitting(args)), reply, s, l);
  }
}
