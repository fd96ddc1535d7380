/**
 The transfer routines of src/ft/ft-client.c and src/ft/ft-server.c, one side
 at a time. A receive returns any non-empty prefix of what the peer sends, so
 the results hold for every segmentation of the stream. Beside what it does to
 its connection, each routine is shown to be a run of the session machine: from
 a state whose channel holds what is still to come, by the steps of its side.
 */
module FtEndpoints {
  import opened Bytes
  import opened FtWire
  import opened FtSession
  import opened FtRuns

  /** One end of the connection. */
  class Connection {
    /** What the peer sends from now on, not yet received. */
    var inbox: seq<byte>
    /** Everything sent so far. */
    var outbox: seq<byte>

    constructor (fromPeer: seq<byte>)
      ensures inbox == fromPeer && outbox == []
    {
      inbox, outbox := fromPeer, [];
    }

    method Send(s: seq<byte>)
      modifies this
      ensures outbox == old(outbox) + s && inbox == old(inbox)
    {
      outbox := outbox + s;
    }

    /** recv blocks until something arrives, so something must be on its way. */
    method Recv(buf: array<byte>, size: nat) returns (n: nat)
      requires inbox != [] && 0 < size <= buf.Length
      modifies this, buf
      ensures 0 < n <= size && n <= |old(inbox)|
      ensures buf[..n] == old(inbox)[..n]
      ensures inbox == old(inbox)[n..] && outbox == old(outbox)
    {
      n := if |inbox| < size then |inbox| else size;
      forall i | 0 <= i < n {
        buf[i] := inbox[i];
      }
      inbox := inbox[n..];
    }
  }

  /** The run leads from s to t. */
  ghost predicate Leads(h: Hosts, s: State, run: seq<Label>, t: State) {
    Possible(h, s, run) && After(h, s, run) == t
  }

  lemma OneMore(h: Hosts, s: State, run: seq<Label>, t: State, l: Label)
    requires Leads(h, s, run, t) && Enabled(h, t, l)
    ensures Leads(h, s, run + [l], Step(h, t, l))
  {
    hide Enabled, Step;
    LastStep(h, t, l);
    Append(h, s, run, [l]);
  }

  lemma NoSteps(h: Hosts, s: State)
    ensures Leads(h, s, [], s)
  {
  }

  // Server

  /** The server after it has stored the first part of a file. */
  function Stored(s: State, name: Name, size: nat, file: seq<byte>, inbox: seq<byte>): State {
    s.(server := StoredSoFar(name, size, |file|), c2s := inbox, serverFiles := s.serverFiles[name := file])
  }

  lemma StoreStep(h: Hosts, s: State, name: Name, size: nat, file: seq<byte>, inbox: seq<byte>, m: nat)
    requires |file| < size && CanRecv(inbox, m)
    ensures Enabled(h, Stored(s, name, size, file, inbox), ServerStores(m))
    ensures Step(h, Stored(s, name, size, file, inbox), ServerStores(m))
         == Stored(s, name, size, file + inbox[..m], inbox[m..])
  {
  }

  lemma TakePut(h: Hosts, s: State, b: seq<byte>, inbox: seq<byte>)
    requires s.server.Idle? && s.c2s == b + inbox && 0 < |b| <= BUF_SIZE && WholeRequest(h, b) && b[0] == PUT
    ensures Enabled(h, s, ServerTakes(|b|, Accepted))
    ensures Step(h, s, ServerTakes(|b|, Accepted))
         == Stored(s, PutName(h, b), PutSize(h.server, b), PutRest(h, b), inbox)
  {
    hide PutName, PutSize, PutRest, WholeRequest, CanTake;
    assert s.c2s[..|b|] == b && s.c2s[|b|..] == inbox;
  }

  lemma AcknowledgeStep(h: Hosts, s: State, name: Name, size: nat, file: seq<byte>, inbox: seq<byte>)
    requires |file| >= size
    ensures Enabled(h, Stored(s, name, size, file, inbox), ServerSends(1))
    ensures Step(h, Stored(s, name, size, file, inbox), ServerSends(1))
         == Stored(s, name, size, file, inbox).(server := Idle, s2c := s.s2c + [END])
  {
    assert [END][..1] == [END];
  }

  /** response_put after session has received the first n bytes of the request,
      with the whole header among them. */
  method ResponsePut(h: Hosts, conn: Connection, buf: array<byte>, n: nat, ghost s: State)
    returns (filename: seq<byte>, file: seq<byte>, ghost run: seq<Label>)
    requires buf.Length == BUF_SIZE && PUT_FIXED <= n <= BUF_SIZE
    requires PUT_FIXED + PutNameLength(h.server, buf[..n]) <= n && buf[0] == PUT
    requires |buf[PUT_FIXED + PutNameLength(h.server, buf[..n])..n] + conn.inbox| >= PutSize(h.server, buf[..n])
    requires s.server.Idle? && s.c2s == buf[..n] + conn.inbox
    modifies conn, buf
    ensures var start := PUT_FIXED + old(PutNameLength(h.server, buf[..n]));
      var stream := old(buf[..n])[start..] + old(conn.inbox);
      && filename == old(buf[..n])[PUT_FIXED..start]
      && file + conn.inbox == stream
      && (|stream| == old(PutSize(h.server, buf[..n])) ==> file == stream && conn.inbox == [])
    ensures conn.outbox == old(conn.outbox) + [END]
    ensures Leads(h, s, run, s.(c2s := conn.inbox, s2c := s.s2c + [END],
                                serverFiles := s.serverFiles[filename := file]))
  {
    hide PutSize, PutNameLength, Leads, Enabled, Step;
    ghost var b := buf[..n];
    var fsize := PutSize(h.server, buf[..n]);
    var fnlen := PutNameLength(h.server, buf[..n]);
    var bufOffset := PUT_FIXED + fnlen;
    filename := buf[PUT_FIXED..bufOffset];
    file := buf[bufOffset..n];
    Slices(buf[..], n, bufOffset);
    assert filename == PutName(h, b) && file == PutRest(h, b) == b[bufOffset..];
    ghost var stream := file + conn.inbox;
    TakePut(h, s, b, conn.inbox);
    NoSteps(h, s);
    OneMore(h, s, [], s, ServerTakes(n, Accepted));
    run := [] + [ServerTakes(n, Accepted)];
    var t := n - bufOffset;
    while t < fsize
      invariant t == |file| && file + conn.inbox == stream && |stream| >= fsize
      invariant Leads(h, s, run, Stored(s, filename, fsize, file, conn.inbox))
      invariant conn.outbox == old(conn.outbox)
      decreases |conn.inbox|
    {
      ghost var before := conn.inbox;
      var m := conn.Recv(buf, BUF_SIZE);
      StoreStep(h, s, filename, fsize, file, before, m);
      OneMore(h, s, run, Stored(s, filename, fsize, file, before), ServerStores(m));
      run := run + [ServerStores(m)];
      t := t + m;
      Taken(file, before, m);
      file := file + buf[..m];
    }
    AcknowledgeStep(h, s, filename, fsize, file, conn.inbox);
    OneMore(h, s, run, Stored(s, filename, fsize, file, conn.inbox), ServerSends(1));
    run := run + [ServerSends(1)];
    conn.Send([END]);
  }

  lemma Slices(a: seq<byte>, n: nat, k: nat)
    requires PUT_FIXED <= k <= n <= |a|
    ensures a[PUT_FIXED..k] == a[..n][PUT_FIXED..k] && a[k..n] == a[..n][k..]
  {
  }

  lemma Taken(file: seq<byte>, inbox: seq<byte>, m: nat)
    requires m <= |inbox|
    ensures file + inbox == file + inbox[..m] + inbox[m..]
  {
    assert inbox == inbox[..m] + inbox[m..];
  }

  /** The server after it has sent the first i bytes of out. */
  function Sent(s: State, out: seq<byte>, i: nat): State
    requires i <= |out|
  {
    s.(server := if i == |out| then Idle else Sending(out[i..]), s2c := s.s2c + out[..i])
  }

  lemma SendStep(h: Hosts, s: State, out: seq<byte>, i: nat, k: nat)
    requires 1 <= k && i + k <= |out|
    ensures Enabled(h, Sent(s, out, i), ServerSends(k))
    ensures Step(h, Sent(s, out, i), ServerSends(k)) == Sent(s, out, i + k)
  {
    assert out[i..][..k] == out[i..i + k] && out[i..][k..] == out[i + k..];
    assert out[..i + k] == out[..i] + out[i..i + k];
    assert s.s2c + out[..i] + out[i..i + k] == s.s2c + (out[..i] + out[i..i + k]);
  }

  lemma TakeAndSend(h: Hosts, s: State, k: nat, reply: Reply, out: seq<byte>)
    requires Enabled(h, s, ServerTakes(k, reply)) && out == ReplyBytes(h, reply) && out != []
    ensures Leads(h, s, [ServerTakes(k, reply)], Sent(s.(c2s := s.c2s[k..]), out, 0))
  {
    hide GetHeader, WholeRequest, CanTake, Answers, PutName, PutRest;
    LastStep(h, s, ServerTakes(k, reply));
    assert out[0..] == out && s.s2c + out[..0] == s.s2c;
  }

  /** What the server sends for a reply, but for the acknowledgement of a put. */
  function ReplyBytes(h: Hosts, reply: Reply): seq<byte> {
    match reply
    case Text(body) => body + [END]
    case Failure(message) => [ERROR] + message
    case Contents(size, file) => GetHeader(h.server, Size32(size)) + file
    case Accepted => []
  }

  /** The bytes of every reply: 127 ends a text, 255 is an error, 0 and four bytes
      of the size, highest first, with four zeroes come before a file. */
  lemma ReplyIsBytes(h: Hosts, reply: Reply)
    ensures var r := ReplyBytes(h, reply);
      match reply
      case Text(body) => r == body + [127]
      case Failure(message) => r == [255] + message
      case Contents(size, file) =>
        && |r| == 9 + |file| && r[0] == 0 && Load32(BigEndian, r[1..5]) == size % UINT32 && r[5..9] == [0, 0, 0, 0]
        && r[9..] == file
      case Accepted => r == []
  {
    if reply.Contents? {
      var field, r := Store32(h.server, Htonl(h.server, Size32(reply.size))), ReplyBytes(h, reply);
      hide Load32, Store32, Htonl;
      NetworkStore32(h.server, Size32(reply.size));
      LoadStore32(BigEndian, Size32(reply.size));
      assert r[1..5] == field && r[9..] == reply.file;
    }
  }

  /** Whether access lets a file be read, with the size that get_file_size finds. */
  datatype Readable = Readable(size: nat, file: seq<byte>) | Denied(message: seq<byte>)

  function ReplyOf(source: Readable): Reply {
    match source
    case Readable(size, file) => Contents(size, file)
    case Denied(message) => Failure(message)
  }

  /** response_get: a header and the file, or an error byte and a message. The
      session has received the first k bytes of s.c2s, a get request. */
  method ResponseGet(h: Hosts, conn: Connection, source: Readable, ghost s: State, ghost k: nat)
    returns (ret: int, ghost run: seq<Label>)
    requires Enabled(h, s, ServerTakes(k, ReplyOf(source)))
    modifies conn
    ensures conn.inbox == old(conn.inbox)
    ensures conn.outbox == old(conn.outbox) + ReplyBytes(h, ReplyOf(source))
    ensures ret == if source.Denied? then -1 else 0
    ensures Leads(h, s, run, s.(c2s := s.c2s[k..], s2c := s.s2c + ReplyBytes(h, ReplyOf(source))))
  {
    assert s.server.Idle? && k <= |s.c2s|;
    hide Leads, Enabled, Step, GetHeader, Sent;
    ghost var t, out := s.(c2s := s.c2s[k..]), ReplyBytes(h, ReplyOf(source));
    TakeAndSend(h, s, k, ReplyOf(source), out);
    run := [ServerTakes(k, ReplyOf(source))];
    match source {
      case Denied(message) =>
        conn.Send([ERROR] + message);
        run := SendPiece(h, s, run, t, out, 0, |out|);
        ret := -1;
      case Readable(size, file) =>
        conn.Send(GetHeader(h.server, Size32(size)));
        run := SendPiece(h, s, run, t, out, 0, GET_FIXED);
        run := SendFile(h, conn, file, s, run, t, out);
        Regroup(old(conn.outbox), GetHeader(h.server, Size32(size)), file);
        ret := 0;
    }
    AllSent(t, out);
  }

  /** The loop over the file in buffers of at most 1024 bytes, at the end of out. */
  method SendFile(h: Hosts, conn: Connection, file: seq<byte>, ghost s: State, ghost before: seq<Label>,
                  ghost t: State, ghost out: seq<byte>)
    returns (ghost run: seq<Label>)
    requires |file| <= |out| && Leads(h, s, before, Sent(t, out, |out| - |file|))
    modifies conn
    ensures conn.outbox == old(conn.outbox) + file && conn.inbox == old(conn.inbox)
    ensures Leads(h, s, run, Sent(t, out, |out|))
  {
    hide Leads, Sent;
    run := before;
    var i := 0;
    while i < |file|
      invariant i <= |file| && conn.inbox == old(conn.inbox)
      invariant conn.outbox == old(conn.outbox) + file[..i]
      invariant Leads(h, s, run, Sent(t, out, |out| - |file| + i))
    {
      var n := if |file| - i < BUF_SIZE then |file| - i else BUF_SIZE;
      assert file[..i + n] == file[..i] + file[i..i + n];
      conn.Send(file[i..i + n]);
      run := SendPiece(h, s, run, t, out, |out| - |file| + i, n);
      i := i + n;
    }
    assert file[..i] == file;
  }

  lemma AllSent(t: State, out: seq<byte>)
    ensures Sent(t, out, |out|) == t.(server := Idle, s2c := t.s2c + out)
  {
    assert out[..|out|] == out;
  }

  datatype Directory = Entries(names: seq<seq<byte>>) | Unreadable(message: seq<byte>)

  const DOT: byte := 46

  /** The lines that response_ls sends: every name that does not start with a dot. */
  function Listing(names: seq<seq<byte>>): seq<byte> {
    if names == [] then []
    else
      var front, last := Listing(names[..|names| - 1]), names[|names| - 1];
      if last != [] && last[0] == DOT then front else front + (last + [NEWLINE])
  }

  /** A listing of "a" and "b" in a directory that holds ".git" too. */
  lemma HiddenNames()
    ensures Listing([[97], [46, 103, 105, 116], [98]]) == [97, 10, 98, 10]
  {
    var names: seq<seq<byte>> := [[97], [46, 103, 105, 116], [98]];
    assert names[..2] == [[97], [46, 103, 105, 116]] && names[..2][..1] == [[97]] && names[..1][..0] == [];
    assert Listing([[97]]) == [97, 10];
  }

  function ListingOf(dir: Directory): seq<byte> {
    match dir
    case Entries(names) => Listing(names)
    case Unreadable(message) => message
  }

  /** response_ls: one send for each name, or the message, and END. */
  method ResponseLs(h: Hosts, conn: Connection, dir: Directory, ghost s: State, ghost k: nat)
    returns (ghost run: seq<Label>)
    requires Enabled(h, s, ServerTakes(k, Text(ListingOf(dir))))
    modifies conn
    ensures conn.inbox == old(conn.inbox) && conn.outbox == old(conn.outbox) + (ListingOf(dir) + [END])
    ensures Leads(h, s, run, s.(c2s := s.c2s[k..], s2c := s.s2c + (ListingOf(dir) + [END])))
  {
    assert s.server.Idle? && k <= |s.c2s|;
    hide Leads, Enabled, Step, Sent;
    ghost var body := ListingOf(dir);
    ghost var t, out := s.(c2s := s.c2s[k..]), body + [END];
    TakeAndSend(h, s, k, Text(body), out);
    run := [ServerTakes(k, Text(body))];
    match dir {
      case Unreadable(message) =>
        conn.Send(message);
        run := SendPiece(h, s, run, t, out, 0, |message|);
      case Entries(names) =>
        run := SendNames(h, conn, names, s, run, t, out);
    }
    conn.Send([END]);
    run := SendPiece(h, s, run, t, out, |body|, 1);
    Regroup(old(conn.outbox), body, [END]);
    AllSent(t, out);
  }

  /** The loop over the directory. */
  method SendNames(h: Hosts, conn: Connection, names: seq<seq<byte>>, ghost s: State, ghost before: seq<Label>,
                   ghost t: State, ghost out: seq<byte>)
    returns (ghost run: seq<Label>)
    requires |Listing(names)| <= |out| && Leads(h, s, before, Sent(t, out, 0))
    modifies conn
    ensures conn.inbox == old(conn.inbox) && conn.outbox == old(conn.outbox) + Listing(names)
    ensures Leads(h, s, run, Sent(t, out, |Listing(names)|))
  {
    hide Leads, Sent, Listing;
    run := before;
    var i := 0;
    ListingStarts(names);
    while i < |names|
      invariant i <= |names| && conn.inbox == old(conn.inbox)
      invariant conn.outbox == old(conn.outbox) + Listing(names[..i])
      invariant |Listing(names[..i])| <= |out| && Leads(h, s, run, Sent(t, out, |Listing(names[..i])|))
    {
      ghost var sofar := Listing(names[..i]);
      ListingGrows(names, i + 1);
      ListingNext(names, i);
      if names[i] == [] || names[i][0] != DOT {
        conn.Send(names[i] + [NEWLINE]);
        run := SendPiece(h, s, run, t, out, |sofar|, |names[i]| + 1);
        Regroup(old(conn.outbox), sofar, names[i] + [NEWLINE]);
      }
      i := i + 1;
    }
    assert names[..i] == names;
  }

  lemma ListingStarts(names: seq<seq<byte>>)
    ensures Listing(names[..0]) == []
  {
  }

  lemma SendPiece(h: Hosts, s: State, run: seq<Label>, t: State, out: seq<byte>, i: nat, k: nat)
    returns (next: seq<Label>)
    requires i + k <= |out| && Leads(h, s, run, Sent(t, out, i))
    ensures Leads(h, s, next, Sent(t, out, i + k))
  {
    hide Leads, Enabled, Step;
    if k == 0 {
      next := run;
    } else {
      SendStep(h, t, out, i, k);
      OneMore(h, s, run, Sent(t, out, i), ServerSends(k));
      next := run + [ServerSends(k)];
    }
  }

  lemma ListingNext(names: seq<seq<byte>>, i: nat)
    requires i < |names|
    ensures Listing(names[..i + 1])
         == if names[i] != [] && names[i][0] == DOT then Listing(names[..i])
            else Listing(names[..i]) + (names[i] + [NEWLINE])
  {
    assert names[..i + 1][..i] == names[..i];
  }

  lemma {:induction false} ListingGrows(names: seq<seq<byte>>, i: nat)
    requires i <= |names|
    ensures |Listing(names[..i])| <= |Listing(names)|
    decreases |names| - i
  {
    if i < |names| {
      ListingGrows(names, i + 1);
      ListingNext(names, i);
    } else {
      assert names[..i] == names;
    }
  }

  // Client

  /** The client after it has written the first part of a file. */
  function Written(s: State, name: Name, size: nat, file: seq<byte>, inbox: seq<byte>): State {
    s.(client := WrittenSoFar(name, size, |file|), s2c := inbox, clientFiles := s.clientFiles[name := file])
  }

  lemma WriteStep(h: Hosts, s: State, name: Name, size: nat, file: seq<byte>, inbox: seq<byte>, m: nat)
    requires |file| < size && CanRecv(inbox, m)
    ensures Enabled(h, Written(s, name, size, file, inbox), ClientBody(m))
    ensures Step(h, Written(s, name, size, file, inbox), ClientBody(m))
         == Written(s, name, size, file + inbox[..m], inbox[m..])
  {
  }

  lemma TakeData(h: Hosts, s: State, b: seq<byte>, inbox: seq<byte>)
    requires s.client.AwaitHead? && s.s2c == b + inbox && GET_FIXED <= |b| <= BUF_SIZE && b[0] != ERROR
    ensures Enabled(h, s, ClientHead(|b|))
    ensures Step(h, s, ClientHead(|b|)) == Written(s, s.client.name, GetSize(h.client, b), b[GET_FIXED..], inbox)
  {
    hide GetSize;
    assert s.s2c[..|b|] == b && s.s2c[|b|..] == inbox;
  }

  /** The end of cmd_get with recv_file: the first receive left recvLen bytes in
      the buffer, no error among them and 9 of them before the file. */
  method RecvFile(h: Hosts, conn: Connection, buf: array<byte>, recvLen: nat, ghost s: State)
    returns (file: seq<byte>, ghost run: seq<Label>)
    requires buf.Length == BUF_SIZE && GET_FIXED <= recvLen <= BUF_SIZE && buf[0] != ERROR
    requires |buf[GET_FIXED..recvLen] + conn.inbox| >= GetSize(h.client, buf[..recvLen])
    requires s.client.AwaitHead? && s.s2c == buf[..recvLen] + conn.inbox
    modifies conn, buf
    ensures file + conn.inbox == old(buf[GET_FIXED..recvLen] + conn.inbox)
    ensures old(|buf[GET_FIXED..recvLen] + conn.inbox| == GetSize(h.client, buf[..recvLen]))
            ==> file == old(buf[GET_FIXED..recvLen] + conn.inbox) && conn.inbox == []
    ensures conn.outbox == old(conn.outbox)
    ensures Leads(h, s, run, s.(client := Prompt, s2c := conn.inbox,
                                clientFiles := s.clientFiles[s.client.name := file]))
  {
    hide GetSize, Leads, Enabled, Step;
    ghost var name, b := s.client.name, buf[..recvLen];
    var filesize := GetSize(h.client, buf[..recvLen]);
    file := buf[GET_FIXED..recvLen];
    assert file == b[GET_FIXED..];
    ghost var stream := file + conn.inbox;
    TakeData(h, s, b, conn.inbox);
    NoSteps(h, s);
    OneMore(h, s, [], s, ClientHead(recvLen));
    run := [] + [ClientHead(recvLen)];
    var t := recvLen - GET_FIXED;
    while t < filesize
      invariant t == |file| && file + conn.inbox == stream && |stream| >= filesize
      invariant Leads(h, s, run, Written(s, name, filesize, file, conn.inbox))
      invariant conn.outbox == old(conn.outbox)
      decreases |conn.inbox|
    {
      ghost var before := conn.inbox;
      var m := conn.Recv(buf, BUF_SIZE);
      WriteStep(h, s, name, filesize, file, before, m);
      OneMore(h, s, run, Written(s, name, filesize, file, before), ClientBody(m));
      run := run + [ClientBody(m)];
      t := t + m;
      Taken(file, before, m);
      file := file + buf[..m];
    }
  }

  /** The client after it has sent the first i bytes of a file. */
  function Uploaded(s: State, name: Name, size: nat, file: seq<byte>, i: nat): State
    requires i <= |file|
  {
    s.(client := Uploading(name, size, file[i..]), c2s := s.c2s + file[..i])
  }

  lemma UploadStep(h: Hosts, s: State, name: Name, size: nat, file: seq<byte>, i: nat, k: nat)
    requires 1 <= k && i + k <= |file|
    ensures Enabled(h, Uploaded(s, name, size, file, i), ClientSends(k))
    ensures Step(h, Uploaded(s, name, size, file, i), ClientSends(k)) == Uploaded(s, name, size, file, i + k)
  {
    assert file[i..][..k] == file[i..i + k] && file[i..][k..] == file[i + k..];
    assert file[..i + k] == file[..i] + file[i..i + k];
    assert s.c2s + file[..i] + file[i..i + k] == s.c2s + (file[..i] + file[i..i + k]);
  }

  lemma IssuePut(h: Hosts, s: State, name: Name, size: nat, file: seq<byte>)
    requires s.client.Prompt? && Sendable(s, Put(name, size)) && file == s.clientFiles[name]
    ensures Leads(h, s, [Issue(Put(name, size))],
                  Uploaded(s.(c2s := s.c2s + PutHeader(h.client, Size32(size), name)), name, size, file, 0))
  {
    hide PutHeader;
    var header := PutHeader(h.client, Size32(size), name);
    LastStep(h, s, Issue(Put(name, size)));
    assert file[0..] == file && s.c2s + header + file[..0] == s.c2s + header;
  }

  lemma EndStep(h: Hosts, s: State, name: Name, size: nat, file: seq<byte>)
    requires s.s2c != []
    ensures Enabled(h, Uploaded(s, name, size, file, |file|), ClientGetsEnd)
    ensures Step(h, Uploaded(s, name, size, file, |file|), ClientGetsEnd)
         == s.(client := Prompt, c2s := s.c2s + file, s2c := s.s2c[1..])
  {
    assert file[..|file|] == file && file[|file|..] == [];
  }

  /** cmd_put: header with the size that get_file_size found, file, then the
      one-byte acknowledgement. */
  method CmdPut(h: Hosts, conn: Connection, buf: array<byte>, filename: seq<byte>, fsize: nat, file: seq<byte>,
                ghost s: State)
    returns (successful: bool, ghost run: seq<Label>)
    requires buf.Length == BUF_SIZE && PUT_FIXED + |filename| <= BUF_SIZE && conn.inbox != []
    modifies conn, buf
    ensures conn.outbox == old(conn.outbox) + PutHeader(h.client, Size32(fsize), filename) + file
    ensures successful == (old(conn.inbox)[0] == END) && conn.inbox == old(conn.inbox)[1..]
    ensures && s.client.Prompt? && s.s2c == old(conn.inbox)
            && Sendable(s, Put(filename, fsize)) && s.clientFiles[filename] == file
            ==> Leads(h, s, run, s.(s2c := conn.inbox,
                                    c2s := s.c2s + PutHeader(h.client, Size32(fsize), filename) + file))
  {
    hide Leads, Enabled, Step, PutHeader, Uploaded;
    ghost var header := PutHeader(h.client, Size32(fsize), filename);
    ghost var given := && s.client.Prompt? && s.s2c == conn.inbox
                       && Sendable(s, Put(filename, fsize)) && s.clientFiles[filename] == file;
    ghost var t := s.(c2s := s.c2s + header);
    FillHeader(h.client, buf, Size32(fsize), filename);
    conn.Send(buf[..PUT_FIXED + |filename|]);
    run := [Issue(Put(filename, fsize))];
    if given {
      IssuePut(h, s, filename, fsize, file);
    }
    run := Upload(h, conn, file, filename, fsize, s, run, t, given);
    if given {
      EndStep(h, t, filename, fsize, file);
      OneMore(h, s, run, Uploaded(t, filename, fsize, file, |file|), ClientGetsEnd);
    }
    run := run + [ClientGetsEnd];
    var n := conn.Recv(buf, 1);
    successful := buf[0] == END;
  }

  /** The loop over the file in buffers of at most 1024 bytes. */
  method Upload(h: Hosts, conn: Connection, file: seq<byte>, ghost name: Name, ghost size: nat, ghost s: State,
                ghost before: seq<Label>, ghost t: State, ghost given: bool)
    returns (ghost run: seq<Label>)
    requires given ==> Leads(h, s, before, Uploaded(t, name, size, file, 0))
    modifies conn
    ensures conn.outbox == old(conn.outbox) + file && conn.inbox == old(conn.inbox)
    ensures given ==> Leads(h, s, run, Uploaded(t, name, size, file, |file|))
  {
    hide Leads, Enabled, Step, Uploaded;
    run := before;
    var i := 0;
    while i < |file|
      invariant i <= |file| && conn.inbox == old(conn.inbox)
      invariant conn.outbox == old(conn.outbox) + file[..i]
      invariant given ==> Leads(h, s, run, Uploaded(t, name, size, file, i))
    {
      var n := if |file| - i < BUF_SIZE then |file| - i else BUF_SIZE;
      assert file[..i + n] == file[..i] + file[i..i + n];
      conn.Send(file[i..i + n]);
      if given {
        UploadStep(h, t, name, size, file, i, n);
        OneMore(h, s, run, Uploaded(t, name, size, file, i), ClientSends(n));
      }
      run := run + [ClientSends(n)];
      i := i + n;
    }
    assert file[..i] == file;
  }

  /** The stores that build the put header in the buffer. */
  method FillHeader(client: ByteOrder, buf: array<byte>, fsize: uint32, filename: seq<byte>)
    requires buf.Length == BUF_SIZE && PUT_FIXED + |filename| <= BUF_SIZE
    modifies buf
    ensures buf[..PUT_FIXED + |filename|] == PutHeader(client, fsize, filename)
  {
    hide PutSizeField, Store32, Htonl;
    var size, length := PutSizeField(client, fsize), Store32(client, Htonl(client, |filename|));
    Store(buf, 0, [PUT]);
    Store(buf, 1, size);
    Store(buf, 9, length);
    Store(buf, 13, filename);
    assert buf[..PUT_FIXED + |filename|] == [PUT] + size + length + filename;
  }

  method Store(buf: array<byte>, at: nat, s: seq<byte>)
    requires at + |s| <= buf.Length
    modifies buf
    ensures buf[..at + |s|] == old(buf[..at]) + s
  {
    forall i | 0 <= i < |s| {
      buf[at + i] := s[i];
    }
  }

  /** The inner loop of PRINT_RESPONSE_BODY over what one receive brought. */
  method PutChars(buf: array<byte>, n: nat) returns (put: seq<byte>, ended: bool)
    requires n <= buf.Length
    ensures put == BeforeEnd(buf[..n]) && ended == (END in buf[..n])
  {
    put := [];
    ghost var text := buf[..n];
    var s := 0;
    while s < n
      invariant s <= n && put == text[..s] && END !in put
    {
      assert text == put + text[s..];
      BeforeEndConcat(put, text[s..]);
      if buf[s] == END {
        assert text[s] == END;
        return put, true;
      }
      put := put + [buf[s]];
      s := s + 1;
    }
    BeforeEndConcat(text, []);
    assert text == text + [];
    ended := false;
  }

  /** The remainder of a stream. */
  predicate EndOf(rest: seq<byte>, stream: seq<byte>) {
    |rest| <= |stream| && rest == stream[|stream| - |rest|..]
  }

  /** The client that prints a reply: what it has shown and what is still to come. */
  function Shown(s: State, put: seq<byte>, ended: bool, inbox: seq<byte>): State {
    s.(client := if ended then Prompt else Printing, s2c := inbox,
       screen := if ended then s.screen + put + [NEWLINE] else s.screen + put)
  }

  /** One receive of PRINT_RESPONSE_BODY and its inner loop. */
  method PutReceived(h: Hosts, conn: Connection, buf: array<byte>, ghost s: State, ghost shown: seq<byte>)
    returns (put: seq<byte>, ended: bool, ghost n: nat)
    requires buf.Length == BUF_SIZE && END in conn.inbox
    modifies conn, buf
    ensures BeforeEnd(old(conn.inbox)) == if ended then put else put + BeforeEnd(conn.inbox)
    ensures ended || END in conn.inbox
    ensures |put| + (if ended then 1 else 0) + |conn.inbox| <= |old(conn.inbox)|
    ensures |conn.inbox| < |old(conn.inbox)|
    ensures EndOf(conn.inbox, old(conn.inbox)) && conn.outbox == old(conn.outbox)
    ensures Enabled(h, Shown(s, shown, false, old(conn.inbox)), ClientPrints(n))
    ensures Step(h, Shown(s, shown, false, old(conn.inbox)), ClientPrints(n))
         == Shown(s, shown + put, ended, conn.inbox)
  {
    ghost var before := conn.inbox;
    var m := conn.Recv(buf, BUF_SIZE);
    n := m;
    put, ended := PutChars(buf, m);
    Received(before, m);
    PrintStep(h, s, shown, before, m);
  }

  lemma PrintStep(h: Hosts, s: State, shown: seq<byte>, inbox: seq<byte>, n: nat)
    requires CanRecv(inbox, n)
    ensures Enabled(h, Shown(s, shown, false, inbox), ClientPrints(n))
    ensures Step(h, Shown(s, shown, false, inbox), ClientPrints(n))
         == Shown(s, shown + BeforeEnd(inbox[..n]), END in inbox[..n], inbox[n..])
  {
    BeforeEndConcat(inbox[..n], []);
    assert inbox[..n] + [] == inbox[..n];
    Regroup(s.screen, shown, BeforeEnd(inbox[..n]));
  }

  /** PRINT_RESPONSE_BODY: prints the reply up to the first END and a newline.
      What it leaves to be received is the end of the stream after that END. */
  method PrintResponseBody(h: Hosts, conn: Connection, buf: array<byte>, ghost s: State)
    returns (printed: seq<byte>, ghost run: seq<Label>)
    requires buf.Length == BUF_SIZE && END in conn.inbox
    requires s.client.Printing? && s.s2c == conn.inbox
    modifies conn, buf
    ensures printed == BeforeEnd(old(conn.inbox)) + [NEWLINE]
    ensures |printed| + |conn.inbox| <= |old(conn.inbox)|
    ensures EndOf(conn.inbox, old(conn.inbox)) && conn.outbox == old(conn.outbox)
    ensures Leads(h, s, run, s.(client := Prompt, s2c := conn.inbox, screen := s.screen + printed))
  {
    hide Leads, Enabled, Step, BeforeEnd;
    printed := [];
    ghost var all := conn.inbox;
    var ended := false;
    NoSteps(h, s);
    assert s.screen + [] == s.screen;
    run := [];
    while !ended
      invariant |printed| + (if ended then 1 else 0) + |conn.inbox| <= |all|
      invariant EndOf(conn.inbox, all) && conn.outbox == old(conn.outbox)
      invariant BeforeEnd(all) == if ended then printed else printed + BeforeEnd(conn.inbox)
      invariant ended || END in conn.inbox
      invariant Leads(h, s, run, Shown(s, printed, ended, conn.inbox))
      decreases |conn.inbox|
    {
      ghost var before := conn.inbox;
      var put;
      ghost var n;
      put, ended, n := PutReceived(h, conn, buf, s, printed);
      OneMore(h, s, run, Shown(s, printed, false, before), ClientPrints(n));
      run := run + [ClientPrints(n)];
      EndOfEnd(conn.inbox, before, all);
      Regroup(printed, put, BeforeEnd(conn.inbox));
      printed := printed + put;
    }
    Regroup(s.screen, printed, [NEWLINE]);
    printed := printed + [NEWLINE];
  }

  lemma EndOfEnd(rest: seq<byte>, stream: seq<byte>, all: seq<byte>)
    requires EndOf(rest, stream) && EndOf(stream, all)
    ensures EndOf(rest, all)
  {
  }

  lemma Regroup(a: seq<byte>, b: seq<byte>, c: seq<byte>)
    ensures a + (b + c) == a + b + c
  {
  }

  lemma Received(stream: seq<byte>, n: nat)
    requires n <= |stream|
    ensures BeforeEnd(stream)
         == if END in stream[..n] then BeforeEnd(stream[..n]) else BeforeEnd(stream[..n]) + BeforeEnd(stream[n..])
    ensures |BeforeEnd(stream[..n])| <= n && (END in stream[..n] ==> |BeforeEnd(stream[..n])| < n)
    ensures END in stream ==> END in stream[..n] || END in stream[n..]
  {
    assert stream == stream[..n] + stream[n..];
    BeforeEndConcat(stream[..n], stream[n..]);
    BeforeEndConcat(stream[..n], []);
    assert stream[..n] + [] == stream[..n];
    BeforeEndShorter(stream[..n]);
  }

  lemma {:induction false} BeforeEndShorter(s: seq<byte>)
    ensures |BeforeEnd(s)| <= |s| && (END in s ==> |BeforeEnd(s)| < |s|)
  {
    if s != [] && s[0] != END {
      BeforeEndShorter(s[1..]);
      assert s == [s[0]] + s[1..];
    }
  }

  lemma BeforeEndFirst(x: byte, s: seq<byte>)
    ensures BeforeEnd([x] + s) == if x == END then [] else [x] + BeforeEnd(s)
  {
    assert ([x] + s)[1..] == s;
  }

  lemma {:induction false} BeforeEndConcat(a: seq<byte>, b: seq<byte>)
    ensures BeforeEnd(a + b) == if END in a then BeforeEnd(a) else a + BeforeEnd(b)
  {
    if a == [] {
      assert a + b == b;
    } else {
      hide BeforeEnd;
      var x, rest := a[0], a[1..];
      assert a == [x] + rest && a + b == [x] + (rest + b);
      BeforeEndFirst(x, rest);
      BeforeEndFirst(x, rest + b);
      BeforeEndConcat(rest, b);
      Regroup([x], rest, BeforeEnd(b));
    }
  }
}
