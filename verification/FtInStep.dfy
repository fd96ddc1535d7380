/**
 Exactly which commands leave the two sides of a session in step. For a command
 that fits, no run gets stuck, and every run that ends at the prompt leaves both
 channels empty; for one that does not, there is a run that ends at the prompt
 with bytes left over, which the next command will take for its own, or one in
 which both sides wait for ever.
 */
module FtInStep {
  import opened Bytes
  import opened FtWire
  import opened FtSession
  import opened FtRuns

  /** What the server can decide about a command in a state. */
  predicate CanDecide(h: Hosts, s: State, cmd: Command, reply: Reply)
    requires Sendable(s, cmd)
  {
    CanTake(h, Request(h, s, cmd)) && Answers(h, s, Request(h, s, cmd), reply)
  }

  lemma WhatIsDecided(h: Hosts, s: State, cmd: Command, reply: Reply)
    requires Sendable(s, cmd) && CanDecide(h, s, cmd, reply)
    ensures match cmd
      case Put(_, _) => reply.Accepted?
      case Get(name) =>
        reply.Failure? || (reply.Contents? && name in s.serverFiles && reply.file == s.serverFiles[name])
      case _ => reply.Text?
  {
    if cmd.Get? {
      WhatIsAnswered(h, s, cmd.name, reply);
    }
    hide PaddedRequest, PutHeader, PutNameLength, FirstWord;
  }

  /** Steps of the two programs after cmd was given at a quiet prompt, with the
      server deciding as given. */
  predicate Executes(h: Hosts, s: State, cmd: Command, reply: Reply, run: seq<Label>)
    requires Quiet(s) && Sendable(s, cmd)
  {
    && Possible(h, Step(h, s, Issue(cmd)), run) && Unprompted(run)
    && forall i | 0 <= i < |run| && run[i].ServerTakes? :: run[i].reply == reply
  }

  function Outcome(h: Hosts, s: State, cmd: Command, reply: Reply, run: seq<Label>): State
    requires Quiet(s) && Sendable(s, cmd) && Executes(h, s, cmd, reply, run)
  {
    After(h, Step(h, s, Issue(cmd)), run)
  }

  /** The client is not at its prompt, and neither side can go on. */
  ghost predicate Stuck(h: Hosts, s: State) {
    !s.client.Prompt? && forall l :: !Enabled(h, s, l)
  }

  ghost predicate InOrder(h: Hosts, s: State) {
    (s.client.Prompt? ==> Quiet(s)) && !Stuck(h, s)
  }

  ghost predicate StaysInStep(h: Hosts, s: State, cmd: Command, reply: Reply)
    requires Quiet(s) && Sendable(s, cmd)
  {
    forall run | Executes(h, s, cmd, reply, run) :: InOrder(h, Outcome(h, s, cmd, reply, run))
  }

  // Commands that fit

  lemma FollowsInOrder(h: Hosts, a: Session, s: State)
    requires Follows(h, a, s)
    ensures InOrder(h, s)
  {
    hide Enabled;
    if a.current.Some? {
      NeverStuck(h, a, s);
      hide Follows, Next;
      assert Enabled(h, s, Next(s));
    }
    if s.client.Prompt? {
      PromptIsQuiet(h, a, s);
    }
  }

  lemma {:induction false} RunKeepsStep(h: Hosts, a: Session, s: State, reply: Reply, run: seq<Label>)
    requires Follows(h, a, s) && Possible(h, s, run) && Unprompted(run)
    requires a.current.Some? && a.current.reply.Pending? ==> Fits(h, a.world, a.current.cmd, reply)
    requires forall i | 0 <= i < |run| && run[i].ServerTakes? :: run[i].reply == reply
    ensures InOrder(h, After(h, s, run))
    decreases |run|
  {
    hide Executed, Step, Enabled, GetInProgress, PutInProgress, TextInProgress, PaddedRequest, Fits, InOrder;
    if run == [] {
      FollowsInOrder(h, a, s);
    } else {
      var l := run[0];
      StepDecides(h, a, s, l);
      StepFollows(h, a, s, l);
      assert forall i | 0 <= i < |run[1..]| :: run[1..][i] == run[i + 1];
      RunKeepsStep(h, Follow(a, l, Step(h, s, l)), Step(h, s, l), reply, run[1..]);
    }
  }

  lemma FittingStays(h: Hosts, s: State, cmd: Command, reply: Reply)
    requires Quiet(s) && Sendable(s, cmd) && Fits(h, Visible(s), cmd, reply)
    ensures StaysInStep(h, s, cmd, reply)
  {
    var a := Session(Visible(s), Some(cmd, Pending));
    IssueFollows(h, s, cmd);
    hide Step, Enabled, Fits, Quiet, Follows, InOrder;
    forall run | Executes(h, s, cmd, reply, run)
      ensures InOrder(h, Outcome(h, s, cmd, reply, run))
    {
      RunKeepsStep(h, a, Step(h, s, Issue(cmd)), reply, run);
    }
  }

  // Commands that do not

  /** Steps that neither start nor decide a command. */
  predicate Plain(run: seq<Label>) {
    forall i | 0 <= i < |run| :: !run[i].Issue? && !run[i].ServerTakes?
  }

  lemma StoresPiece(h: Hosts, s: State, k: nat)
    requires s.server.Storing? && s.server.name in s.serverFiles && CanRecv(s.c2s, k)
    ensures Enabled(h, s, ServerStores(k))
    ensures Step(h, s, ServerStores(k))
         == s.(server := StoredSoFar(s.server.name, s.server.size, s.server.got + k), c2s := s.c2s[k..],
               serverFiles := s.serverFiles[s.server.name := s.serverFiles[s.server.name] + s.c2s[..k]])
  {
  }

  lemma WritesPiece(h: Hosts, s: State, k: nat)
    requires s.client.Downloading? && s.client.name in s.clientFiles && CanRecv(s.s2c, k)
    ensures Enabled(h, s, ClientBody(k))
    ensures Step(h, s, ClientBody(k))
         == s.(client := WrittenSoFar(s.client.name, s.client.size, s.client.got + k), s2c := s.s2c[k..],
               clientFiles := s.clientFiles[s.client.name := s.clientFiles[s.client.name] + s.s2c[..k]])
  {
  }

  /** The server stores the next n bytes. */
  lemma {:induction false} StoreBytes(h: Hosts, s: State, n: nat) returns (run: seq<Label>)
    requires s.server.Storing? && s.server.got < s.server.size && s.server.name in s.serverFiles
    requires n <= |s.c2s| && s.server.got + n <= s.server.size
    ensures Plain(run) && Possible(h, s, run)
    ensures var t := After(h, s, run);
      t == s.(server := StoredSoFar(s.server.name, s.server.size, s.server.got + n), c2s := s.c2s[n..],
              serverFiles := t.serverFiles)
    decreases n
  {
    hide Enabled, Step;
    if n == 0 {
      run := [];
    } else {
      var k := UpTo(n);
      StoresPiece(h, s, k);
      var t := Step(h, s, ServerStores(k));
      var rest := [];
      if k < n {
        rest := StoreBytes(h, t, n - k);
        assert s.c2s[k..][n - k..] == s.c2s[n..];
      }
      run := [ServerStores(k)] + rest;
      FirstStep(h, s, ServerStores(k), rest);
    }
  }

  /** The client writes the next n bytes. */
  lemma {:induction false} WriteBytes(h: Hosts, s: State, n: nat) returns (run: seq<Label>)
    requires s.client.Downloading? && s.client.got < s.client.size && s.client.name in s.clientFiles
    requires n <= |s.s2c| && s.client.got + n <= s.client.size
    ensures Plain(run) && Possible(h, s, run)
    ensures var t := After(h, s, run);
      t == s.(client := WrittenSoFar(s.client.name, s.client.size, s.client.got + n), s2c := s.s2c[n..],
              clientFiles := t.clientFiles)
    decreases n
  {
    hide Enabled, Step;
    if n == 0 {
      run := [];
    } else {
      var k := UpTo(n);
      WritesPiece(h, s, k);
      var t := Step(h, s, ClientBody(k));
      var rest := [];
      if k < n {
        rest := WriteBytes(h, t, n - k);
        assert s.s2c[k..][n - k..] == s.s2c[n..];
      }
      run := [ClientBody(k)] + rest;
      FirstStep(h, s, ClientBody(k), rest);
    }
  }

  function Least(a: nat, b: nat): nat {
    if a < b then a else b
  }

  /** The client prints up to an END byte that is not the last and leaves the rest
      in the channel. */
  lemma {:induction false} PrintToEnd(h: Hosts, s: State) returns (run: seq<Label>)
    requires s.client.Printing? && s.s2c != [] && END in s.s2c[..|s.s2c| - 1]
    ensures Plain(run) && Possible(h, s, run)
    ensures After(h, s, run).client.Prompt? && After(h, s, run).s2c != []
    decreases |s.s2c|
  {
    var l, t := ClientPrints(1), Step(h, s, ClientPrints(1));
    assert s.s2c[..1] == [s.s2c[0]];
    if s.s2c[0] == END {
      run := [l];
      LastStep(h, s, l);
    } else {
      assert t.s2c[..|t.s2c| - 1] == s.s2c[..|s.s2c| - 1][1..];
      var rest := PrintToEnd(h, t);
      run := [l] + rest;
      FirstStep(h, s, l, rest);
    }
  }

  /** The server takes header and name alone. */
  lemma HeaderTakenAlone(h: Hosts, s: State, name: Name, size: nat)
    requires s.server.Idle? && |name| < 256 && s.c2s == PutHeader(h.client, Size32(size), name)
    ensures Enabled(h, s, ServerTakes(|s.c2s|, Accepted))
    ensures Step(h, s, ServerTakes(|s.c2s|, Accepted))
         == s.(c2s := [], serverFiles := s.serverFiles[name := []],
               server := StoredSoFar(name, PutAnnounced(h.client, h.server, size), 0))
  {
    hide ReadSize, PutHeader, PutAnnounced, PutSize, PutNameLength;
    var header := s.c2s;
    assert header + [] == header && header[..|header|] == header;
    PutFits(h, s, size, [], name, []);
    PutPrefix(h, header, [], name, size, []);
    assert PutRest(h, header) == [] by { NothingBefore(PutRest(h, header), []); }
  }

  /** The client sends the whole file. */
  lemma SendsAll(h: Hosts, s: State) returns (run: seq<Label>)
    requires s.client.Uploading?
    ensures Plain(run) && Possible(h, s, run)
    ensures After(h, s, run)
         == s.(client := Uploading(s.client.name, s.client.size, []), c2s := s.c2s + s.client.unsent)
  {
    var unsent := s.client.unsent;
    if unsent == [] {
      assert s.c2s + [] == s.c2s;
      run := [];
    } else {
      assert unsent[..|unsent|] == unsent && unsent[|unsent|..] == [];
      LastStep(h, s, ClientSends(|unsent|));
      run := [ClientSends(|unsent|)];
    }
  }

  /** The state of a put once the server has taken header and name alone and the
      client has sent the file. */
  function TakenAlone(h: Hosts, s: State, name: Name, size: nat): State
    requires Sendable(s, Put(name, size))
  {
    s.(client := Uploading(name, size, []), c2s := s.clientFiles[name], serverFiles := s.serverFiles[name := []],
       server := StoredSoFar(name, PutAnnounced(h.client, h.server, size), 0))
  }

  lemma PutIssued(h: Hosts, s: State, name: Name, size: nat)
    requires Quiet(s) && Sendable(s, Put(name, size))
    ensures Step(h, s, Issue(Put(name, size)))
         == s.(client := Uploading(name, size, s.clientFiles[name]), c2s := PutHeader(h.client, Size32(size), name))
  {
    hide PutHeader;
    var header := PutHeader(h.client, Size32(size), name);
    assert [] + header == header;
  }

  lemma PutTakenAlone(h: Hosts, s: State, name: Name, size: nat) returns (run: seq<Label>)
    requires Quiet(s) && Sendable(s, Put(name, size))
    ensures Possible(h, Step(h, s, Issue(Put(name, size))), run)
    ensures After(h, Step(h, s, Issue(Put(name, size))), run) == TakenAlone(h, s, name, size)
    ensures Unprompted(run) && forall i | 0 <= i < |run| && run[i].ServerTakes? :: run[i].reply == Accepted
  {
    var header, file := PutHeader(h.client, Size32(size), name), s.clientFiles[name];
    var s1 := Step(h, s, Issue(Put(name, size)));
    hide Step, Enabled, Possible, After, PutHeader, PutAnnounced, StoredSoFar;
    PutIssued(h, s, name, size);
    HeaderTakenAlone(h, s1, name, size);
    var take := ServerTakes(|header|, Accepted);
    var rest := SendsAll(h, Step(h, s1, take));
    assert [] + file == file;
    FirstStep(h, s1, take, rest);
    run := [take] + rest;
  }

  lemma NothingBefore(a: seq<byte>, b: seq<byte>)
    requires a + b == b
    ensures a == []
  {
    assert |a + b| == |a| + |b|;
  }

  /** After the last byte the server acknowledges and the client is back at its
      prompt. */
  lemma Acknowledged(h: Hosts, s: State) returns (run: seq<Label>)
    requires s.server == Sending([END]) && s.client.Uploading? && s.client.unsent == [] && s.s2c == []
    ensures Plain(run) && Possible(h, s, run)
    ensures After(h, s, run) == s.(server := Idle, client := Prompt)
  {
    var sends, gets := ServerSends(1), ClientGetsEnd;
    var t := Step(h, s, sends);
    assert t.s2c == [END] by { assert [] + [END][..1] == [END]; }
    LastStep(h, t, gets);
    FirstStep(h, s, sends, [gets]);
    run := [sends] + [gets];
  }

  /** Both sides wait: the server for bytes of a file that the client has sent in
      full, or the client for bytes of one that the server has. */
  lemma BothWait(h: Hosts, s: State)
    requires s.c2s == [] && s.s2c == []
    requires || (s.client.Uploading? && s.client.unsent == [] && s.server.Storing?)
             || (s.client.Downloading? && s.server.Idle?)
    ensures Stuck(h, s)
  {
    hide WholeRequest, CanTake, Answers, WholeHead;
    forall l ensures !Enabled(h, s, l) {
    }
  }

  /** What the server does with the file of a put. */
  lemma StoreFile(h: Hosts, s: State, name: Name, size: nat) returns (run: seq<Label>)
    requires Sendable(s, Put(name, size)) && s.s2c == []
    ensures var t, file := TakenAlone(h, s, name, size), s.clientFiles[name];
      && Plain(run) && Possible(h, t, run)
      && var n := Least(PutAnnounced(h.client, h.server, size), |file|);
         After(h, t, run)
         == t.(server := StoredSoFar(name, PutAnnounced(h.client, h.server, size), n), c2s := file[n..],
               serverFiles := After(h, t, run).serverFiles)
  {
    hide PutAnnounced, Enabled, Step;
    var t := TakenAlone(h, s, name, size);
    if t.server.Storing? {
      run := StoreBytes(h, t, Least(t.server.size, |t.c2s|));
    } else {
      run := [];
      assert t.c2s[0..] == t.c2s;
    }
  }

  /** At the prompt with bytes left over if more was sent than announced, and with
      both sides waiting otherwise. */
  ghost predicate EndsBadly(h: Hosts, s: State, more: bool, left: seq<byte>) {
    if more then s.client.Prompt? && s.server.Idle? && left != [] else Stuck(h, s)
  }

  lemma MisfitPut(h: Hosts, s: State, name: Name, size: nat) returns (run: seq<Label>)
    requires Quiet(s) && Sendable(s, Put(name, size)) && !PutFitting(h, size, s.clientFiles[name])
    ensures Executes(h, s, Put(name, size), Accepted, run)
    ensures var t := Outcome(h, s, Put(name, size), Accepted, run);
      EndsBadly(h, t, PutAnnounced(h.client, h.server, size) < |s.clientFiles[name]|, t.c2s)
  {
    var announced, file := PutAnnounced(h.client, h.server, size), s.clientFiles[name];
    hide Step, Enabled, PutAnnounced, Stuck;
    var t := TakenAlone(h, s, name, size);
    var first := PutTakenAlone(h, s, name, size);
    var rest := StoreFile(h, s, name, size);
    var stored := After(h, t, rest);
    if announced < |file| {
      var last := Acknowledged(h, stored);
      Append(h, t, rest, last);
      rest := rest + last;
    } else {
      BothWait(h, stored);
    }
    Append(h, Step(h, s, Issue(Put(name, size))), first, rest);
    run := first + rest;
  }

  /** The state of a get once the server has sent everything. */
  lemma GetAllSent(h: Hosts, s: State, name: Name, size: nat, file: seq<byte>) returns (t: State, run: seq<Label>)
    requires Quiet(s) && Sendable(s, Get(name)) && name in s.serverFiles && file == s.serverFiles[name]
    ensures Possible(h, Step(h, s, Issue(Get(name))), run) && After(h, Step(h, s, Issue(Get(name))), run) == t
    ensures t == s.(client := AwaitHead(name), s2c := GetHeader(h.server, Size32(size)) + file)
    ensures Unprompted(run) && forall i | 0 <= i < |run| && run[i].ServerTakes? :: run[i].reply == Contents(size, file)
  {
    hide ReadSize, FirstWord, PaddedRequest, GetHeader;
    var s1, request := Step(h, s, Issue(Get(name))), PaddedRequest(GET, name);
    assert s1.c2s == request by { assert [] + request == request; }
    GetNameRoundTrip(name);
    assert request[..BUF_SIZE] == request;
    var out := GetHeader(h.server, Size32(size)) + file;
    var take, send := ServerTakes(BUF_SIZE, Contents(size, file)), ServerSends(|out|);
    var s2 := Step(h, s1, take);
    assert request[BUF_SIZE..] == [];
    t := Step(h, s2, send);
    assert t.s2c == out by { assert [] + out[..|out|] == out; }
    LastStep(h, s2, send);
    FirstStep(h, s1, take, [send]);
    run := [take] + [send];
  }

  lemma MisfitGet(h: Hosts, s: State, name: Name, size: nat, file: seq<byte>) returns (run: seq<Label>)
    requires Quiet(s) && Sendable(s, Get(name)) && name in s.serverFiles && file == s.serverFiles[name]
    requires !GetFitting(h, size, file)
    ensures Executes(h, s, Get(name), Contents(size, file), run)
    ensures var t := Outcome(h, s, Get(name), Contents(size, file), run);
      EndsBadly(h, t, GetAnnounced(h.client, size) < |file|, t.s2c)
  {
    var announced := GetAnnounced(h.client, size);
    var t, first := GetAllSent(h, s, name, size, file);
    var u := HeadTaken(h, t, name, size, file);
    hide Step, Enabled, GetAnnounced, Stuck;
    var rest := [];
    if u.client.Downloading? {
      rest := WriteBytes(h, u, Least(announced, |file|));
    }
    if announced > |file| {
      BothWait(h, After(h, u, rest));
    }
    var head := ClientHead(GET_FIXED);
    FirstStep(h, t, head, rest);
    Append(h, Step(h, s, Issue(Get(name))), first, [head] + rest);
    run := first + ([head] + rest);
  }

  /** The client has received the header alone. */
  lemma HeadTaken(h: Hosts, t: State, name: Name, size: nat, file: seq<byte>) returns (u: State)
    requires t.client == AwaitHead(name) && t.s2c == GetHeader(h.server, Size32(size)) + file
    ensures Enabled(h, t, ClientHead(GET_FIXED)) && u == Step(h, t, ClientHead(GET_FIXED))
    ensures u == t.(client := WrittenSoFar(name, GetAnnounced(h.client, size), 0), s2c := file,
                    clientFiles := t.clientFiles[name := []])
  {
    hide ReadSize, GetHeader, GetAnnounced;
    var header := GetHeader(h.server, Size32(size));
    assert t.s2c[..GET_FIXED] == header && t.s2c[GET_FIXED..] == file;
    HeadPrefix(h, header, file, size, file);
    assert header[GET_FIXED..] == [];
    u := Step(h, t, ClientHead(GET_FIXED));
  }

  lemma MisfitText(h: Hosts, s: State, cmd: Command, body: seq<byte>) returns (run: seq<Label>)
    requires Quiet(s) && Sendable(s, cmd) && !cmd.Get? && !cmd.Put? && END in body
    ensures Executes(h, s, cmd, Text(body), run)
    ensures var t := Outcome(h, s, cmd, Text(body), run); t.client.Prompt? && t.s2c != []
  {
    var s1 := Step(h, s, Issue(cmd));
    var t, first := TextAllSent(h, s, cmd, body);
    hide Step, Enabled;
    assert t.s2c[..|t.s2c| - 1] == body;
    var rest := PrintToEnd(h, t);
    Append(h, s1, first, rest);
    run := first + rest;
  }

  lemma SendsWhole(h: Hosts, s: State)
    requires s.server.Sending? && s.server.out != [] && s.s2c == []
    ensures Enabled(h, s, ServerSends(|s.server.out|))
    ensures Step(h, s, ServerSends(|s.server.out|)) == s.(server := Idle, s2c := s.server.out)
  {
    var out := s.server.out;
    assert [] + out[..|out|] == out;
  }

  lemma TextTaken(h: Hosts, s: State, request: seq<byte>, body: seq<byte>)
    requires s.server.Idle? && s.c2s == request && WholeRequest(h, request) && |request| <= BUF_SIZE
    requires request[0] != GET && request[0] != PUT
    ensures Enabled(h, s, ServerTakes(|request|, Text(body)))
    ensures Step(h, s, ServerTakes(|request|, Text(body))) == s.(c2s := [], server := Sending(body + [END]))
  {
    assert request != [];
    hide WholeRequest, CanTake;
    assert request[..|request|] == request && request[|request|..] == [];
  }

  /** The state of a listing once the server has sent everything. */
  lemma TextAllSent(h: Hosts, s: State, cmd: Command, body: seq<byte>) returns (t: State, run: seq<Label>)
    requires Quiet(s) && Sendable(s, cmd) && !cmd.Get? && !cmd.Put?
    ensures Possible(h, Step(h, s, Issue(cmd)), run) && After(h, Step(h, s, Issue(cmd)), run) == t
    ensures t == s.(client := Printing, s2c := body + [END])
    ensures Unprompted(run) && forall i | 0 <= i < |run| && run[i].ServerTakes? :: run[i].reply == Text(body)
  {
    var s1, request := Step(h, s, Issue(cmd)), Request(h, s, cmd);
    assert s1 == s.(client := Printing, c2s := request) by { assert [] + request == request; }
    assert WholeRequest(h, request) && request[0] != GET && request[0] != PUT;
    hide Step, Enabled, WholeRequest, CanTake, Request, Possible, After;
    TextTaken(h, s1, request, body);
    var take, send := ServerTakes(|request|, Text(body)), ServerSends(|body + [END]|);
    var s2 := Step(h, s1, take);
    SendsWhole(h, s2);
    LastStep(h, s2, send);
    FirstStep(h, s1, take, [send]);
    t, run := Step(h, s2, send), [take] + [send];
  }

  /** A command leaves the two sides in step and never stuck, however the bytes
      are cut up, if and only if it fits: a file whose announced size is the number
      of its bytes, or a text without END. */
  lemma InStepExactly(h: Hosts, s: State, cmd: Command, reply: Reply)
    requires Quiet(s) && Sendable(s, cmd) && CanDecide(h, s, cmd, reply)
    ensures StaysInStep(h, s, cmd, reply) <==> Fits(h, Visible(s), cmd, reply)
  {
    WhatIsDecided(h, s, cmd, reply);
    hide Step, Enabled, Sendable, CanDecide, PutFitting, GetFitting, PutAnnounced, GetAnnounced, Stuck;
    if Fits(h, Visible(s), cmd, reply) {
      FittingStays(h, s, cmd, reply);
    } else {
      var run: seq<Label>;
      match cmd {
        case Put(name, size) => run := MisfitPut(h, s, name, size);
        case Get(name) => run := MisfitGet(h, s, name, reply.size, reply.file);
        case _ => run := MisfitText(h, s, cmd, reply.body);
      }
      assert Executes(h, s, cmd, reply, run) && !InOrder(h, Outcome(h, s, cmd, reply, run));
    }
  }
}
