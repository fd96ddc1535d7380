/**
 Runs of the session of FtSession: every run whose commands fit refines the
 abstract session, and none gets stuck.
 */
module FtRuns {
  import opened Bytes
  import opened FtWire
  import opened FtSession

  predicate Possible(h: Hosts, s: State, run: seq<Label>)
    decreases |run|
  {
    run == [] || (Enabled(h, s, run[0]) && Possible(h, Step(h, s, run[0]), run[1..]))
  }

  function After(h: Hosts, s: State, run: seq<Label>): State
    requires Possible(h, s, run)
    decreases |run|
  {
    if run == [] then s else After(h, Step(h, s, run[0]), run[1..])
  }

  lemma FirstStep(h: Hosts, s: State, l: Label, rest: seq<Label>)
    requires Enabled(h, s, l) && Possible(h, Step(h, s, l), rest)
    ensures Possible(h, s, [l] + rest) && After(h, s, [l] + rest) == After(h, Step(h, s, l), rest)
  {
    hide Enabled, Step;
    assert ([l] + rest)[0] == l && ([l] + rest)[1..] == rest;
  }

  lemma LastStep(h: Hosts, s: State, l: Label)
    requires Enabled(h, s, l)
    ensures Possible(h, s, [l]) && After(h, s, [l]) == Step(h, s, l)
  {
    hide Enabled, Step;
    FirstStep(h, s, l, []);
    assert [l] + [] == [l];
  }

  lemma {:induction false} Append(h: Hosts, s: State, run: seq<Label>, more: seq<Label>)
    requires Possible(h, s, run) && Possible(h, After(h, s, run), more)
    ensures Possible(h, s, run + more) && After(h, s, run + more) == After(h, After(h, s, run), more)
    decreases |run|
  {
    hide Enabled, Step;
    if run == [] {
      assert run + more == more;
    } else {
      Append(h, Step(h, s, run[0]), run[1..], more);
      FirstStep(h, s, run[0], run[1..] + more);
      assert [run[0]] + (run[1..] + more) == run + more;
    }
  }

  function Start(w: World): State {
    State(Prompt, Idle, [], [], w.clientFiles, w.serverFiles, w.screen)
  }

  /** The commands a run carried out: what the client asked, in order, each with
      what the server decided. */
  function Exchanged(run: seq<Label>, asked: Command): seq<(Command, Reply)> {
    if run == [] then []
    else match run[0]
      case Issue(cmd) => Exchanged(run[1..], cmd)
      case ServerTakes(_, reply) => [(asked, reply)] + Exchanged(run[1..], asked)
      case _ => Exchanged(run[1..], asked)
  }

  function ExecutedAll(w: World, done: seq<(Command, Reply)>): World
    decreases |done|
  {
    if done == [] then w else ExecutedAll(Executed(w, done[0].0, done[0].1), done[1..])
  }

  /** The world once the current command is through, if its fate is decided. */
  function Decided(a: Session): World {
    if a.current.Some? && a.current.reply.Given? then Executed(a.world, a.current.cmd, a.current.reply.reply)
    else a.world
  }

  /** Each of the commands fits in the world it is executed in. */
  predicate AllFit(h: Hosts, w: World, done: seq<(Command, Reply)>)
    decreases |done|
  {
    done == [] || (Fits(h, w, done[0].0, done[0].1) && AllFit(h, Executed(w, done[0].0, done[0].1), done[1..]))
  }

  /** Each fits in the world that those before it leave. */
  lemma {:induction false} AllFitExactly(h: Hosts, w: World, done: seq<(Command, Reply)>)
    ensures AllFit(h, w, done) <==>
      forall i | 0 <= i < |done| :: Fits(h, ExecutedAll(w, done[..i]), done[i].0, done[i].1)
    decreases |done|
  {
    hide Fits, Executed;
    if done != [] {
      var next, rest := Executed(w, done[0].0, done[0].1), done[1..];
      AllFitExactly(h, next, rest);
      assert done[..0] == [];
      forall i | 0 < i < |done|
        ensures ExecutedAll(w, done[..i]) == ExecutedAll(next, rest[..i - 1]) && rest[i - 1] == done[i]
      {
        assert done[..i][0] == done[0] && done[..i][1..] == rest[..i - 1];
      }
      if forall i | 0 <= i < |done| :: Fits(h, ExecutedAll(w, done[..i]), done[i].0, done[i].1) {
        forall i | 0 <= i < |rest| ensures Fits(h, ExecutedAll(next, rest[..i]), rest[i].0, rest[i].1) {
          assert Fits(h, ExecutedAll(w, done[..i + 1]), done[i + 1].0, done[i + 1].1);
        }
      }
    }
  }

  /** The server takes a request only while one is pending; nothing else decides
      the outcome of a command. */
  lemma StepDecides(h: Hosts, a: Session, s: State, l: Label)
    requires Follows(h, a, s) && Enabled(h, s, l)
    ensures l.Issue? <==> a.current.None?
    ensures l.ServerTakes? ==> a.current.Some? && a.current.reply.Pending?
    ensures Decided(Follow(a, l, Step(h, s, l)))
         == if l.ServerTakes? then Executed(a.world, a.current.cmd, l.reply) else Decided(a)
  {
    hide Executed, TakeRequest, TakeHead, TakeText, Request, PaddedRequest, WholeRequest, CanTake, Answers, WholeHead;
  }

  /** The first command of a run that is yet to be decided fits. */
  lemma FirstFits(h: Hosts, a: Session, s: State, run: seq<Label>, asked: Command)
    requires Follows(h, a, s) && Possible(h, s, run) && run != []
    requires a.current.Some? ==> asked == a.current.cmd
    requires AllFit(h, Decided(a), Exchanged(run, asked))
    ensures FitStep(h, a, run[0])
    ensures var l := run[0];
      AllFit(h, Decided(Follow(a, l, Step(h, s, l))), Exchanged(run[1..], if l.Issue? then l.cmd else asked))
  {
    hide Executed, Step, Enabled, GetInProgress, PutInProgress, TextInProgress, PaddedRequest, Fits;
    StepDecides(h, a, s, run[0]);
    if run[0].ServerTakes? {
      assert Exchanged(run, asked)[1..] == Exchanged(run[1..], asked);
    }
  }

  lemma {:induction false} RunExecutes(h: Hosts, a: Session, s: State, run: seq<Label>, asked: Command)
    requires Follows(h, a, s) && Possible(h, s, run) && After(h, s, run).client.Prompt?
    requires a.current.Some? ==> asked == a.current.cmd
    requires AllFit(h, Decided(a), Exchanged(run, asked))
    ensures Quiet(After(h, s, run))
    ensures Visible(After(h, s, run)) == ExecutedAll(Decided(a), Exchanged(run, asked))
    decreases |run|
  {
    hide Executed, Step, Enabled, GetInProgress, PutInProgress, TextInProgress, PaddedRequest, AllFit, FitStep;
    if run == [] {
      PromptIsQuiet(h, a, s);
    } else {
      var l := run[0];
      FirstFits(h, a, s, run, asked);
      StepFollows(h, a, s, l);
      StepDecides(h, a, s, l);
      RunExecutes(h, Follow(a, l, Step(h, s, l)), Step(h, s, l), run[1..], if l.Issue? then l.cmd else asked);
    }
  }

  lemma PromptIsQuiet(h: Hosts, a: Session, s: State)
    requires Follows(h, a, s) && s.client.Prompt?
    ensures a.current.None?
  {
  }

  /** Synchrony: over every run of commands that fit, whenever the client is back
      at its prompt, the server is back at its receive and both channels are
      empty. */
  lemma SessionInStep(h: Hosts, w: World, run: seq<Label>)
    requires Possible(h, Start(w), run) && After(h, Start(w), run).client.Prompt?
    requires AllFit(h, w, Exchanged(run, PrintDir))
    ensures Quiet(After(h, Start(w), run))
  {
    RunExecutes(h, Session(w, None), Start(w), run, PrintDir);
  }

  /** Every such run that ends at the prompt leaves exactly the files and the
      screen that its commands leave when each is executed at once: however the
      transfers were cut up, files arrive whole and texts are printed whole. */
  lemma SessionRefines(h: Hosts, w: World, run: seq<Label>)
    requires Possible(h, Start(w), run) && After(h, Start(w), run).client.Prompt?
    requires AllFit(h, w, Exchanged(run, PrintDir))
    ensures Visible(After(h, Start(w), run)) == ExecutedAll(w, Exchanged(run, PrintDir))
  {
    RunExecutes(h, Session(w, None), Start(w), run, PrintDir);
  }

  // Progress

  function UpTo(n: nat): nat {
    if n < BUF_SIZE then n else BUF_SIZE
  }

  function AnyReply(b: seq<byte>): Reply {
    if b != [] && b[0] == GET then Failure([]) else if b != [] && b[0] == PUT then Accepted else Text([])
  }

  /** A step that a command in progress can always take. */
  function Next(s: State): Label {
    match s.server
    case Sending(out) => ServerSends(|out|)
    case Storing(_, _, _) =>
      if s.c2s != [] then ServerStores(UpTo(|s.c2s|))
      else ClientSends(if s.client.Uploading? then |s.client.unsent| else 0)
    case Idle =>
      if s.c2s != [] then ServerTakes(UpTo(|s.c2s|), AnyReply(s.c2s))
      else match s.client
        case AwaitHead(_) => ClientHead(UpTo(|s.s2c|))
        case Downloading(_, _, _) => ClientBody(UpTo(|s.s2c|))
        case Uploading(_, _, unsent) => if unsent != [] then ClientSends(|unsent|) else ClientGetsEnd
        case _ => ClientPrints(UpTo(|s.s2c|))
  }

  lemma TextGoesOn(h: Hosts, w: World, request: seq<byte>, reply: Answer, s: State)
    requires request == [PWD] || (|request| == BUF_SIZE && request[0] in {LS, CD})
    requires TextInProgress(w, request, reply, s)
    ensures Enabled(h, s, Next(s))
  {
    if reply.Pending? {
      assert request[..|request|] == request;
    }
  }

  lemma GetGoesOn(h: Hosts, w: World, name: Name, reply: Answer, s: State)
    requires GetInProgress(h, w, name, reply, s)
    ensures Enabled(h, s, Next(s))
  {
    hide ReadSize, FirstWord, GetSize, GetHeader;
    if reply.Pending? {
      assert s.c2s[..BUF_SIZE] == s.c2s;
    } else if s.server.Idle? {
      assert s.s2c + [] == s.s2c;
      if reply.reply.Failure? {
        assert s.s2c[..|s.s2c|] == s.s2c;
      }
    }
  }

  /** Header and name of a put fit into one receive. */
  lemma PutFits(h: Hosts, s: State, size: nat, file: seq<byte>, name: Name, unsent: seq<byte>)
    requires |name| < 256 && |s.c2s| >= PUT_FIXED + |name|
    requires s.c2s + unsent == PutHeader(h.client, Size32(size), name) + file
    ensures WholeRequest(h, s.c2s[..UpTo(|s.c2s|)]) && s.c2s[0] == PUT
  {
    hide ReadSize, PutHeader;
    var k, header := UpTo(|s.c2s|), PutHeader(h.client, Size32(size), name);
    Window(s.c2s, unsent, header, file, 0, 13);
    assert s.c2s[..k][9..13] == s.c2s[0..13][9..13];
    assert header[9..13] == header[0..13][9..13];
    assert s.c2s[0] == s.c2s[0..13][0] && header[0] == header[0..13][0];
    PutRoundTrip(h.client, h.server, Size32(size), name, []);
    assert header + [] == header;
  }

  lemma PutGoesOn(h: Hosts, w: World, name: Name, size: nat, reply: Answer, s: State)
    requires PutInProgress(h, w, name, size, reply, s)
    ensures Enabled(h, s, Next(s))
  {
    hide ReadSize, PutHeader;
    if reply.Pending? {
      PutFits(h, s, size, w.clientFiles[name], name, s.client.unsent);
    } else if s.server.Idle? {
      assert s.s2c + [] == s.s2c;
    }
  }

  /** No command gets stuck: while one is in progress, one of the programs can
      take a step. */
  lemma NeverStuck(h: Hosts, a: Session, s: State)
    requires Follows(h, a, s) && a.current.Some?
    ensures Enabled(h, s, Next(s)) && !Next(s).Issue?
  {
    hide Enabled, PaddedRequest;
    match a.current.cmd
    case Get(name) => GetGoesOn(h, a.world, name, a.current.reply, s);
    case Put(name, size) => PutGoesOn(h, a.world, name, size, a.current.reply, s);
    case List(args) => TextGoesOn(h, a.world, PaddedRequest(LS, Fitting(args)), a.current.reply, s);
    case PrintDir => TextGoesOn(h, a.world, [PWD], a.current.reply, s);
    case ChangeDir(args) => TextGoesOn(h, a.world, PaddedRequest(CD, Fitting(args)), a.current.reply, s);
  }

  /** Bytes on their way, each weighted by how far it still has to go. */
  function Weight(s: State): nat {
    (if s.client.Uploading? then 4 * |s.client.unsent| else 0) + 3 * |s.c2s| + 2 * |Outgoing(s.server)| + |s.s2c|
  }

  /** Every step that does not take a request brings bytes closer to their end. */
  lemma StepsDescend(h: Hosts, s: State, l: Label)
    requires Enabled(h, s, l) && !l.Issue? && !l.ServerTakes?
    ensures Weight(Step(h, s, l)) < Weight(s)
  {
    hide ReadSize, BeforeEnd, WholeHead, WholeRequest, CanTake, Answers, TakeRequest;
  }

  predicate Unprompted(run: seq<Label>) {
    forall i | 0 <= i < |run| :: !run[i].Issue?
  }

  lemma {:induction false} RunFollows(h: Hosts, a: Session, s: State, run: seq<Label>, asked: Command)
    returns (b: Session)
    requires Follows(h, a, s) && Possible(h, s, run)
    requires a.current.Some? ==> asked == a.current.cmd
    requires AllFit(h, Decided(a), Exchanged(run, asked))
    ensures Follows(h, b, After(h, s, run))
    decreases |run|
  {
    hide Executed, Step, Enabled, GetInProgress, PutInProgress, TextInProgress, PaddedRequest, AllFit, FitStep;
    if run == [] {
      b := a;
    } else {
      var l := run[0];
      FirstFits(h, a, s, run, asked);
      StepFollows(h, a, s, l);
      StepDecides(h, a, s, l);
      b := RunFollows(h, Follow(a, l, Step(h, s, l)), Step(h, s, l), run[1..], if l.Issue? then l.cmd else asked);
    }
  }

  /** Once the server has taken the request, the programs take at most as many
      steps as the weight of what they still have to move, in whatever order. */
  lemma {:induction false} StepsAreBounded(h: Hosts, a: Session, s: State, run: seq<Label>)
    requires Follows(h, a, s) && a.current.Some? && a.current.reply.Given?
    requires Possible(h, s, run) && Unprompted(run)
    ensures |run| <= Weight(s)
    decreases |run|
  {
    hide Executed, Step, Enabled, Weight, GetInProgress, PutInProgress, TextInProgress, PaddedRequest, Fits;
    if run != [] {
      var l, t := run[0], Step(h, s, run[0]);
      StepDecides(h, a, s, l);
      StepFollows(h, a, s, l);
      StepsDescend(h, s, l);
      if Follow(a, l, t).current.Some? {
        StepsAreBounded(h, Follow(a, l, t), t, run[1..]);
      } else if |run| > 1 {
        assert Enabled(h, t, run[1..][0]);
        StepDecides(h, Follow(a, l, t), t, run[1]);
      }
    }
  }

  /** A put that the server has not taken yet fits. */
  predicate WaitingFits(h: Hosts, a: Session) {
    a.current.Some? && a.current.reply.Pending? && a.current.cmd.Put? ==> Fits(h, a.world, a.current.cmd, Accepted)
  }

  lemma NextFits(h: Hosts, a: Session, s: State)
    requires Follows(h, a, s) && a.current.Some? && WaitingFits(h, a)
    ensures FitStep(h, a, Next(s))
  {
    hide PaddedRequest, FirstWord, GetHeader, PutAnnounced, GetAnnounced;
  }

  /** Every command that is under way can be brought back to the prompt by steps
      of the two programs alone. */
  lemma {:induction false} Completes(h: Hosts, a: Session, s: State) returns (run: seq<Label>)
    requires Follows(h, a, s) && a.current.Some? && WaitingFits(h, a)
    ensures Possible(h, s, run) && Unprompted(run) && After(h, s, run).client.Prompt?
    decreases a.current.reply.Pending?, Weight(s)
  {
    hide Executed, Step, Enabled, Weight, Next, GetInProgress, PutInProgress, TextInProgress, PaddedRequest, FitStep,
      Fits;
    var l := Next(s);
    NeverStuck(h, a, s);
    NextFits(h, a, s);
    var t := Step(h, s, l);
    StepFollows(h, a, s, l);
    StepDecides(h, a, s, l);
    var b := Follow(a, l, t);
    if b.current.None? {
      run := [l];
      assert Possible(h, t, run[1..]) && After(h, t, run[1..]) == t;
    } else {
      if !l.ServerTakes? {
        StepsDescend(h, s, l);
      }
      var rest := Completes(h, b, t);
      run := [l] + rest;
      assert run[1..] == rest;
    }
  }

  /** No run gets stuck: from wherever a run of fitting commands has come to, the
      programs alone can reach the prompt. */
  lemma SessionFinishes(h: Hosts, w: World, run: seq<Label>) returns (more: seq<Label>)
    requires Possible(h, Start(w), run) && AllFit(h, w, Exchanged(run, PrintDir))
    requires var s := After(h, Start(w), run);
      s.client.Uploading? && s.server.Idle? && s.client.name in s.clientFiles
      ==> PutFitting(h, s.client.size, s.clientFiles[s.client.name])
    ensures Possible(h, After(h, Start(w), run), more) && Unprompted(more)
    ensures After(h, After(h, Start(w), run), more).client.Prompt?
  {
    var a := RunFollows(h, Session(w, None), Start(w), run, PrintDir);
    if a.current.Some? {
      more := Completes(h, a, After(h, Start(w), run));
    } else {
      more := [];
    }
  }
}
