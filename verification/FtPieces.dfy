/**
 The session of src/ft when a receive may also bring part of a request or of an
 error reply. The server answers what has arrived of a request of ls, cd or get,
 and ignores whatever begins with a zero byte, as the padding of a request does
 when it arrives later. Exactly which runs stay in step with the abstract
 session of FtSession is proved, and that these refine it.
 */
module FtPieces {
  import opened Bytes
  import opened FtWire
  import opened FtSession
  import opened FtRuns

  datatype Event =
    | Does(l: Label)                // any other step of the two programs
    | Takes(k: nat, reply: Reply)   // the server receives what begins a request
    | Ignores(k: nat)               // the server receives what begins with zero
    | Refused(k: nat)               // the client receives what begins an error reply

  predicate CanHappen(h: Hosts, s: State, e: Event) {
    match e
    case Does(l) =>
      Enabled(h, s, l) && !l.ServerTakes? && (l.ClientHead? ==> s.s2c[0] != ERROR)
    case Takes(k, reply) =>
      s.server.Idle? && CanRecv(s.c2s, k) && CanTake(h, s.c2s[..k]) && Answers(h, s, s.c2s[..k], reply)
    case Ignores(k) => s.server.Idle? && CanRecv(s.c2s, k) && s.c2s[0] == 0
    case Refused(k) => s.client.AwaitHead? && CanRecv(s.s2c, k) && s.s2c[0] == ERROR
  }

  function Happen(h: Hosts, s: State, e: Event): State
    requires CanHappen(h, s, e)
  {
    match e
    case Does(l) => Step(h, s, l)
    case Takes(k, reply) => TakeRequest(h, s, s.c2s[..k], reply).(c2s := s.c2s[k..])
    case Ignores(k) => s.(c2s := s.c2s[k..])
    case Refused(k) => s.(client := Prompt, screen := s.screen + s.s2c[1..k] + [NEWLINE], s2c := s.s2c[k..])
  }

  /** The step of the abstract session that goes with an event. */
  function FollowEvent(a: Session, e: Event, t: State): Session {
    match e
    case Does(l) => Follow(a, l, t)
    case Takes(k, reply) => Follow(a, ServerTakes(k, reply), t)
    case Ignores(_) => a
    case Refused(k) => Follow(a, ClientHead(k), t)
  }

  function AllZero(s: seq<byte>): bool {
    forall i | 0 <= i < |s| :: s[i] == 0
  }

  /** A piece of a request holds its arguments, nothing but padding is ignored,
      and an error reply is received whole. */
  predicate Clean(s: State, e: Event) {
    match e
    case Does(_) => true
    case Takes(k, _) => k <= |s.c2s| && (s.c2s != [] && s.c2s[0] in {LS, CD, GET} ==> AllZero(s.c2s[k..]))
    case Ignores(k) => k <= |s.c2s| && AllZero(s.c2s[..k])
    case Refused(k) => s.server.Idle? && k == |s.s2c|
  }

  /** The state without the padding that is still to be received. */
  function Unpadded(s: State, pad: nat): State
    requires pad <= |s.c2s|
  {
    s.(c2s := s.c2s[pad..])
  }

  ghost predicate Aligned(h: Hosts, a: Session, pad: nat, s: State) {
    && pad <= |s.c2s| && pad < BUF_SIZE && AllZero(s.c2s[..pad])
    && Follows(h, a, Unpadded(s, pad))
    && (s.server.Storing? ==> pad == 0)
  }

  /** But for padding, the state is one of the session that the abstract session
      follows. */
  ghost predicate InStep(h: Hosts, a: Session, s: State) {
    exists pad: nat :: Aligned(h, a, pad, s)
  }

  // What the server may find in its channel

  /** While the server rests, its channel holds nothing, or the request that is
      pending. */
  lemma RestingChannel(h: Hosts, a: Session, s: State)
    requires Follows(h, a, s) && s.server.Idle? && s.c2s != []
    ensures a.current.Some? && a.current.reply.Pending? && s.c2s[0] in {LS, PWD, CD, GET, PUT}
    ensures match a.current.cmd
      case List(args) => s.c2s == PaddedRequest(LS, Fitting(args))
      case PrintDir => s.c2s == [PWD]
      case ChangeDir(args) => s.c2s == PaddedRequest(CD, Fitting(args))
      case Get(name) => s.c2s == PaddedRequest(GET, name) && IsWord(name) && |name| + 2 <= BUF_SIZE
      case Put(_, _) => s.c2s[0] == PUT
  {
    hide PaddedRequest, PutHeader;
    if a.current.Some? && a.current.cmd.Put? && a.current.reply.Pending? {
      var header := PutHeader(h.client, Size32(a.current.cmd.size), a.current.cmd.name);
      FirstByte(s.c2s, |s.c2s|, s.client.unsent, header + a.world.clientFiles[a.current.cmd.name]);
      assert s.c2s[..|s.c2s|] == s.c2s;
    }
  }

  lemma FirstZero(b: seq<byte>, k: nat)
    requires 0 < k <= |b| && AllZero(b[..k])
    ensures b[0] == 0
  {
    assert b[0] == b[..k][0];
  }

  /** What does not begin with zero is not padding. */
  lemma NoPadding(h: Hosts, a: Session, pad: nat, s: State)
    requires Aligned(h, a, pad, s) && s.c2s != [] && s.c2s[0] != 0
    ensures pad == 0 && Follows(h, a, s)
  {
    if pad > 0 {
      FirstZero(s.c2s, pad);
    }
    assert s.c2s[0..] == s.c2s;
  }

  // Clean events

  lemma DoesCommutes(h: Hosts, pad: nat, s: State, l: Label)
    requires pad <= |s.c2s| && (s.server.Storing? ==> pad == 0)
    requires Enabled(h, s, l) && !l.ServerTakes?
    ensures Enabled(h, Unpadded(s, pad), l)
    ensures var t := Step(h, s, l);
      && pad <= |t.c2s| && t.c2s[..pad] == s.c2s[..pad] && (t.server.Storing? ==> pad == 0)
      && Step(h, Unpadded(s, pad), l) == Unpadded(t, pad)
  {
    hide PutHeader, TakeRequest, WholeRequest, CanTake, Answers, GetSize, BeforeEnd, PaddedRequest;
    assert s.c2s[0..] == s.c2s;
    match l
    case Issue(cmd) =>
      assert Request(h, Unpadded(s, pad), cmd) == Request(h, s, cmd);
      Beyond(s.c2s, pad, Request(h, s, cmd));
    case ClientSends(k) => Beyond(s.c2s, pad, s.client.unsent[..k]);
    case _ =>
  }

  lemma Beyond(a: seq<byte>, pad: nat, b: seq<byte>)
    requires pad <= |a|
    ensures (a + b)[pad..] == a[pad..] + b && (a + b)[..pad] == a[..pad]
  {
  }

  lemma DoesFollows(h: Hosts, a: Session, pad: nat, s: State, l: Label)
    requires Aligned(h, a, pad, s) && CanHappen(h, s, Does(l))
    ensures Aligned(h, Follow(a, l, Step(h, s, l)), pad, Step(h, s, l))
  {
    DoesCommutes(h, pad, s, l);
    hide Follows, Enabled, Step, AllZero;
    StepFollows(h, a, Unpadded(s, pad), l);
  }

  lemma {:induction false} UpToBlankPadded(args: seq<byte>, zeros: seq<byte>)
    requires AllZero(zeros)
    ensures UpToBlank(args + zeros) == UpToBlank(args)
  {
    if args == [] {
      assert args + zeros == zeros;
    } else {
      assert (args + zeros)[1..] == args[1..] + zeros;
      UpToBlankPadded(args[1..], zeros);
    }
  }

  /** Padding that has not arrived does not change what strtok finds. */
  lemma {:induction false} FirstWordPadded(args: seq<byte>, zeros: seq<byte>)
    requires AllZero(zeros)
    ensures FirstWord(args + zeros) == FirstWord(args)
  {
    if args != [] && args[0] == 32 {
      assert (args + zeros)[1..] == args[1..] + zeros;
      FirstWordPadded(args[1..], zeros);
    } else {
      UpToBlankPadded(args, zeros);
      assert args == [] ==> args + zeros == zeros;
    }
  }

  lemma SameAnswers(h: Hosts, s: State, k: nat, reply: Reply)
    requires 1 <= k <= |s.c2s| == BUF_SIZE && s.c2s[0] in {LS, CD, GET} && AllZero(s.c2s[k..])
    requires Answers(h, s, s.c2s[..k], reply)
    ensures Answers(h, s, s.c2s, reply)
  {
    assert s.c2s[1..] == s.c2s[..k][1..] + s.c2s[k..];
    FirstWordPadded(s.c2s[..k][1..], s.c2s[k..]);
  }

  /** A piece that holds the arguments is answered like the whole request; the
      padding stays behind. */
  lemma TakesPadded(h: Hosts, a: Session, s: State, k: nat, reply: Reply)
    requires Follows(h, a, s) && CanHappen(h, s, Takes(k, reply)) && FitStep(h, a, ServerTakes(k, reply))
    requires s.c2s[0] in {LS, CD, GET} && Clean(s, Takes(k, reply))
    ensures var t := Happen(h, s, Takes(k, reply));
      Aligned(h, Follow(a, ServerTakes(k, reply), t), |t.c2s|, t)
  {
    RestingChannel(h, a, s);
    var l, t := ServerTakes(BUF_SIZE, reply), Happen(h, s, Takes(k, reply));
    SameAnswers(h, s, k, reply);
    assert s.c2s[..BUF_SIZE] == s.c2s;
    assert Enabled(h, s, l);
    assert s.c2s[k..][..|s.c2s[k..]|] == s.c2s[k..];
    assert Unpadded(t, |t.c2s|) == Step(h, s, l);
    hide Follows, Enabled, Step, Answers, CanTake, AllZero;
    StepFollows(h, a, s, l);
  }

  lemma TakesWhole(h: Hosts, a: Session, s: State, k: nat, reply: Reply)
    requires Follows(h, a, s) && CanHappen(h, s, Takes(k, reply)) && FitStep(h, a, ServerTakes(k, reply))
    requires s.c2s[0] in {PWD, PUT}
    ensures var t := Happen(h, s, Takes(k, reply));
      Aligned(h, Follow(a, ServerTakes(k, reply), t), 0, t)
  {
    var l, t := ServerTakes(k, reply), Happen(h, s, Takes(k, reply));
    assert Enabled(h, s, l) && Step(h, s, l) == t && t.c2s[0..] == t.c2s;
    hide Follows, Enabled, Step, Answers, CanTake;
    StepFollows(h, a, s, l);
  }

  lemma NothingBut(b: seq<byte>, pad: nat)
    requires pad <= |b| && AllZero(b[..pad]) && !AllZero(b)
    ensures b[pad..] != []
  {
    assert b == b[..pad] + b[pad..];
  }

  /** A piece that leaves some of the arguments behind is not followed. */
  lemma TakesCut(h: Hosts, a: Session, s: State, k: nat, reply: Reply, pad: nat)
    requires Follows(h, a, s) && CanHappen(h, s, Takes(k, reply))
    requires s.c2s[0] in {LS, CD, GET} && !AllZero(s.c2s[k..])
    ensures var t := Happen(h, s, Takes(k, reply));
      !Aligned(h, Follow(a, ServerTakes(k, reply), t), pad, t)
  {
    RestingChannel(h, a, s);
    hide Answers, CanTake, TakeRequest, PaddedRequest;
    if pad <= |s.c2s| - k && AllZero(s.c2s[k..][..pad]) {
      NothingBut(s.c2s[k..], pad);
    }
  }

  // Padding

  /** The length of what is pending, from the request in the channel on. */
  lemma IgnoresTooMuch(h: Hosts, a: Session, s: State, k: nat, pad: nat, rest: nat)
    requires Aligned(h, a, pad, s) && CanHappen(h, s, Ignores(k)) && k > pad
    ensures !Aligned(h, a, rest, Happen(h, s, Ignores(k)))
  {
    RestingChannel(h, a, Unpadded(s, pad));
    hide PaddedRequest, PutHeader;
  }

  lemma AllZeroPart(b: seq<byte>, k: nat, pad: nat)
    requires k <= pad <= |b| && AllZero(b[..pad])
    ensures AllZero(b[..k]) && b[k..][..pad - k] == b[..pad][k..] && AllZero(b[k..][..pad - k])
    ensures b[k..][pad - k..] == b[pad..]
  {
    assert b[..k] == b[..pad][..k];
    assert b[k..][..pad - k] == b[..pad][k..];
  }

  lemma IgnoresExactly(h: Hosts, a: Session, s: State, k: nat, pad: nat)
    requires Aligned(h, a, pad, s) && CanHappen(h, s, Ignores(k))
    ensures Clean(s, Ignores(k)) <==> k <= pad
    ensures k <= pad ==> Aligned(h, a, pad - k, Happen(h, s, Ignores(k)))
  {
    var u := Unpadded(s, pad);
    if k <= pad {
      AllZeroPart(s.c2s, k, pad);
    } else {
      RestingChannel(h, a, u);
      assert s.c2s[..k][pad] == u.c2s[0];
    }
  }

  // Error replies

  lemma RefusedWhole(h: Hosts, a: Session, s: State, k: nat, pad: nat)
    requires Aligned(h, a, pad, s) && CanHappen(h, s, Refused(k)) && Clean(s, Refused(k))
    ensures var t := Happen(h, s, Refused(k));
      Aligned(h, Follow(a, ClientHead(k), t), pad, t)
  {
    var l := ClientHead(k);
    assert s.s2c[..k] == s.s2c && s.s2c[..k][1..] == s.s2c[1..k];
    assert Enabled(h, s, l) && Step(h, s, l) == Happen(h, s, Refused(k));
    DoesCommutes(h, pad, s, l);
    hide Follows, Enabled, Step, AllZero;
    StepFollows(h, a, Unpadded(s, pad), l);
  }

  lemma RefusedCut(h: Hosts, a: Session, s: State, k: nat, pad: nat, rest: nat)
    requires Aligned(h, a, pad, s) && CanHappen(h, s, Refused(k)) && !Clean(s, Refused(k))
    ensures var t := Happen(h, s, Refused(k));
      !Aligned(h, Follow(a, ClientHead(k), t), rest, t)
  {
    hide PaddedRequest, GetHeader;
    var u := Unpadded(s, pad);
    assert a.current.Some? && a.current.reply.Given?;
  }

  /** An event keeps the session in step with the abstract one exactly if a
      piece of a request holds its arguments, only padding is ignored, and an
      error reply is received whole. */
  lemma EventFollowsExactly(h: Hosts, a: Session, s: State, e: Event)
    requires InStep(h, a, s) && CanHappen(h, s, e)
    requires e.Takes? ==> FitStep(h, a, ServerTakes(e.k, e.reply))
    ensures InStep(h, FollowEvent(a, e, Happen(h, s, e)), Happen(h, s, e)) <==> Clean(s, e)
  {
    var pad: nat :| Aligned(h, a, pad, s);
    var t := Happen(h, s, e);
    hide Happen, AllZero, Follows, TakeRequest, Answers, FitStep, Step, Enabled, Aligned;
    match e
    case Does(l) =>
      DoesFollows(h, a, pad, s, l);
    case Takes(k, reply) => TakesExactly(h, a, pad, s, k, reply);
    case Ignores(k) =>
      IgnoresExactly(h, a, s, k, pad);
      if k > pad {
        forall rest: nat ensures !Aligned(h, a, rest, t) {
          IgnoresTooMuch(h, a, s, k, pad, rest);
        }
      }
    case Refused(k) =>
      if Clean(s, e) {
        RefusedWhole(h, a, s, k, pad);
      } else {
        forall rest: nat ensures !Aligned(h, FollowEvent(a, e, t), rest, t) {
          RefusedCut(h, a, s, k, pad, rest);
        }
      }
  }

  lemma TakesExactly(h: Hosts, a: Session, pad: nat, s: State, k: nat, reply: Reply)
    requires Aligned(h, a, pad, s) && CanHappen(h, s, Takes(k, reply)) && FitStep(h, a, ServerTakes(k, reply))
    ensures var t := Happen(h, s, Takes(k, reply));
      InStep(h, Follow(a, ServerTakes(k, reply), t), t) <==> Clean(s, Takes(k, reply))
  {
    NoPadding(h, a, pad, s);
    var t := Happen(h, s, Takes(k, reply));
    var b := Follow(a, ServerTakes(k, reply), t);
    hide Happen, AllZero, Follows, TakeRequest, Answers, FitStep, Aligned, Follow;
    if s.c2s[0] in {LS, CD, GET} {
      if AllZero(s.c2s[k..]) {
        TakesPadded(h, a, s, k, reply);
        assert Aligned(h, b, |t.c2s|, t);
      } else {
        forall rest: nat ensures !Aligned(h, b, rest, t) {
          TakesCut(h, a, s, k, reply, rest);
        }
      }
    } else {
      TakesWhole(h, a, s, k, reply);
      assert Aligned(h, b, 0, t);
    }
  }

  // What that means to the two hosts

  /** A piece of a padded request holds the arguments if it is longer than they
      are. */
  lemma PieceHoldsArguments(s: State, kind: byte, args: seq<byte>, k: nat, reply: Reply)
    requires kind in {LS, CD, GET} && |args| < BUF_SIZE && 0 !in args
    requires s.c2s == PaddedRequest(kind, args) && 1 <= k <= BUF_SIZE
    ensures Clean(s, Takes(k, reply)) <==> k > |args|
  {
    var rest := s.c2s[k..];
    assert forall i | 0 <= i < |rest| :: rest[i] == s.c2s[i + k];
    if k <= |args| {
      assert rest[0] == args[k - 1];
    }
  }

  /** Only padding is ignored if the piece ends before the next request begins. */
  lemma PieceIsPadding(s: State, pad: nat, request: seq<byte>, k: nat)
    requires s.c2s == Zeroes(pad) + request && request != [] && request[0] != 0 && k <= |s.c2s|
    ensures Clean(s, Ignores(k)) <==> k <= pad
  {
    if k > pad {
      assert s.c2s[..k][pad] == request[0];
    }
  }

  // Runs

  predicate CanRun(h: Hosts, s: State, run: seq<Event>)
    decreases |run|
  {
    run == [] || (CanHappen(h, s, run[0]) && CanRun(h, Happen(h, s, run[0]), run[1..]))
  }

  function Reached(h: Hosts, s: State, run: seq<Event>): State
    requires CanRun(h, s, run)
    decreases |run|
  {
    if run == [] then s else Reached(h, Happen(h, s, run[0]), run[1..])
  }

  predicate CleanRun(h: Hosts, s: State, run: seq<Event>)
    requires CanRun(h, s, run)
    decreases |run|
  {
    run == [] || (Clean(s, run[0]) && CleanRun(h, Happen(h, s, run[0]), run[1..]))
  }

  /** The session is in step with the abstract one at every point of the run. */
  ghost predicate AlwaysInStep(h: Hosts, a: Session, s: State, run: seq<Event>)
    requires CanRun(h, s, run)
    decreases |run|
  {
    && InStep(h, a, s)
    && (run == [] || (
          var t := Happen(h, s, run[0]);
          AlwaysInStep(h, FollowEvent(a, run[0], t), t, run[1..])))
  }

  function AskedAfter(e: Event, asked: Command): Command {
    if e.Does? && e.l.Issue? then e.l.cmd else asked
  }

  /** The commands of a run, each with what the server decided. */
  function Commands(run: seq<Event>, asked: Command): seq<(Command, Reply)> {
    if run == [] then []
    else
      var rest := Commands(run[1..], AskedAfter(run[0], asked));
      if run[0].Takes? then [(asked, run[0].reply)] + rest else rest
  }

  /** The server takes a request only while one is pending, and nothing else
      decides the outcome of a command. */
  lemma EventDecides(h: Hosts, a: Session, s: State, e: Event)
    requires InStep(h, a, s) && CanHappen(h, s, e)
    ensures e.Takes? ==> a.current.Some? && a.current.reply.Pending?
    ensures var b := FollowEvent(a, e, Happen(h, s, e));
      && Decided(b) == (if e.Takes? then Executed(a.world, a.current.cmd, e.reply) else Decided(a))
      && (b.current.Some? ==> if e.Does? && e.l.Issue? then b.current.cmd == e.l.cmd
                              else a.current.Some? && b.current.cmd == a.current.cmd)
  {
    var pad: nat :| Aligned(h, a, pad, s);
    hide Executed, Happen, TakeRequest, Answers, WholeHead, GetInProgress, PutInProgress, TextInProgress, PaddedRequest,
      AllZero;
    if e.Takes? {
      assert s.c2s[..e.k][0] == s.c2s[0];
      NoPadding(h, a, pad, s);
      RestingChannel(h, a, s);
    } else if e.Does? && e.l.Issue? {
      PromptIsQuiet(h, a, Unpadded(s, pad));
    }
  }

  lemma FirstEventFits(h: Hosts, a: Session, s: State, run: seq<Event>, asked: Command)
    requires InStep(h, a, s) && run != [] && CanHappen(h, s, run[0])
    requires a.current.Some? ==> asked == a.current.cmd
    requires AllFit(h, Decided(a), Commands(run, asked))
    ensures run[0].Takes? ==> FitStep(h, a, ServerTakes(run[0].k, run[0].reply))
    ensures var b := FollowEvent(a, run[0], Happen(h, s, run[0]));
      AllFit(h, Decided(b), Commands(run[1..], AskedAfter(run[0], asked)))
  {
    hide Executed, Happen, CanHappen, InStep, Fits;
    EventDecides(h, a, s, run[0]);
    if run[0].Takes? {
      assert Commands(run, asked)[1..] == Commands(run[1..], asked);
    }
  }

  lemma {:induction false} RunExactly(h: Hosts, a: Session, s: State, run: seq<Event>, asked: Command)
    requires InStep(h, a, s) && CanRun(h, s, run)
    requires a.current.Some? ==> asked == a.current.cmd
    requires AllFit(h, Decided(a), Commands(run, asked))
    ensures AlwaysInStep(h, a, s, run) <==> CleanRun(h, s, run)
    decreases |run|
  {
    hide Executed, Happen, CanHappen, InStep, Clean, FollowEvent, FitStep, AllFit, Commands;
    if run != [] {
      var e, t := run[0], Happen(h, s, run[0]);
      FirstEventFits(h, a, s, run, asked);
      EventFollowsExactly(h, a, s, e);
      EventDecides(h, a, s, e);
      if Clean(s, e) {
        RunExactly(h, FollowEvent(a, e, t), t, run[1..], AskedAfter(e, asked));
      }
    }
  }

  /** The client is at its prompt, the server at its receive, and nothing but
      padding is on its way. */
  predicate AtRest(s: State) {
    s.client.Prompt? && s.server.Idle? && AllZero(s.c2s) && s.s2c == []
  }

  lemma PromptIsAtRest(h: Hosts, a: Session, s: State)
    requires InStep(h, a, s) && s.client.Prompt?
    ensures AtRest(s) && a.current.None? && Visible(s) == a.world
  {
    var pad: nat :| Aligned(h, a, pad, s);
    PromptIsQuiet(h, a, Unpadded(s, pad));
    assert s.c2s == s.c2s[..pad] + s.c2s[pad..];
  }

  lemma {:induction false} CleanRunExecutes(h: Hosts, a: Session, s: State, run: seq<Event>, asked: Command)
    requires InStep(h, a, s) && CanRun(h, s, run) && CleanRun(h, s, run) && Reached(h, s, run).client.Prompt?
    requires a.current.Some? ==> asked == a.current.cmd
    requires AllFit(h, Decided(a), Commands(run, asked))
    ensures AtRest(Reached(h, s, run))
    ensures Visible(Reached(h, s, run)) == ExecutedAll(Decided(a), Commands(run, asked))
    decreases |run|
  {
    hide Executed, Happen, CanHappen, InStep, Clean, FollowEvent, FitStep, AllFit, AtRest;
    if run == [] {
      PromptIsAtRest(h, a, s);
    } else {
      var e, t := run[0], Happen(h, s, run[0]);
      FirstEventFits(h, a, s, run, asked);
      EventFollowsExactly(h, a, s, e);
      EventDecides(h, a, s, e);
      CleanRunExecutes(h, FollowEvent(a, e, t), t, run[1..], AskedAfter(e, asked));
    }
  }

  lemma StartInStep(h: Hosts, w: World)
    ensures InStep(h, Session(w, None), Start(w))
  {
    assert Start(w).c2s[0..] == [] && Start(w).c2s[..0] == [];
    assert Aligned(h, Session(w, None), 0, Start(w));
  }

  /** Over every run of commands that fit, in whatever pieces requests and replies
      arrive: the session is in step with the abstract one at every point if and
      only if every piece of a request holds its arguments, only padding is
      ignored, and every error reply is received whole. */
  lemma PiecesExactly(h: Hosts, w: World, run: seq<Event>)
    requires CanRun(h, Start(w), run) && AllFit(h, w, Commands(run, PrintDir))
    ensures AlwaysInStep(h, Session(w, None), Start(w), run) <==> CleanRun(h, Start(w), run)
  {
    StartInStep(h, w);
    hide InStep, CanRun, CleanRun, AlwaysInStep, AllFit, Commands;
    RunExactly(h, Session(w, None), Start(w), run, PrintDir);
  }

  /** Such a run that ends at the prompt leaves the files and the screen that its
      commands leave when each is executed at once, the server back at its
      receive, and nothing but padding in the channels. */
  lemma PiecesRefine(h: Hosts, w: World, run: seq<Event>)
    requires CanRun(h, Start(w), run) && AllFit(h, w, Commands(run, PrintDir))
    requires CleanRun(h, Start(w), run) && Reached(h, Start(w), run).client.Prompt?
    ensures AtRest(Reached(h, Start(w), run))
    ensures Visible(Reached(h, Start(w), run)) == ExecutedAll(w, Commands(run, PrintDir))
  {
    StartInStep(h, w);
    hide InStep, CanRun, CleanRun, Reached, AllFit, Commands;
    CleanRunExecutes(h, Session(w, None), Start(w), run, PrintDir);
  }

  // Progress

  /** A clean event that a command in progress can always go on with. */
  lemma PiecesGoOn(h: Hosts, a: Session, s: State) returns (e: Event)
    requires InStep(h, a, s) && a.current.Some?
    ensures CanHappen(h, s, e) && Clean(s, e) && (e.Does? ==> !e.l.Issue?)
    ensures e.Takes? ==> Follows(h, a, s) && ServerTakes(e.k, e.reply) == FtRuns.Next(s)
  {
    var pad: nat :| Aligned(h, a, pad, s);
    if s.server.Idle? && pad > 0 {
      FirstZero(s.c2s, pad);
      e := Ignores(pad);
    } else {
      var l := GoesOn(h, a, pad, s);
      if l.ServerTakes? {
        WholeIsClean(h, a, s, l.k, l.reply);
        e := Takes(l.k, l.reply);
      } else if l.ClientHead? && s.s2c[0] == ERROR {
        e := Refused(l.k);
      } else {
        e := Does(l);
      }
    }
  }

  lemma GoesOn(h: Hosts, a: Session, pad: nat, s: State) returns (l: Label)
    requires Aligned(h, a, pad, s) && a.current.Some? && (s.server.Idle? ==> pad == 0)
    ensures Enabled(h, s, l) && !l.Issue? && (l.ServerTakes? ==> Follows(h, a, s) && l == FtRuns.Next(s))
    ensures l.ClientHead? ==> s.s2c != []
  {
    NeverStuck(h, a, Unpadded(s, pad));
    l := FtRuns.Next(Unpadded(s, pad));
    assert s.c2s[0..] == s.c2s;
    hide Follows, WholeRequest, CanTake, Answers;
  }

  lemma WholeIsClean(h: Hosts, a: Session, s: State, k: nat, reply: Reply)
    requires Follows(h, a, s) && ServerTakes(k, reply) == FtRuns.Next(s) && Enabled(h, s, ServerTakes(k, reply))
    ensures Clean(s, Takes(k, reply))
  {
    RestingChannel(h, a, s);
  }

  lemma EventDescends(h: Hosts, s: State, e: Event)
    requires CanHappen(h, s, e) && !e.Takes? && (e.Does? ==> !e.l.Issue?)
    ensures Weight(Happen(h, s, e)) < Weight(s)
  {
    if e.Does? {
      StepsDescend(h, s, e.l);
    }
  }

  predicate NoIssue(run: seq<Event>) {
    forall i | 0 <= i < |run| :: run[i].Does? ==> !run[i].l.Issue?
  }

  lemma EventKeepsWaiting(h: Hosts, a: Session, e: Event, t: State)
    requires WaitingFits(h, a) && a.current.Some? && (e.Takes? ==> a.current.reply.Pending?)
    requires e.Does? ==> !e.l.Issue? && !e.l.ServerTakes?
    ensures var b := FollowEvent(a, e, t);
      && WaitingFits(h, b)
      && (b.current.Some? && b.current.reply.Pending? ==> a.current.reply.Pending? && !e.Takes?)
  {
    hide Executed, Fits;
  }

  /** From wherever a session that is in step has come to, clean events of the
      two programs lead back to the prompt. */
  lemma {:induction false} PiecesFinish(h: Hosts, a: Session, s: State) returns (run: seq<Event>)
    requires InStep(h, a, s) && a.current.Some? && WaitingFits(h, a)
    ensures CanRun(h, s, run) && CleanRun(h, s, run) && NoIssue(run) && AtRest(Reached(h, s, run))
    decreases a.current.reply.Pending?, Weight(s)
  {
    var e := PiecesGoOn(h, a, s);
    if e.Takes? {
      NextFits(h, a, s);
    }
    assert e.Does? ==> !e.l.ServerTakes?;
    hide CanHappen, Happen, Clean, InStep, Executed, Weight, FtRuns.Next, Fits, FitStep, AtRest, Follows, FollowEvent,
      WaitingFits;
    EventFollowsExactly(h, a, s, e);
    EventDecides(h, a, s, e);
    var t := Happen(h, s, e);
    var b, rest := FollowEvent(a, e, t), [];
    if t.client.Prompt? {
      PromptIsAtRest(h, b, t);
    } else {
      if !e.Takes? {
        EventDescends(h, s, e);
      }
      UnderWay(h, b, t);
      EventKeepsWaiting(h, a, e, t);
      rest := PiecesFinish(h, b, t);
    }
    OneCleanEvent(h, s, e, rest);
    run := [e] + rest;
  }

  lemma UnderWay(h: Hosts, a: Session, s: State)
    requires InStep(h, a, s) && !s.client.Prompt?
    ensures a.current.Some?
  {
  }

  lemma OneCleanEvent(h: Hosts, s: State, e: Event, rest: seq<Event>)
    requires CanHappen(h, s, e) && Clean(s, e)
    requires CanRun(h, Happen(h, s, e), rest) && CleanRun(h, Happen(h, s, e), rest)
    ensures CanRun(h, s, [e] + rest) && CleanRun(h, s, [e] + rest)
    ensures Reached(h, s, [e] + rest) == Reached(h, Happen(h, s, e), rest)
  {
    hide CanHappen, Happen, Clean;
    assert ([e] + rest)[1..] == rest;
  }

  // A request that is lost

  /** Neither program can go on, and the client is not at its prompt. */
  ghost predicate Waits(h: Hosts, s: State) {
    !s.client.Prompt? && forall e :: !CanHappen(h, s, e)
  }

  function Arguments(cmd: Command): seq<byte> {
    match cmd
    case List(args) => Fitting(args)
    case ChangeDir(args) => Fitting(args)
    case Get(name) => name
    case _ => []
  }

  lemma NothingToDo(h: Hosts, s: State)
    requires (s.client.Printing? || s.client.AwaitHead?) && s.server.Idle? && s.c2s == [] && s.s2c == []
    ensures Waits(h, s)
  {
    hide CanTake, Answers, WholeRequest, WholeHead;
    forall e ensures !CanHappen(h, s, e) {
    }
  }

  lemma OneEvent(h: Hosts, s: State, e: Event, rest: seq<Event>)
    requires CanHappen(h, s, e) && CanRun(h, Happen(h, s, e), rest)
    ensures CanRun(h, s, [e] + rest) && Reached(h, s, [e] + rest) == Reached(h, Happen(h, s, e), rest)
    ensures e.Ignores? ==> Commands([e] + rest, PrintDir) == Commands(rest, PrintDir)
  {
    hide CanHappen, Happen;
    assert ([e] + rest)[1..] == rest;
  }

  /** The padding of one request and the next request, received together. */
  lemma IgnoreAll(h: Hosts, s: State, request: seq<byte>, pad: nat) returns (run: seq<Event>)
    requires s.server.Idle? && 1 <= pad < BUF_SIZE && |s.c2s| == pad + |request| && AllZero(s.c2s[..pad])
    requires s.c2s[pad..] == request
    requires |request| == 1 || (|request| == BUF_SIZE && AllZero(request[BUF_SIZE - pad..]))
    ensures CanRun(h, s, run) && Reached(h, s, run) == s.(c2s := []) && Commands(run, PrintDir) == []
  {
    FirstZero(s.c2s, pad);
    if |request| == 1 {
      assert s.c2s[pad + 1..] == [];
      run := [Ignores(pad + 1)];
      OneEvent(h, s, run[0], []);
      assert [run[0]] + [] == run;
    } else {
      var t := Happen(h, s, Ignores(BUF_SIZE));
      assert t.c2s == request[BUF_SIZE - pad..];
      assert t.c2s[..pad] == t.c2s && t.c2s[pad..] == [];
      FirstZero(t.c2s, pad);
      OneEvent(h, t, Ignores(pad), []);
      assert [Ignores(pad)] + [] == [Ignores(pad)];
      OneEvent(h, s, Ignores(BUF_SIZE), [Ignores(pad)]);
      run := [Ignores(BUF_SIZE)] + [Ignores(pad)];
      assert run[1..] == [Ignores(pad)];
    }
  }

  /** While padding of the last request is on its way, the next one can be lost:
      received together with the padding it is ignored, and client and server
      wait for ever. */
  lemma RequestLost(h: Hosts, s: State, cmd: Command) returns (run: seq<Event>)
    requires AtRest(s) && 1 <= |s.c2s| < BUF_SIZE && Sendable(s, cmd) && !cmd.Put?
    requires |Arguments(cmd)| + 1 + |s.c2s| <= BUF_SIZE
    ensures CanRun(h, s, [Does(Issue(cmd))] + run) && Commands(run, PrintDir) == []
    ensures Waits(h, Reached(h, s, [Does(Issue(cmd))] + run))
  {
    var pad, request, t := |s.c2s|, Request(h, s, cmd), Happen(h, s, Does(Issue(cmd)));
    assert t.c2s == s.c2s + request && t.c2s[..pad] == s.c2s && t.c2s[pad..] == request;
    assert |request| == BUF_SIZE ==> AllZero(request[BUF_SIZE - pad..]);
    run := IgnoreAll(h, t, request, pad);
    NothingToDo(h, t.(c2s := []));
    OneEvent(h, s, Does(Issue(cmd)), run);
  }
}
