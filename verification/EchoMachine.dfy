/**
 The echo service that src/select-echo-server.c and src/epoll-echo-server.c
 both implement, as a machine over what a server asks of the kernel. A
 connection keeps its identity for ever; descriptors are numbers that the
 kernel hands out again.
 */
module EchoMachine {
  type Fd = nat
  type Conn = nat

  datatype Event =
    /** Which descriptors the server asked about and how many it has room for;
        who can be read without waiting, and whether a client can be accepted. */
    | Ready(asked: set<Fd>, room: nat, clients: map<Fd, Conn>, listening: bool)
    | Accept(fd: Fd, conn: Conn)
    | Read(fd: Fd, conn: Conn, size: nat, data: seq<char>)
    | Write(fd: Fd, conn: Conn, data: seq<char>)
    | Close(fd: Fd, conn: Conn)

  datatype Phase = Waiting | MustEcho(fd: Fd, conn: Conn, data: seq<char>) | MustClose(fd: Fd, conn: Conn)

  datatype Machine =
    | Broken
    | Serving(watched: map<Fd, Conn>, ready: map<Fd, Conn>, listening: bool, accepted: nat, phase: Phase)

  function Initial(): Machine {
    Serving(map[], map[], false, 0, Waiting)
  }

  /** One event; Broken when the event is not what the echo service does. */
  function Step(m: Machine, e: Event): Machine {
    if m.Broken? then Broken
    else match e
      case Ready(asked, room, clients, listening) =>
        if m.phase.Waiting? && m.watched.Keys <= asked && room > 0 && clients.Items <= m.watched.Items then
          m.(ready := clients, listening := listening)
        else Broken
      case Accept(fd, conn) =>
        if m.phase.Waiting? && m.listening && fd !in m.watched && conn == m.accepted then
          m.(watched := m.watched[fd := conn], listening := false, accepted := m.accepted + 1)
        else Broken
      case Read(fd, conn, size, data) =>
        if m.phase.Waiting? && fd in m.ready && m.ready[fd] == conn && size > 0 && |data| <= size then
          m.(ready := m.ready - {fd}, phase := if data == [] then MustClose(fd, conn) else MustEcho(fd, conn, data))
        else Broken
      case Write(fd, conn, data) =>
        if m.phase == MustEcho(fd, conn, data) then m.(phase := Waiting) else Broken
      case Close(fd, conn) =>
        if m.phase == MustClose(fd, conn) && fd in m.watched && m.watched[fd] == conn then
          m.(watched := m.watched - {fd}, phase := Waiting)
        else Broken
  }

  function Replay(trace: seq<Event>): Machine {
    if trace == [] then Initial() else Step(Replay(trace[..|trace| - 1]), trace[|trace| - 1])
  }

  lemma ReplayNext(trace: seq<Event>, e: Event)
    ensures Replay(trace + [e]) == Step(Replay(trace), e)
  {
    assert (trace + [e])[..|trace|] == trace;
  }

  // What the machine guarantees

  /** Everything read from a connection, and everything written to it. */
  function Input(trace: seq<Event>, conn: Conn): seq<char> {
    if trace == [] then []
    else
      var front, e := Input(trace[..|trace| - 1], conn), trace[|trace| - 1];
      if e.Read? && e.conn == conn then front + e.data else front
  }

  function Output(trace: seq<Event>, conn: Conn): seq<char> {
    if trace == [] then []
    else
      var front, e := Output(trace[..|trace| - 1], conn), trace[|trace| - 1];
      if e.Write? && e.conn == conn then front + e.data else front
  }

  function Owed(phase: Phase, conn: Conn): seq<char> {
    if phase.MustEcho? && phase.conn == conn then phase.data else []
  }

  lemma {:induction false} OutputCatchesUp(trace: seq<Event>, conn: Conn)
    requires Replay(trace).Serving?
    ensures Input(trace, conn) == Output(trace, conn) + Owed(Replay(trace).phase, conn)
  {
    if trace != [] {
      OutputCatchesUp(trace[..|trace| - 1], conn);
    }
  }

  /** Between rounds, what was written to a connection is exactly what was read
      from it. */
  lemma EchoesExactly(trace: seq<Event>, conn: Conn)
    requires Replay(trace).Serving? && Replay(trace).phase.Waiting?
    ensures Output(trace, conn) == Input(trace, conn)
  {
    OutputCatchesUp(trace, conn);
  }

  /** Connections are watched under one number each, all accepted; ready ones
      are watched ones; nothing is owed to a connection that is not watched. */
  ghost predicate Sound(m: Machine) {
    m.Serving? ==>
      && (forall fd | fd in m.watched :: m.watched[fd] < m.accepted)
      && (forall f, g | f in m.watched && g in m.watched && m.watched[f] == m.watched[g] :: f == g)
      && (forall fd | fd in m.ready :: fd in m.watched && m.watched[fd] == m.ready[fd])
      && (!m.phase.Waiting? ==>
            m.phase.fd in m.watched && m.watched[m.phase.fd] == m.phase.conn && m.phase.fd !in m.ready)
  }

  lemma StepSound(m: Machine, e: Event)
    requires Sound(m)
    ensures Sound(Step(m, e))
  {
    if e.Ready? && m.Serving? && e.clients.Items <= m.watched.Items {
      forall fd | fd in e.clients
        ensures fd in m.watched && m.watched[fd] == e.clients[fd]
      {
        assert (fd, e.clients[fd]) in e.clients.Items;
      }
    }
  }

  lemma {:induction false} ReplaySound(trace: seq<Event>)
    ensures Sound(Replay(trace))
  {
    if trace != [] {
      ReplaySound(trace[..|trace| - 1]);
      StepSound(Replay(trace[..|trace| - 1]), trace[|trace| - 1]);
    }
  }

  // Every connection is closed once, when its end was read

  function Accepts(trace: seq<Event>, conn: Conn): nat {
    if trace == [] then 0
    else Accepts(trace[..|trace| - 1], conn) + One(trace[|trace| - 1].Accept? && trace[|trace| - 1].conn == conn)
  }

  function Ends(trace: seq<Event>, conn: Conn): nat {
    if trace == [] then 0
    else Ends(trace[..|trace| - 1], conn) + One(IsEnd(trace[|trace| - 1], conn))
  }

  function Closes(trace: seq<Event>, conn: Conn): nat {
    if trace == [] then 0
    else Closes(trace[..|trace| - 1], conn) + One(trace[|trace| - 1].Close? && trace[|trace| - 1].conn == conn)
  }

  predicate IsEnd(e: Event, conn: Conn) {
    e.Read? && e.conn == conn && e.data == []
  }

  function One(b: bool): nat {
    if b then 1 else 0
  }

  ghost predicate Watching(m: Machine, conn: Conn)
    requires m.Serving?
  {
    exists fd | fd in m.watched :: m.watched[fd] == conn
  }

  ghost predicate Tallies(m: Machine, conn: Conn, accepts: nat, ends: nat, closes: nat)
    requires m.Serving?
  {
    && accepts == One(conn < m.accepted)
    && ends - closes == One(m.phase.MustClose? && m.phase.conn == conn)
    && accepts - closes == One(Watching(m, conn))
  }

  lemma StepTallies(m: Machine, e: Event, conn: Conn, accepts: nat, ends: nat, closes: nat)
    requires Sound(m) && m.Serving? && Step(m, e).Serving? && Tallies(m, conn, accepts, ends, closes)
    ensures Tallies(Step(m, e), conn, accepts + One(e.Accept? && e.conn == conn),
                    ends + One(IsEnd(e, conn)), closes + One(e.Close? && e.conn == conn))
  {
    var n := Step(m, e);
    match e
    case Accept(fd, c) =>
      assert n.watched[fd] == c;
      if Watching(m, conn) {
        var f :| f in m.watched && m.watched[f] == conn;
        assert f in n.watched && n.watched[f] == conn;
      }
    case Close(fd, c) =>
      if Watching(m, conn) && c != conn {
        var f :| f in m.watched && m.watched[f] == conn;
        assert f in n.watched && n.watched[f] == conn;
      }
    case _ =>
      assert n.watched == m.watched;
  }

  lemma {:induction false} ReplayTallies(trace: seq<Event>, conn: Conn)
    requires Replay(trace).Serving?
    ensures Tallies(Replay(trace), conn, Accepts(trace, conn), Ends(trace, conn), Closes(trace, conn))
  {
    if trace != [] {
      var front, e := trace[..|trace| - 1], trace[|trace| - 1];
      ReplayTallies(front, conn);
      ReplaySound(front);
      StepTallies(Replay(front), e, conn, Accepts(front, conn), Ends(front, conn), Closes(front, conn));
    }
  }

  /** Between rounds a connection is watched exactly if it was accepted and its
      end has not been read; then and only then it has been closed, once. */
  lemma ClosedExactlyAtEnd(trace: seq<Event>, conn: Conn)
    requires Replay(trace).Serving? && Replay(trace).phase.Waiting?
    ensures Closes(trace, conn) == Ends(trace, conn) <= Accepts(trace, conn) <= 1
    ensures Watching(Replay(trace), conn) <==> Accepts(trace, conn) == 1 && Ends(trace, conn) == 0
  {
    ReplayTallies(trace, conn);
  }

  // No stale readiness

  lemma {:induction false} ReplayPrefix(trace: seq<Event>, k: nat)
    requires Replay(trace).Serving? && k <= |trace|
    ensures Replay(trace[..k]).Serving?
  {
    if k == |trace| {
      assert trace[..k] == trace;
    } else {
      ReplayPrefix(trace[..|trace| - 1], k);
      assert trace[..|trace| - 1][..k] == trace[..k];
    }
  }

  /** The kernel's last answer, at r, was that this very connection is ready, and
      its descriptor has not been read, closed or accepted again since. */
  predicate ReadySince(trace: seq<Event>, r: nat, fd: Fd, conn: Conn) {
    && r < |trace| && trace[r].Ready? && fd in trace[r].clients && trace[r].clients[fd] == conn
    && forall j | r < j < |trace| :: !trace[j].Ready? && trace[j].fd != fd
  }

  lemma {:induction false} ReadyIsRecent(trace: seq<Event>, fd: Fd) returns (r: nat)
    requires Replay(trace).Serving? && fd in Replay(trace).ready
    ensures ReadySince(trace, r, fd, Replay(trace).ready[fd])
  {
    var front, e := trace[..|trace| - 1], trace[|trace| - 1];
    if e.Ready? {
      r := |trace| - 1;
    } else {
      ReplaySound(front);
      r := ReadyIsRecent(front, fd);
    }
  }

  /** A descriptor is only ever read because the kernel's last answer named the
      connection that it stands for at that moment: never on account of an
      earlier connection that had the same number. */
  lemma NoStaleRead(trace: seq<Event>, k: nat) returns (r: nat)
    requires Replay(trace).Serving? && k < |trace| && trace[k].Read?
    ensures ReadySince(trace[..k], r, trace[k].fd, trace[k].conn)
  {
    ReplayPrefix(trace, k + 1);
    assert trace[..k + 1][..k] == trace[..k];
    r := ReadyIsRecent(trace[..k], trace[k].fd);
  }

  // Rounds

  /** What a server asks the kernel in a round: about which descriptors, how many
      of them at most, and how much at a time to read from each. */
  datatype Question = Question(asked: set<Fd>, room: nat, size: nat)

  /** Service: a client accepted, read, echoed or closed. */
  predicate IsService(e: Event, size: nat) {
    !e.Ready? && (e.Read? ==> e.size == size)
  }

  /** One answer of the kernel to the question, then only service. */
  predicate OneRound(before: seq<Event>, after: seq<Event>, q: Question) {
    && |before| < |after| && before == after[..|before|]
    && after[|before|].Ready? && after[|before|].asked == q.asked && after[|before|].room == q.room
    && forall k | |before| < k < |after| :: IsService(after[k], q.size)
  }

  predicate Extends(before: seq<Event>, after: seq<Event>, size: nat) {
    && |before| <= |after| && before == after[..|before|]
    && forall k | |before| <= k < |after| :: IsService(after[k], size)
  }

  lemma RoundGrows(before: seq<Event>, middle: seq<Event>, after: seq<Event>, q: Question)
    requires OneRound(before, middle, q) && Extends(middle, after, q.size)
    ensures OneRound(before, after, q)
  {
  }

  /** How often the kernel was asked. */
  function Rounds(trace: seq<Event>): nat {
    if trace == [] then 0 else Rounds(trace[..|trace| - 1]) + One(trace[|trace| - 1].Ready?)
  }

  lemma {:induction false} RoundAdds(before: seq<Event>, after: seq<Event>, q: Question)
    requires OneRound(before, after, q)
    ensures Rounds(after) == Rounds(before) + 1 && Rounds([]) == 0
    decreases |after|
  {
    var front := after[..|after| - 1];
    if |after| == |before| + 1 {
      assert front == before;
    } else {
      assert front[..|before|] == after[..|before|];
      RoundAdds(before, front, q);
    }
  }

  /** Every connection that is watched is asked about, so it can be reported. */
  lemma EveryoneIsAsked(trace: seq<Event>, k: nat)
    requires Replay(trace).Serving? && k < |trace| && trace[k].Ready?
    ensures Replay(trace[..k]).Serving? && Replay(trace[..k]).watched.Keys <= trace[k].asked && trace[k].room > 0
  {
    ReplayPrefix(trace, k + 1);
    ReplayPrefix(trace, k);
    assert trace[..k + 1][..k] == trace[..k];
  }

  lemma {:induction false} ServedOrReady(before: seq<Event>, after: seq<Event>, q: Question, fd: Fd) returns (k: nat)
    requires OneRound(before, after, q) && Replay(after).Serving? && fd in after[|before|].clients
    ensures fd !in Replay(after).ready ==>
      |before| < k < |after| && after[k].Read? && after[k].fd == fd && after[k].conn == after[|before|].clients[fd]
    ensures fd in Replay(after).ready ==> Replay(after).ready[fd] == after[|before|].clients[fd]
  {
    k := 0;
    if |after| > |before| + 1 {
      var shorter, last := after[..|after| - 1], after[|after| - 1];
      k := ServedOrReady(before, shorter, q, fd);
      if fd in Replay(shorter).ready {
        k := |after| - 1;
      }
    }
  }

  /** When nothing is left ready, everyone the kernel named has been read. */
  lemma RoundServesAll(before: seq<Event>, after: seq<Event>, q: Question, fd: Fd) returns (k: nat)
    requires OneRound(before, after, q) && Replay(after).Serving? && Replay(after).ready == map[]
    requires fd in after[|before|].clients
    ensures |before| < k < |after| && after[k].Read? && after[k].fd == fd
    ensures after[k].conn == after[|before|].clients[fd]
  {
    k := ServedOrReady(before, after, q, fd);
  }
}
