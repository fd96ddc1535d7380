/**
 Who owns which descriptor in lib/simplesocket: sockets that can be openings,
 accepted, moved, closed and destroyed, over a kernel that hands out any unused
 number and hands numbers out again. Every opening has a serial of its own, so
 that the two descriptors that one number stood for can be told apart.
 */
module SocketOwnership {
  type Fd = nat
  type Opening = nat
  type Id = nat

  // The kernel

  /** Open descriptors with their openings; the number of openings so far; the
      openings that were closed, in order; and how often a descriptor was closed
      that was not open. */
  datatype Kernel = Kernel(table: map<Fd, Opening>, openings: nat, closed: seq<Opening>, badCloses: nat)

  /** socket() or accept() returning got, -1 for failure. */
  function Allocate(k: Kernel, got: int): Kernel {
    if got < 0 then k else k.(table := k.table[got := k.openings], openings := k.openings + 1)
  }

  predicate CanReturn(k: Kernel, got: int) {
    got == -1 || (got >= 0 && got !in k.table)
  }

  /** ::close(fd). */
  function CloseFd(k: Kernel, fd: Fd): Kernel {
    if fd in k.table then k.(table := k.table - {fd}, closed := k.closed + [k.table[fd]])
    else k.(badCloses := k.badCloses + 1)
  }

  /** Socket::close for a socket that holds fd, -1 for none. */
  function Released(k: Kernel, fd: int): Kernel {
    if fd < 0 then k else CloseFd(k, fd)
  }

  class Os {
    var k: Kernel

    constructor ()
      ensures k == Kernel(map[], 0, [], 0)
    {
      k := Kernel(map[], 0, [], 0);
    }

    method Take(got: int)
      requires CanReturn(k, got)
      modifies this
      ensures k == Allocate(old(k), got)
    {
      if got >= 0 {
        k := k.(table := k.table[got := k.openings], openings := k.openings + 1);
      }
    }

    method Close(fd: Fd)
      modifies this
      ensures k == CloseFd(old(k), fd)
    {
      if fd in k.table {
        k := k.(closed := k.closed + [k.table[fd]], table := k.table - {fd});
      } else {
        k := k.(badCloses := k.badCloses + 1);
      }
    }
  }

  // The class

  datatype Outcome = Done | Thrown

  class TcpSocket {
    const os: Os
    var fd: int

    /** Socket(): _fd(-1). */
    constructor (os: Os)
      ensures this.os == os && fd == -1
    {
      this.os, fd := os, -1;
    }

    /** Socket(int), which accept uses for the descriptor it was given. */
    constructor FromFd(os: Os, given: int)
      ensures this.os == os && fd == given
    {
      this.os, fd := os, given;
    }

    /** Socket(Socket&&). */
    constructor Move(other: TcpSocket)
      modifies other
      ensures os == other.os && fd == old(other.fd) && other.fd == -1
    {
      os, fd := other.os, other.fd;
      new;
      other.fd := -1;
    }

    method Close()
      modifies this, os
      ensures fd == (if old(fd) < 0 then old(fd) else -1) && os.k == Released(old(os.k), old(fd))
    {
      if fd >= 0 {
        os.Close(fd);
        fd := -1;
      }
    }

    /** operator=(Socket&&). */
    method Assign(other: TcpSocket)
      requires os == other.os && fd >= -1
      modifies this, other, os
      ensures this == other ==> fd == old(fd) && os.k == old(os.k)
      ensures this != other ==> fd == old(other.fd) && other.fd == -1 && os.k == Released(old(os.k), old(fd))
    {
      if this != other {
        Close();
        fd := other.fd;
        other.fd := -1;
      }
    }

    /** got is what socket() returns, bound whether bind() succeeds. */
    method Open(got: int, bound: bool) returns (r: Outcome)
      requires CanReturn(os.k, got)
      modifies this, os
      ensures fd == got && os.k == Allocate(old(os.k), got)
      ensures r == if got == -1 || !bound then Thrown else Done
    {
      os.Take(got);
      fd := got;
      if fd == -1 {
        return Thrown;
      }
      if !bound {
        return Thrown;
      }
      r := Done;
    }

    /** got is what accept() returns. */
    method Accept(got: int) returns (r: Outcome, client: TcpSocket?)
      requires CanReturn(os.k, got)
      modifies os
      ensures os.k == Allocate(old(os.k), got)
      ensures r == (if got == -1 then Thrown else Done) && (client == null <==> got == -1)
      ensures client != null ==> fresh(client) && client.os == os && client.fd == got
    {
      os.Take(got);
      if got == -1 {
        return Thrown, null;
      }
      client := new TcpSocket.FromFd(os, got);
      r := Done;
    }
  }

  // Programs that use it

  /** The live sockets with what they hold, and the kernel. */
  datatype State = State(sockets: map<Id, int>, k: Kernel)

  datatype Op =
    | Construct(id: Id)
    | Open(id: Id, got: int, bound: bool)
    | Accept(id: Id, client: Id, got: int)
    | MoveConstruct(id: Id, from: Id)
    | MoveAssign(id: Id, from: Id)
    | Close(id: Id)
    | Destroy(id: Id)

  predicate Enabled(s: State, op: Op) {
    match op
    case Construct(id) => id !in s.sockets
    case Open(id, got, _) => id in s.sockets && CanReturn(s.k, got)
    case Accept(id, client, got) =>
      id in s.sockets && client !in s.sockets && CanReturn(s.k, got) && (s.sockets[id] < 0 ==> got == -1)
    case MoveConstruct(id, from) => id !in s.sockets && from in s.sockets
    case MoveAssign(id, from) => id in s.sockets && from in s.sockets
    case Close(id) => id in s.sockets
    case Destroy(id) => id in s.sockets
  }

  /** Any live socket may be opened with any unused descriptor, asked for a client,
      moved from, closed or destroyed, and system calls may fail at any time. */
  lemma AnythingCanHappen(s: State, id: Id, other: Id, got: Fd, bound: bool)
    requires id in s.sockets && other !in s.sockets && got !in s.k.table
    ensures Enabled(s, Construct(other)) && Enabled(s, Open(id, got, bound)) && Enabled(s, Open(id, -1, bound))
    ensures Enabled(s, Accept(id, other, -1)) && (s.sockets[id] >= 0 ==> Enabled(s, Accept(id, other, got)))
    ensures Enabled(s, MoveConstruct(other, id)) && Enabled(s, MoveAssign(id, id))
    ensures Enabled(s, Close(id)) && Enabled(s, Destroy(id))
  {
  }

  function Step(s: State, op: Op): State
    requires Enabled(s, op)
  {
    match op
    case Construct(id) => s.(sockets := s.sockets[id := -1])
    case Open(id, got, _) => State(s.sockets[id := got], Allocate(s.k, got))
    case Accept(_, client, got) =>
      if got == -1 then s else State(s.sockets[client := got], Allocate(s.k, got))
    case MoveConstruct(id, from) => s.(sockets := s.sockets[id := s.sockets[from]][from := -1])
    case MoveAssign(id, from) =>
      if id == from then s
      else State(s.sockets[id := s.sockets[from]][from := -1], Released(s.k, s.sockets[id]))
    case Close(id) => State(s.sockets[id := -1], Released(s.k, s.sockets[id]))
    case Destroy(id) => State(s.sockets - {id}, Released(s.k, s.sockets[id]))
  }

  /** A program with its sockets, each an object of the class. */
  class Program {
    const os: Os
    var sockets: map<Id, TcpSocket>

    constructor ()
      ensures fresh(os) && Valid() && View() == State(map[], Kernel(map[], 0, [], 0))
    {
      os := new Os();
      sockets := map[];
    }

    ghost predicate Valid()
      reads this, sockets.Values
    {
      && (forall id | id in sockets :: sockets[id].os == os && sockets[id].fd >= -1)
      && forall i, j | i in sockets && j in sockets && i != j :: sockets[i] != sockets[j]
    }

    ghost function View(): State
      reads this, sockets.Values, os
    {
      State(map id | id in sockets :: sockets[id].fd, os.k)
    }

    method DoConstruct(id: Id)
      requires Valid() && id !in sockets
      modifies this
      ensures Valid() && View() == Step(old(View()), Construct(id))
      ensures forall i | i in sockets :: sockets[i] in old(sockets.Values) || fresh(sockets[i])
    {
      var s := new TcpSocket(os);
      sockets := sockets[id := s];
    }

    method DoOpen(id: Id, got: int, bound: bool)
      requires Valid() && id in sockets && CanReturn(os.k, got)
      modifies os, sockets[id]
      ensures Valid() && View() == Step(old(View()), Open(id, got, bound))
    {
      var r := sockets[id].Open(got, bound);
    }

    method DoAccept(id: Id, client: Id, got: int)
      requires Valid() && Enabled(View(), Accept(id, client, got))
      modifies this, os
      ensures Valid() && View() == Step(old(View()), Accept(id, client, got))
      ensures forall i | i in sockets :: sockets[i] in old(sockets.Values) || fresh(sockets[i])
    {
      var r, s := sockets[id].Accept(got);
      if s != null {
        sockets := sockets[client := s];
      }
      assert View().sockets == if got == -1 then old(View().sockets) else old(View().sockets)[client := got];
    }

    method DoMove(id: Id, from: Id)
      requires Valid() && id !in sockets && from in sockets
      modifies this, sockets[from]
      ensures Valid() && View() == Step(old(View()), MoveConstruct(id, from))
      ensures forall i | i in sockets :: sockets[i] in old(sockets.Values) || fresh(sockets[i])
    {
      var s := new TcpSocket.Move(sockets[from]);
      sockets := sockets[id := s];
      assert View().sockets == old(View().sockets)[id := old(sockets[from].fd)][from := -1];
    }

    method DoAssign(id: Id, from: Id)
      requires Valid() && id in sockets && from in sockets
      modifies os, sockets[id], sockets[from]
      ensures Valid() && View() == Step(old(View()), MoveAssign(id, from))
    {
      sockets[id].Assign(sockets[from]);
    }

    method DoClose(id: Id)
      requires Valid() && id in sockets
      modifies os, sockets[id]
      ensures Valid() && View() == Step(old(View()), Close(id))
    {
      sockets[id].Close();
    }

    /** The destructor closes. */
    method DoDestroy(id: Id)
      requires Valid() && id in sockets
      modifies this, os, sockets[id]
      ensures Valid() && View() == Step(old(View()), Destroy(id))
      ensures forall i | i in sockets :: sockets[i] in old(sockets.Values) || fresh(sockets[i])
    {
      sockets[id].Close();
      sockets := sockets - {id};
    }

    method Do(op: Op)
      requires Valid() && Enabled(View(), op)
      modifies this, os, sockets.Values
      ensures Valid() && View() == Step(old(View()), op)
      ensures forall i | i in sockets :: sockets[i] in old(sockets.Values) || fresh(sockets[i])
    {
      match op {
        case Construct(id) => DoConstruct(id);
        case Open(id, got, bound) => DoOpen(id, got, bound);
        case Accept(id, client, got) => DoAccept(id, client, got);
        case MoveConstruct(id, from) => DoMove(id, from);
        case MoveAssign(id, from) => DoAssign(id, from);
        case Close(id) => DoClose(id);
        case Destroy(id) => DoDestroy(id);
      }
    }

    /** Any run of operations on the objects of the class is a run of Step. */
    method Run(run: seq<Op>)
      requires Valid() && Possible(View(), run)
      modifies this, os, sockets.Values
      ensures Valid() && View() == After(old(View()), run)
    {
      hide Enabled, Step;
      ghost var start := View();
      var i := 0;
      while i < |run|
        invariant i <= |run| && Valid()
        invariant Possible(View(), run[i..]) && After(View(), run[i..]) == After(start, run)
        invariant forall id | id in sockets :: sockets[id] in old(sockets.Values) || fresh(sockets[id])
      {
        assert run[i..][0] == run[i] && run[i..][1..] == run[i + 1..];
        Do(run[i]);
        i := i + 1;
      }
    }
  }

  predicate Possible(s: State, run: seq<Op>)
    decreases |run|
  {
    run == [] || (Enabled(s, run[0]) && Possible(Step(s, run[0]), run[1..]))
  }

  function After(s: State, run: seq<Op>): State
    requires Possible(s, run)
    decreases |run|
  {
    if run == [] then s else After(Step(s, run[0]), run[1..])
  }

  function Start(): State {
    State(map[], Kernel(map[], 0, [], 0))
  }

  // The ledger

  predicate Holds(s: State, id: Id) {
    id in s.sockets && s.sockets[id] >= 0
  }

  /** Every descriptor that a socket holds is open and held by no other socket;
      no descriptor was closed that was not open. */
  ghost predicate Sole(s: State) {
    && (forall id | id in s.sockets :: s.sockets[id] >= -1)
    && (forall id | Holds(s, id) :: s.sockets[id] in s.k.table)
    && (forall i, j | Holds(s, i) && Holds(s, j) && s.sockets[i] == s.sockets[j] :: i == j)
    && s.k.badCloses == 0
  }

  ghost predicate Held(s: State, fd: Fd) {
    exists id :: Holds(s, id) && s.sockets[id] == fd
  }

  /** The kernel's open descriptors are the held ones. */
  ghost predicate NoneLost(s: State) {
    forall fd | fd in s.k.table :: Held(s, fd)
  }

  function Count(closed: seq<Opening>, n: Opening): nat {
    if closed == [] then 0 else Count(closed[..|closed| - 1], n) + if closed[|closed| - 1] == n then 1 else 0
  }

  ghost predicate IsOpen(k: Kernel, n: Opening) {
    exists fd :: fd in k.table && k.table[fd] == n
  }

  /** Every opening that is not open any more was closed exactly once, and no
      opening is open under two numbers. */
  ghost predicate Balanced(k: Kernel) {
    && (forall fd | fd in k.table :: k.table[fd] < k.openings)
    && (forall f, g | f in k.table && g in k.table && k.table[f] == k.table[g] :: f == g)
    && (forall n: Opening :: Count(k.closed, n) == if n < k.openings && !IsOpen(k, n) then 1 else 0)
  }

  lemma AllocateBalanced(k: Kernel, got: int)
    requires Balanced(k) && CanReturn(k, got)
    ensures Balanced(Allocate(k, got))
  {
    if got >= 0 {
      var next := Allocate(k, got);
      forall n: Opening
        ensures IsOpen(next, n) <==> IsOpen(k, n) || n == k.openings
      {
        if n == k.openings {
          assert next.table[got] == n;
        }
        if IsOpen(k, n) {
          var fd :| fd in k.table && k.table[fd] == n;
          assert fd in next.table && next.table[fd] == n;
        }
      }
    }
  }

  lemma CloseBalanced(k: Kernel, fd: Fd)
    requires Balanced(k) && fd in k.table
    ensures Balanced(CloseFd(k, fd))
  {
    var next := CloseFd(k, fd);
    assert next.closed[..|next.closed| - 1] == k.closed;
    forall n: Opening
      ensures IsOpen(next, n) <==> IsOpen(k, n) && n != k.table[fd]
    {
      if IsOpen(k, n) && n != k.table[fd] {
        var f :| f in k.table && k.table[f] == n;
        assert f in next.table && next.table[f] == n;
      }
    }
    assert IsOpen(k, k.table[fd]);
  }

  lemma StepBalanced(s: State, op: Op)
    requires Sole(s) && Balanced(s.k) && Enabled(s, op)
    ensures Balanced(Step(s, op).k)
  {
    match op
    case Open(_, got, _) => AllocateBalanced(s.k, got);
    case Accept(_, _, got) => AllocateBalanced(s.k, got);
    case MoveAssign(id, from) => ReleaseBalanced(s, id);
    case Close(id) => ReleaseBalanced(s, id);
    case Destroy(id) => ReleaseBalanced(s, id);
    case _ =>
  }

  lemma ReleaseBalanced(s: State, id: Id)
    requires Sole(s) && Balanced(s.k) && id in s.sockets
    ensures Balanced(Released(s.k, s.sockets[id]))
  {
    if s.sockets[id] >= 0 {
      assert Holds(s, id);
      CloseBalanced(s.k, s.sockets[id]);
    }
  }

  lemma CloseSole(s: State, id: Id)
    requires Sole(s) && id in s.sockets
    ensures Sole(Step(s, Close(id))) && Step(s, Close(id)).sockets[id] == -1
  {
    assert Holds(s, id) || s.sockets[id] == -1;
  }

  /** One socket takes over what another holds. */
  lemma TransferSole(s: State, id: Id, from: Id)
    requires Sole(s) && from in s.sockets && id != from && (id in s.sockets ==> s.sockets[id] < 0)
    ensures Sole(s.(sockets := s.sockets[id := s.sockets[from]][from := -1]))
  {
    assert Holds(s, from) || s.sockets[from] == -1;
  }

  /** A socket is given a number that was unused. */
  lemma GiveSole(s: State, id: Id, got: int)
    requires Sole(s) && CanReturn(s.k, got)
    ensures Sole(State(s.sockets[id := got], Allocate(s.k, got)))
  {
  }

  lemma StepSole(s: State, op: Op)
    requires Sole(s) && Enabled(s, op)
    ensures Sole(Step(s, op))
  {
    match op
    case Construct(id) => GiveSole(s, id, -1);
    case Open(id, got, _) => GiveSole(s, id, got);
    case Accept(_, client, got) => GiveSole(s, client, got);
    case MoveConstruct(id, from) => TransferSole(s, id, from);
    case MoveAssign(id, from) =>
      if id != from {
        CloseSole(s, id);
        TransferSole(Step(s, Close(id)), id, from);
        assert s.sockets[id := -1][id := s.sockets[from]] == s.sockets[id := s.sockets[from]];
      }
    case Close(id) => CloseSole(s, id);
    case Destroy(id) =>
      CloseSole(s, id);
      assert s.sockets - {id} == Step(s, Close(id)).sockets - {id};
      DropSole(Step(s, Close(id)), id);
  }

  lemma DropSole(s: State, id: Id)
    requires Sole(s)
    ensures Sole(s.(sockets := s.sockets - {id}))
  {
  }

  // Nothing is lost, unless a socket that holds a descriptor is opened again

  predicate Overwrites(s: State, op: Op) {
    op.Open? && Holds(s, op.id)
  }

  ghost predicate Lost(s: State, fd: Fd) {
    fd in s.k.table && !Held(s, fd)
  }

  lemma LostStaysLost(s: State, op: Op, fd: Fd)
    requires Sole(s) && Enabled(s, op) && Lost(s, fd)
    ensures Lost(Step(s, op), fd)
  {
    forall id | Holds(Step(s, op), id)
      ensures Step(s, op).sockets[id] != fd
    {
      assert Holds(s, id) ==> s.sockets[id] != fd;
    }
    assert op.MoveConstruct? || op.MoveAssign? ==> (Holds(s, op.from) ==> s.sockets[op.from] != fd);
    assert op.MoveAssign? || op.Close? || op.Destroy? ==> (Holds(s, op.id) ==> s.sockets[op.id] != fd);
  }

  lemma OverwritingLoses(s: State, op: Op)
    requires Sole(s) && Enabled(s, op) && Overwrites(s, op)
    ensures Lost(Step(s, op), s.sockets[op.id])
  {
  }

  /** The socket that holds after the operation what id held before. */
  function Target(op: Op, id: Id): Id {
    match op
    case MoveConstruct(to, from) => if id == from then to else id
    case MoveAssign(to, from) => if id == from then to else id
    case _ => id
  }

  lemma OldStaysHeld(s: State, op: Op, fd: Fd)
    requires Sole(s) && Held(s, fd) && Enabled(s, op) && !Overwrites(s, op) && fd in Step(s, op).k.table
    ensures Held(Step(s, op), fd)
  {
    var id :| Holds(s, id) && s.sockets[id] == fd;
    assert Holds(Step(s, op), Target(op, id)) && Step(s, op).sockets[Target(op, id)] == fd;
  }

  lemma NewIsHeld(s: State, op: Op, fd: Fd)
    requires Enabled(s, op) && fd !in s.k.table && fd in Step(s, op).k.table
    ensures Held(Step(s, op), fd)
  {
    assert Holds(Step(s, op), if op.Open? then op.id else op.client);
  }

  /** No operation of the run opens a socket that already holds a descriptor. */
  predicate NeverOverwrites(s: State, run: seq<Op>)
    requires Possible(s, run)
    decreases |run|
  {
    run == [] || (!Overwrites(s, run[0]) && NeverOverwrites(Step(s, run[0]), run[1..]))
  }

  lemma {:induction false} RunIsSound(s: State, run: seq<Op>)
    requires Sole(s) && Balanced(s.k) && Possible(s, run)
    ensures Sole(After(s, run)) && Balanced(After(s, run).k)
    decreases |run|
  {
    hide Step, Enabled, Sole, Balanced;
    if run != [] {
      StepSole(s, run[0]);
      StepBalanced(s, run[0]);
      RunIsSound(Step(s, run[0]), run[1..]);
    }
  }

  lemma {:induction false} RunLosesExactly(s: State, run: seq<Op>)
    requires Sole(s) && Possible(s, run)
    ensures NoneLost(After(s, run)) <==> NoneLost(s) && NeverOverwrites(s, run)
    decreases |run|
  {
    hide Step, Enabled, Sole;
    if run != [] {
      var op, t := run[0], Step(s, run[0]);
      StepSole(s, op);
      RunLosesExactly(t, run[1..]);
      if !NoneLost(s) {
        var fd :| fd in s.k.table && !Held(s, fd);
        LostStaysLost(s, op, fd);
        assert Lost(t, fd);
      } else if Overwrites(s, op) {
        OverwritingLoses(s, op);
        assert Lost(t, s.sockets[op.id]);
      } else {
        forall fd | fd in t.k.table
          ensures Held(t, fd)
        {
          if fd in s.k.table {
            OldStaysHeld(s, op, fd);
          } else {
            NewIsHeld(s, op, fd);
          }
        }
      }
    }
  }

  lemma StartIsSound()
    ensures Sole(Start()) && Balanced(Start().k) && NoneLost(Start())
  {
  }

  /** Over every run, live sockets hold pairwise distinct descriptors, all open,
      none is closed that is not open, and every opening that is no longer open
      was closed exactly once, however numbers were handed out again. */
  lemma EveryRunIsSound(run: seq<Op>)
    requires Possible(Start(), run)
    ensures Sole(After(Start(), run)) && Balanced(After(Start(), run).k)
  {
    StartIsSound();
    RunIsSound(Start(), run);
  }

  /** After a run the kernel's open descriptors are exactly those that live
      sockets hold, if and only if no socket was opened while it held one. */
  lemma OpenIsHeldExactly(run: seq<Op>)
    requires Possible(Start(), run)
    ensures (forall fd :: fd in After(Start(), run).k.table <==> Held(After(Start(), run), fd))
            <==> NeverOverwrites(Start(), run)
  {
    StartIsSound();
    RunIsSound(Start(), run);
    RunLosesExactly(Start(), run);
  }

  /** A socket that is opened twice: descriptor 0 stays open and nobody holds it. */
  lemma OpenedTwice()
    ensures var run := [Construct(0), Op.Open(0, 0, true), Op.Open(0, 1, true)];
      && Possible(Start(), run) && !NeverOverwrites(Start(), run)
      && 0 in After(Start(), run).k.table && !Held(After(Start(), run), 0)
  {
    var a, b, c := Construct(0), Op.Open(0, 0, true), Op.Open(0, 1, true);
    var run := [a, b, c];
    assert run[1..] == [b, c] && run[1..][1..] == [c] && [c][1..] == [];
    var s1 := Step(Start(), a);
    var s2 := Step(s1, b);
    var s3 := Step(s2, c);
    assert s2.sockets == map[0 := 0] && s3.sockets == map[0 := 1] && s3.k.table == map[0 := 0, 1 := 1];
    assert Possible(s3, []) && After(s3, []) == s3;
    assert Possible(s2, [c]) && After(s2, [c]) == s3;
    assert Possible(s1, [b, c]) && After(s1, [b, c]) == s3;
    assert Overwrites(s2, c) && !NeverOverwrites(s2, [c]);
  }

  ghost predicate EachClosedOnce(k: Kernel) {
    forall n: Opening | n < k.openings :: Count(k.closed, n) == 1
  }

  lemma NothingOpenExactly(s: State)
    requires Balanced(s.k) && s.sockets == map[]
    ensures EachClosedOnce(s.k) <==> NoneLost(s)
  {
    hide Count;
    assert forall fd :: !Held(s, fd);
    if fd :| fd in s.k.table {
      var n := s.k.table[fd];
      assert !NoneLost(s) by {
        assert !Held(s, fd);
      }
      assert IsOpen(s.k, n);
      assert n < s.k.openings && Count(s.k.closed, n) == 0;
    } else {
      assert NoneLost(s);
      forall n: Opening | n < s.k.openings
        ensures Count(s.k.closed, n) == 1
      {
        assert !IsOpen(s.k, n);
      }
    }
  }

  /** When the last socket is gone, every opening has been closed exactly once,
      if and only if no socket was opened while it held a descriptor. */
  lemma AllClosedExactly(run: seq<Op>)
    requires Possible(Start(), run) && After(Start(), run).sockets == map[]
    ensures EachClosedOnce(After(Start(), run).k) <==> NeverOverwrites(Start(), run)
  {
    StartIsSound();
    RunIsSound(Start(), run);
    RunLosesExactly(Start(), run);
    NothingOpenExactly(After(Start(), run));
  }
}
