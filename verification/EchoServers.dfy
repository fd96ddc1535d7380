/**
 The main loops of src/select-echo-server.c and src/epoll-echo-server.c over a
 kernel that hands out any unused descriptor, reports any of the watched
 descriptors as ready, and returns any data up to the size asked for, nothing
 meaning that the client has closed.
 */
module EchoServers {
  import opened EchoMachine

  class Kernel {
    /** The clients that are open: descriptor and connection. */
    var clients: map<Fd, Conn>
    var accepted: nat
    /** Every request the server has made, with the kernel's answer. */
    ghost var trace: seq<Event>
    /** Descriptors the process holds besides its clients, the listener among them. */
    const others: set<Fd>
    const listener: Fd

    constructor (others: set<Fd>, listener: Fd)
      requires listener in others
      ensures this.others == others && this.listener == listener && clients == map[] && accepted == 0 && trace == []
    {
      this.others, this.listener := others, listener;
      clients, accepted, trace := map[], 0, [];
    }

    /** The kernel and the machine agree: this much is ready and not yet served. */
    ghost predicate Serves(ready: map<Fd, Conn>, listening: bool)
      reads this
    {
      && listener in others && clients.Keys !! others
      && Replay(trace) == EchoMachine.Serving(clients, ready, listening, accepted, Waiting)
    }

    /** At most room of the descriptors asked about, those that are ready. */
    method Poll(asked: set<Fd>, room: nat) returns (ready: set<Fd>)
      requires asked == clients.Keys + {listener} && room > 0 && Serves(map[], false)
      modifies `trace
      ensures ready <= asked && |ready| <= room
      ensures trace == old(trace) + [Ready(asked, room, Among(ready, clients), listener in ready)]
      ensures Serves(Among(ready, clients), listener in ready)
    {
      ready := {};
      assert ready <= asked && |ready| <= room;
      ready :| ready <= asked && |ready| <= room;
      ghost var e := Ready(asked, room, Among(ready, clients), listener in ready);
      AmongItems(ready, clients);
      ReplayNext(trace, e);
      trace := trace + [e];
    }

    method AcceptClient(ghost ready: map<Fd, Conn>) returns (fd: Fd)
      requires Serves(ready, true)
      modifies `clients, `accepted, `trace
      ensures fd !in old(clients) && fd !in others && clients.Keys == old(clients.Keys) + {fd}
      ensures Serves(ready, false)
      ensures forall f | f in old(clients) :: clients[f] == old(clients[f])
      ensures trace == old(trace) + [EchoMachine.Accept(fd, old(accepted))]
    {
      fd := AnyUnused(clients.Keys + others);
      ghost var e := EchoMachine.Accept(fd, accepted);
      ReplayNext(trace, e);
      trace := trace + [e];
      clients := clients[fd := accepted];
      accepted := accepted + 1;
    }

    /** One read, then what the server does with it: write all of it back, or
        stop watching and close. */
    method ReadClient(fd: Fd, size: nat, ghost ready: map<Fd, Conn>, ghost listening: bool) returns (data: seq<char>)
      requires Serves(ready, listening) && fd in ready && fd in clients && ready[fd] == clients[fd] && size > 0
      modifies `trace
      ensures |data| <= size && trace == old(trace) + [EchoMachine.Read(fd, clients[fd], size, data)]
      ensures Replay(trace) == EchoMachine.Serving(clients, ready - {fd}, listening, accepted,
                if data == [] then MustClose(fd, clients[fd]) else MustEcho(fd, clients[fd], data))
    {
      data := [];
      assert |data| <= size;
      data :| |data| <= size;
      ghost var e := EchoMachine.Read(fd, clients[fd], size, data);
      ReplayNext(trace, e);
      trace := trace + [e];
    }

    method WriteClient(fd: Fd, data: seq<char>, ghost ready: map<Fd, Conn>, ghost listening: bool)
      requires fd in clients && listener in others && clients.Keys !! others
      requires Replay(trace)
            == EchoMachine.Serving(clients, ready, listening, accepted, MustEcho(fd, clients[fd], data))
      modifies `trace
      ensures Serves(ready, listening) && trace == old(trace) + [EchoMachine.Write(fd, clients[fd], data)]
    {
      ghost var e := EchoMachine.Write(fd, clients[fd], data);
      ReplayNext(trace, e);
      trace := trace + [e];
    }

    method CloseClient(fd: Fd, ghost ready: map<Fd, Conn>, ghost listening: bool)
      requires fd in clients && listener in others && clients.Keys !! others
      requires Replay(trace) == EchoMachine.Serving(clients, ready, listening, accepted, MustClose(fd, clients[fd]))
      modifies `clients, `trace
      ensures clients == old(clients) - {fd}
      ensures Serves(ready, listening) && trace == old(trace) + [EchoMachine.Close(fd, old(clients[fd]))]
    {
      ghost var e := EchoMachine.Close(fd, clients[fd]);
      ReplayNext(trace, e);
      trace := trace + [e];
      clients := clients - {fd};
    }
  }

  /** The connections that a set of descriptors stands for. */
  function Among(fds: set<Fd>, clients: map<Fd, Conn>): map<Fd, Conn> {
    map f | f in fds && f in clients :: clients[f]
  }

  lemma AmongItems(fds: set<Fd>, clients: map<Fd, Conn>)
    ensures Among(fds, clients).Items <= clients.Items
  {
  }

  lemma AmongNone(fds: set<Fd>, clients: map<Fd, Conn>)
    requires fds == {}
    ensures Among(fds, clients) == map[]
  {
  }

  /** A descriptor that is served and perhaps closed leaves the rest as it was. */
  lemma Served(fds: set<Fd>, fd: Fd, before: map<Fd, Conn>, after: map<Fd, Conn>)
    requires fd in fds && fd in before && (after == before || after == before - {fd})
    ensures fd in Among(fds, before) && Among(fds, before)[fd] == before[fd]
    ensures Among(fds, before) - {fd} == Among(fds - {fd}, after)
  {
  }

  /** A client that is accepted under an unused number is not among those that
      the kernel reported, even when one of them had that number before. */
  lemma Joined(fds: set<Fd>, listener: Fd, before: map<Fd, Conn>, after: map<Fd, Conn>)
    requires listener !in before && fds - {listener} <= before.Keys
    requires forall f | f in before :: f in after && after[f] == before[f]
    ensures Among(fds, before) == Among(fds - {listener}, after)
  {
  }

  method AnyUnused(used: set<Fd>) returns (fd: Fd)
    ensures fd !in used
  {
    ghost var free := Unused(used);
    assert free !in used;
    fd :| fd !in used;
  }

  lemma Unused(used: set<Fd>) returns (fd: Fd)
    ensures fd !in used
  {
    fd := 0;
    var left := used;
    while fd in left
      invariant forall f | f in used && f >= fd :: f in left
      decreases left
    {
      left := left - {fd};
      fd := fd + 1;
    }
  }

  const SELECT_BUF_SIZE: nat := 64
  const EPOLL_BUF_SIZE: nat := 64
  const MAX_EVENT: nat := 1024

  /** What both loops do with a client that is ready. */
  method EchoOnce(kernel: Kernel, fd: Fd, size: nat, ghost ready: map<Fd, Conn>, ghost listening: bool)
    returns (open: bool)
    requires kernel.Serves(ready, listening) && fd in ready && fd in kernel.clients && ready[fd] == kernel.clients[fd]
    requires size > 0
    modifies kernel
    ensures kernel.Serves(ready - {fd}, listening) && Extends(old(kernel.trace), kernel.trace, size)
    ensures kernel.clients == if open then old(kernel.clients) else old(kernel.clients) - {fd}
  {
    var data := kernel.ReadClient(fd, size, ready, listening);
    if data == [] {
      kernel.CloseClient(fd, ready - {fd}, listening);
    } else {
      kernel.WriteClient(fd, data, ready - {fd}, listening);
    }
    open := data != [];
  }

  /** The bits of look that the loop over descriptors has yet to come to. */
  function StillSet(look: set<Fd>, i: nat): set<Fd> {
    set f | f in look && f >= i
  }

  /** The descriptors that select looks at. */
  function Below(fds: set<Fd>, maxFd: nat): set<Fd> {
    set f | f in fds && f < maxFd
  }

  lemma BelowAll(fds: set<Fd>, maxFd: nat)
    requires forall f | f in fds :: f < maxFd
    ensures Below(fds, maxFd) == fds
  {
  }

  lemma StillAll(look: set<Fd>)
    ensures StillSet(look, 0) == look
  {
  }

  lemma StillNext(look: set<Fd>, i: nat)
    ensures StillSet(look, i + 1) == StillSet(look, i) - {i} && (i in StillSet(look, i) <==> i in look)
    ensures i !in look ==> StillSet(look, i + 1) == StillSet(look, i)
  {
  }

  lemma NothingReported(look: set<Fd>, clients: map<Fd, Conn>)
    requires look == {}
    ensures Among(StillSet(look, 0), clients) == map[] && StillSet(look, 0) == {}
  {
  }

  lemma RoundOver(look: set<Fd>, i: nat, maxFd: nat, watched: set<Fd>, clients: map<Fd, Conn>)
    requires StillSet(look, i) <= watched && i >= maxFd && forall f | f in watched :: f < maxFd
    ensures Among(StillSet(look, i), clients) == map[] && StillSet(look, i) == {}
  {
  }

  class SelectServer {
    const kernel: Kernel
    var readFds: set<Fd>
    var maxFd: nat

    /** Exactly the listener and the open clients are watched, all below maxFd,
        and nothing the kernel reported is left unserved. */
    ghost predicate Valid()
      reads this, kernel
    {
      && readFds == kernel.clients.Keys + {kernel.listener}
      && (forall f | f in readFds :: f < maxFd)
      && kernel.Serves(map[], false)
    }

    constructor (kernel: Kernel)
      requires kernel.clients == map[] && kernel.Serves(map[], false)
      ensures Valid() && this.kernel == kernel && maxFd == kernel.listener + 1
    {
      this.kernel := kernel;
      readFds, maxFd := {kernel.listener}, kernel.listener + 1;
    }

    /** Valid but for the bits of look from i on, which are still to be served. */
    ghost predicate InRound(look: set<Fd>, i: nat)
      reads this, kernel
    {
      && readFds == kernel.clients.Keys + {kernel.listener}
      && (forall f | f in readFds :: f < maxFd)
      && StillSet(look, i) <= readFds
      && kernel.Serves(Among(StillSet(look, i), kernel.clients), kernel.listener in StillSet(look, i))
    }

    /** All clients and the listener, with room for all of them, 64 bytes each. */
    ghost function Everything(): Question
      reads kernel`clients
    {
      var all := kernel.clients.Keys + {kernel.listener};
      Question(all, |all|, 64)
    }

    /** select over the descriptors below maxFd. */
    method Select() returns (look: set<Fd>)
      requires Valid()
      modifies kernel
      ensures InRound(look, 0) && kernel.clients == old(kernel.clients)
      ensures OneRound(old(kernel.trace), kernel.trace, old(Everything()))
    {
      BelowAll(readFds, maxFd);
      look := kernel.Poll(Below(readFds, maxFd), |readFds|);
      StillAll(look);
    }

    /** The body of the loop over descriptors. */
    method Visit(look: set<Fd>, i: nat)
      requires InRound(look, i)
      modifies this, kernel
      ensures InRound(look, i + 1) && Extends(old(kernel.trace), kernel.trace, 64)
      ensures forall f | f in readFds - old(readFds) :: maxFd == if old(maxFd) < f + 1 then f + 1 else old(maxFd)
      ensures readFds <= old(readFds) ==> maxFd == old(maxFd)
      ensures if i == kernel.listener then old(maxFd) <= maxFd else readFds <= old(readFds)
    {
      hide Replay, Among, StillSet;
      ghost var still, before := StillSet(look, i), kernel.clients;
      ghost var ready := Among(still, before);
      StillNext(look, i);
      if i in look {
        if i == kernel.listener {
          var client := kernel.AcceptClient(ready);
          readFds := readFds + {client};
          if maxFd < client + 1 {
            maxFd := client + 1;
          }
          Joined(still, i, before, kernel.clients);
        } else {
          Served(still, i, before, before);
          var open := EchoOnce(kernel, i, SELECT_BUF_SIZE, ready, kernel.listener in still);
          if !open {
            readFds := readFds - {i};
          }
          Served(still, i, before, kernel.clients);
        }
      }
    }

    /** The loop over descriptors below maxFd, which grows when a client is
        accepted on the way. */
    method VisitAll(look: set<Fd>, ghost before: seq<Event>, ghost q: Question)
      requires InRound(look, 0) && OneRound(before, kernel.trace, q) && q.size == 64
      modifies this, kernel
      ensures Valid() && old(maxFd) <= maxFd && OneRound(before, kernel.trace, q)
    {
      hide Replay, Among, StillSet, Below, Kernel.Serves, OneRound, Extends, InRound, Valid;
      var i := 0;
      while i < maxFd
        invariant InRound(look, i) && old(maxFd) <= maxFd && OneRound(before, kernel.trace, q)
        decreases i <= kernel.listener, maxFd - i
      {
        ghost var middle := kernel.trace;
        Visit(look, i);
        RoundGrows(before, middle, kernel.trace, q);
        i := i + 1;
      }
      AllVisited(look, i);
    }

    /** One pass of the outer loop: select, then every descriptor. */
    method Round()
      requires Valid()
      modifies this, kernel
      ensures Valid() && old(maxFd) <= maxFd && OneRound(old(kernel.trace), kernel.trace, old(Everything()))
    {
      ghost var before, q := kernel.trace, Everything();
      assert q.size == 64;
      var look := Select();
      hide Replay, Among, StillSet, Below, Kernel.Serves, OneRound, Extends, Everything, InRound, Valid;
      if look == {} {
        NothingToServe(look);
        return;
      }
      VisitAll(look, before, q);
    }

    lemma NothingToServe(look: set<Fd>)
      requires InRound(look, 0) && look == {}
      ensures Valid()
    {
      NothingReported(look, kernel.clients);
    }

    lemma AllVisited(look: set<Fd>, i: nat)
      requires InRound(look, i) && i >= maxFd
      ensures Valid()
    {
      RoundOver(look, i, maxFd, readFds, kernel.clients);
    }

    /** The endless loop, cut after any number of rounds. */
    method Serve(rounds: nat)
      requires Valid()
      modifies this, kernel
      ensures Valid() && old(kernel.trace) <= kernel.trace
      ensures Rounds(kernel.trace) == Rounds(old(kernel.trace)) + rounds
    {
      hide Valid, Rounds, Everything;
      for n := 0 to rounds
        invariant Valid() && old(kernel.trace) <= kernel.trace
        invariant Rounds(kernel.trace) == Rounds(old(kernel.trace)) + n
      {
        ghost var before, q := kernel.trace, Everything();
        Round();
        RoundAdds(before, kernel.trace, q);
      }
    }
  }

  class EpollServer {
    const kernel: Kernel
    /** The kernel's interest set, changed by epoll_ctl. */
    var interest: set<Fd>

    ghost predicate Valid()
      reads this, kernel
    {
      interest == kernel.clients.Keys + {kernel.listener} && kernel.Serves(map[], false)
    }

    constructor (kernel: Kernel)
      requires kernel.clients == map[] && kernel.Serves(map[], false)
      ensures Valid() && this.kernel == kernel
    {
      this.kernel := kernel;
      interest := {kernel.listener};
    }

    /** All clients and the listener, with room for 1024 events, 64 bytes each. */
    ghost function Everything(): Question
      reads kernel`clients
    {
      Question(kernel.clients.Keys + {kernel.listener}, 1024, 64)
    }

    /** epoll_wait: the ready descriptors, each once, in any order. */
    method EpollWait() returns (events: seq<Fd>)
      requires Valid()
      modifies kernel
      ensures |events| <= MAX_EVENT && Distinct(events) && From(events, 0) <= interest
      ensures kernel.Serves(Among(From(events, 0), kernel.clients), kernel.listener in From(events, 0))
      ensures kernel.clients == old(kernel.clients) && OneRound(old(kernel.trace), kernel.trace, old(Everything()))
    {
      var ready := kernel.Poll(interest, MAX_EVENT);
      events := AnyListing(ready);
    }

    /** Valid but for the events from i on, which are still to be served. */
    ghost predicate InRound(events: seq<Fd>, i: nat)
      reads this, kernel
    {
      && interest == kernel.clients.Keys + {kernel.listener}
      && From(events, i) <= interest
      && kernel.Serves(Among(From(events, i), kernel.clients), kernel.listener in From(events, i))
    }

    /** The body of the loop over events. */
    method Handle(events: seq<Fd>, i: nat)
      requires i < |events| && Distinct(events) && InRound(events, i)
      modifies this, kernel
      ensures InRound(events, i + 1) && Extends(old(kernel.trace), kernel.trace, 64)
    {
      hide Replay, Among, From;
      ghost var still, before := From(events, i), kernel.clients;
      ghost var ready := Among(still, before);
      FromNext(events, i);
      if events[i] == kernel.listener {
        var client := kernel.AcceptClient(ready);
        interest := interest + {client};
        Joined(still, events[i], before, kernel.clients);
      } else {
        Served(still, events[i], before, before);
        var open := EchoOnce(kernel, events[i], EPOLL_BUF_SIZE, ready, kernel.listener in still);
        if !open {
          interest := interest - {events[i]};
        }
        Served(still, events[i], before, kernel.clients);
      }
    }

    /** One pass of the outer loop: epoll_wait, then every event in turn. */
    method Round()
      requires Valid()
      modifies this, kernel
      ensures Valid() && OneRound(old(kernel.trace), kernel.trace, old(Everything()))
    {
      ghost var start, q := kernel.trace, Everything();
      assert q.size == 64;
      var events := EpollWait();
      assert InRound(events, 0);
      hide Replay, Among, From, OneRound, Extends, Everything, InRound, Valid, Distinct, Kernel.Serves;
      var i := 0;
      while i < |events|
        invariant i <= |events| && InRound(events, i) && OneRound(start, kernel.trace, q)
      {
        ghost var middle := kernel.trace;
        Handle(events, i);
        RoundGrows(start, middle, kernel.trace, q);
        i := i + 1;
      }
      EventsOver(events);
    }

    lemma EventsOver(events: seq<Fd>)
      requires InRound(events, |events|)
      ensures Valid()
    {
      FromOver(events);
      AmongNone(From(events, |events|), kernel.clients);
    }

    method Serve(rounds: nat)
      requires Valid()
      modifies this, kernel
      ensures Valid() && old(kernel.trace) <= kernel.trace
      ensures Rounds(kernel.trace) == Rounds(old(kernel.trace)) + rounds
    {
      hide Valid, Rounds, Everything;
      for n := 0 to rounds
        invariant Valid() && old(kernel.trace) <= kernel.trace
        invariant Rounds(kernel.trace) == Rounds(old(kernel.trace)) + n
      {
        ghost var before, q := kernel.trace, Everything();
        Round();
        RoundAdds(before, kernel.trace, q);
      }
    }
  }

  ghost predicate Distinct(events: seq<Fd>) {
    forall i, j | 0 <= i < j < |events| :: events[i] != events[j]
  }

  function From(events: seq<Fd>, i: nat): set<Fd> {
    set k | i <= k < |events| :: events[k]
  }

  lemma FromNext(events: seq<Fd>, i: nat)
    requires Distinct(events) && i < |events|
    ensures From(events, i + 1) == From(events, i) - {events[i]} && events[i] in From(events, i)
  {
  }

  lemma FromOver(events: seq<Fd>)
    ensures From(events, |events|) == {}
  {
  }

  method AnyListing(s: set<Fd>) returns (events: seq<Fd>)
    ensures Distinct(events) && From(events, 0) == s && |events| == |s|
  {
    events := [];
    var left := s;
    while left != {}
      invariant left <= s && Distinct(events) && From(events, 0) == s - left && |events| == |s| - |left|
      decreases left
    {
      var fd :| fd in left;
      ghost var before := events;
      events := events + [fd];
      left := left - {fd};
      Listed(before, fd);
    }
  }

  lemma Listed(events: seq<Fd>, fd: Fd)
    ensures From(events + [fd], 0) == From(events, 0) + {fd}
  {
    var longer := events + [fd];
    assert longer[|events|] == fd;
    forall k | 0 <= k < |events|
      ensures events[k] in From(longer, 0)
    {
      assert longer[k] == events[k];
    }
  }
}
