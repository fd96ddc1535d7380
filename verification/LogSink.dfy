/**
 Where the log goes: lib/simple_log/internal/simple_log_sink.c with its callers
 simple_log_set_log_os and simple_log_set_log_file. The sink may own a stream
 that the library opened and always owns its copy of the file name.
 */
module LogSink {
  /** A FILE pointer; Opened(n) is what the n-th successful fopen returned. */
  datatype Stream = Null | Stdout | Stderr | Callers(n: nat) | Opened(n: nat)

  /** A string that the library duplicated: which call of strdup made it. */
  datatype FileName = NoName | Name(serial: nat)

  /** A path argument: a null pointer, a string of the caller's, or a pointer
      that simple_log_get_log_file once returned, which stays the same pointer
      when the copy it points to is freed. found is what reading through it
      yields before the sink is changed, and copied what strdup yields after. */
  datatype Path = NullPath | Text(text: string) | Copy(serial: nat, found: string, copied: string)

  /** The sink, and what the library has done to streams and copies so far:
      streams opened, streams closed in order, names copied, copies freed in
      order, and uses of a copy after it was freed. */
  datatype State = State(fp: Stream, file: FileName, owned: bool,
                         opens: nat, closed: seq<Stream>, copies: seq<string>, freed: seq<nat>, staleReads: nat)

  datatype Result = Ok | InvalidArg

  datatype Op =
    | SetLogOs(os: Stream)
    /** opens: whether fopen would succeed. */
    | SetLogFile(path: Path, opens: bool)

  function Start(): State {
    State(Null, NoName, false, 0, [], [], [], 0)
  }

  /** The pointer is to a copy that has been freed. */
  predicate IsStale(freed: seq<nat>, path: Path) {
    path.Copy? && path.serial in freed
  }

  /** A copy that has not been freed reads as what was copied; one that has been
      may read as anything. */
  predicate Reads(copies: seq<string>, freed: seq<nat>, path: Path, s: string) {
    match path
    case NullPath => false
    case Text(text) => s == text
    case Copy(serial, _, _) => serial < |copies| && (serial !in freed ==> s == copies[serial])
  }

  function Found(path: Path): string {
    match path
    case NullPath => ""
    case Text(text) => text
    case Copy(_, found, _) => found
  }

  function Copied(path: Path): string {
    match path
    case NullPath => ""
    case Text(text) => text
    case Copy(_, _, copied) => copied
  }

  /** What callers can pass: a stream of the library was opened before, and a
      pointer to a copy was returned before. */
  predicate Enabled(s: State, op: Op) {
    match op
    case SetLogOs(os) => os.Opened? ==> os.n < s.opens
    case SetLogFile(path, _) =>
      path == NullPath
      || (Reads(s.copies, s.freed, path, Found(path)) && Reads(s.copies, Released(s), path, Copied(path)))
  }

  /** The stream that set_log_file would log to. */
  function Target(s: State, path: Path, opens: bool): Stream {
    if path == NullPath then Null
    else if Found(path) == "stdout" then Stdout
    else if Found(path) == "stderr" then Stderr
    else if opens then Opened(s.opens)
    else Null
  }

  /** How often the path is used until the stream is known: in one or two calls
      of strcmp and in fopen. */
  function Uses(path: Path): nat {
    if path == NullPath then 0
    else if Found(path) == "stdout" then 1
    else if Found(path) == "stderr" then 2
    else 3
  }

  /** The copies freed once the sink has given up its name. */
  function Released(s: State): seq<nat> {
    if s.file.Name? then s.freed + [s.file.serial] else s.freed
  }

  /** The sink directed to a stream: the stream it owned and the name it had are
      given up first. */
  function Directed(s: State, fp: Stream, owned: bool): State {
    s.(fp := fp, owned := owned, file := NoName, freed := Released(s),
       closed := if s.owned && s.fp != Null then s.closed + [s.fp] else s.closed)
  }

  /** What the uses before the sink is changed come to. */
  function Used(s: State, path: Path): State {
    s.(staleReads := s.staleReads + if IsStale(s.freed, path) then Uses(path) else 0)
  }

  function Step(s: State, op: Op): State {
    match op
    case SetLogOs(os) => Directed(s, os, false)
    case SetLogFile(path, opens) =>
      var fp, used := Target(s, path, opens), Used(s, path);
      if fp == Null then used
      else
        var d := Directed(used, fp, fp.Opened?);
        d.(opens := if fp.Opened? then s.opens + 1 else s.opens,
           file := Name(|s.copies|), copies := s.copies + [Copied(path)],
           staleReads := d.staleReads + if IsStale(d.freed, path) then 1 else 0)
  }

  /** The sink with the heap its file name lives in. */
  class Sink {
    var fp: Stream
    var file: FileName
    var owned: bool
    var copies: seq<string>
    ghost var opens: nat
    ghost var closed: seq<Stream>
    ghost var freed: seq<nat>
    ghost var staleReads: nat

    constructor ()
      ensures View() == Start()
    {
      fp, file, owned, copies := Null, NoName, false, [];
      opens, closed, freed, staleReads := 0, [], [], 0;
    }

    ghost function View(): State
      reads this
    {
      State(fp, file, owned, opens, closed, copies, freed, staleReads)
    }

    /** One use of a string by a C library function, before the sink changes. */
    method Use(path: Path) returns (s: string)
      requires Reads(copies, freed, path, Found(path))
      modifies `staleReads
      ensures s == Found(path)
      ensures staleReads == old(staleReads) + if IsStale(freed, path) then 1 else 0
    {
      if IsStale(freed, path) {
        staleReads := staleReads + 1;
      }
      s := Found(path);
    }

    method Strdup(path: Path) returns (name: FileName)
      requires Reads(copies, freed, path, Copied(path))
      modifies `copies, `staleReads
      ensures name == Name(|old(copies)|) && copies == old(copies) + [Copied(path)]
      ensures staleReads == old(staleReads) + if IsStale(freed, path) then 1 else 0
    {
      if IsStale(freed, path) {
        staleReads := staleReads + 1;
      }
      name := Name(|copies|);
      copies := copies + [Copied(path)];
    }

    method SetSinkFp(stream: Stream)
      modifies `fp, `closed
      ensures fp == stream
      ensures closed == if owned && old(fp) != Null then old(closed) + [old(fp)] else old(closed)
    {
      if owned {
        if fp != Null {
          closed := closed + [fp];
          fp := Null;
        }
      }
      fp := stream;
    }

    /** Frees first and copies then, whatever the path points to. */
    method SetSinkFile(path: Path)
      requires path == NullPath || Reads(copies, Released(View()), path, Copied(path))
      modifies `file, `freed, `copies, `staleReads
      ensures freed == Released(old(View()))
      ensures path == NullPath ==> file == NoName && copies == old(copies) && staleReads == old(staleReads)
      ensures path != NullPath ==> file == Name(|old(copies)|) && copies == old(copies) + [Copied(path)]
                                   && staleReads == old(staleReads) + if IsStale(freed, path) then 1 else 0
    {
      if file.Name? {
        freed := freed + [file.serial];
        file := NoName;
      }
      if path == NullPath {
        file := NoName;
      } else {
        file := Strdup(path);
      }
    }

    method SetLogOs(os: Stream) returns (r: Result)
      modifies this
      ensures View() == Step(old(View()), Op.SetLogOs(os)) && r == Ok
    {
      SetSinkFp(os);
      SetSinkFile(NullPath);
      owned := false;
      r := Ok;
    }

    /** The strcmp calls and fopen of simple_log_set_log_file; fopened is what
        fopen returns. */
    method Choose(path: Path, fopened: Stream) returns (stream: Stream, mine: bool)
      requires path != NullPath && Reads(copies, freed, path, Found(path))
      requires fopened == Null || fopened == Opened(opens)
      modifies `staleReads
      ensures stream == Target(old(View()), path, fopened != Null) && (stream != Null ==> mine == stream.Opened?)
      ensures staleReads == Used(old(View()), path).staleReads
    {
      hide Reads, IsStale;
      var s := Use(path);
      if s == "stdout" {
        return Stdout, false;
      }
      s := Use(path);
      if s == "stderr" {
        return Stderr, false;
      }
      s := Use(path);
      return fopened, true;
    }

    method SetLogFile(path: Path, fopened: Stream) returns (r: Result)
      requires fopened == Null || fopened == Opened(opens)
      requires Enabled(View(), Op.SetLogFile(path, fopened != Null))
      modifies this
      ensures View() == Step(old(View()), Op.SetLogFile(path, fopened != Null))
      ensures r == if Target(old(View()), path, fopened != Null) != Null then Ok else InvalidArg
    {
      hide Found, Copied, Uses;
      if path == NullPath {
        return InvalidArg;
      }
      var stream, mine := Choose(path, fopened);
      if stream == Null {
        return InvalidArg;
      }
      if mine {
        opens := opens + 1;
      }
      SetSinkFp(stream);
      SetSinkFile(path);
      owned := mine;
      r := Ok;
    }
  }

  predicate Possible(s: State, run: seq<Op>)
    decreases |run|
  {
    run == [] || (Enabled(s, run[0]) && Possible(Step(s, run[0]), run[1..]))
  }

  function After(s: State, run: seq<Op>): State
    decreases |run|
  {
    if run == [] then s else After(Step(s, run[0]), run[1..])
  }

  function Count<T(==)>(xs: seq<T>, x: T): nat {
    if xs == [] then 0 else Count(xs[..|xs| - 1], x) + if xs[|xs| - 1] == x then 1 else 0
  }

  lemma CountMore<T>(xs: seq<T>, y: T, x: T)
    ensures Count(xs + [y], x) == Count(xs, x) + if y == x then 1 else 0
  {
    assert (xs + [y])[..|xs|] == xs;
  }

  lemma {:induction false} CountIn<T>(xs: seq<T>, x: T)
    ensures Count(xs, x) > 0 <==> x in xs
  {
    if xs != [] {
      CountIn(xs[..|xs| - 1], x);
      assert xs == xs[..|xs| - 1] + [xs[|xs| - 1]];
    }
  }

  // The ledger

  /** Every stream that the library opened has been closed exactly once, except
      the one the sink owns now; nothing else was ever closed. */
  ghost predicate StreamsBalance(s: State) {
    && (s.owned ==> s.fp.Opened? && s.fp.n < s.opens)
    && (forall n: nat :: Count(s.closed, Opened(n)) == if n < s.opens && !(s.owned && s.fp == Opened(n)) then 1 else 0)
    && (forall x | x in s.closed :: x.Opened?)
  }

  /** Every copy of a file name has been freed exactly once, except the one the
      sink has now. */
  ghost predicate NamesBalance(s: State) {
    && (s.file.Name? ==> s.file.serial < |s.copies|)
    && (forall m: nat :: Count(s.freed, m) == if m < |s.copies| && s.file != Name(m) then 1 else 0)
  }

  lemma DirectedStreams(s: State, fp: Stream)
    requires StreamsBalance(s)
    ensures StreamsBalance(Directed(s, fp, false))
    ensures StreamsBalance(Directed(s, Opened(s.opens), true).(opens := s.opens + 1))
  {
    if s.owned {
      forall n: nat
        ensures Count(s.closed + [s.fp], Opened(n)) == Count(s.closed, Opened(n)) + if s.fp == Opened(n) then 1 else 0
      {
        CountMore(s.closed, s.fp, Opened(n));
      }
    }
  }

  lemma DirectedNames(s: State, fp: Stream, owned: bool)
    requires NamesBalance(s)
    ensures NamesBalance(Directed(s, fp, owned))
  {
    if s.file.Name? {
      forall m: nat
        ensures Count(s.freed + [s.file.serial], m) == Count(s.freed, m) + if s.file.serial == m then 1 else 0
      {
        CountMore(s.freed, s.file.serial, m);
      }
    }
  }

  lemma StepStreams(s: State, op: Op)
    requires StreamsBalance(s)
    ensures StreamsBalance(Step(s, op))
  {
    hide IsStale, Uses, Copied;
    match op
    case SetLogOs(os) => DirectedStreams(s, os);
    case SetLogFile(path, opens) => DirectedStreams(Used(s, path), Target(s, path, opens));
  }

  lemma StepNames(s: State, op: Op)
    requires NamesBalance(s)
    ensures NamesBalance(Step(s, op))
  {
    hide IsStale, Uses, Copied;
    match op
    case SetLogOs(os) => DirectedNames(s, os, false);
    case SetLogFile(path, opens) =>
      var fp := Target(s, path, opens);
      DirectedNames(Used(s, path), fp, fp.Opened?);
  }

  lemma StepBalances(s: State, op: Op)
    requires StreamsBalance(s) && NamesBalance(s)
    ensures StreamsBalance(Step(s, op)) && NamesBalance(Step(s, op))
  {
    hide StreamsBalance, NamesBalance, Step;
    StepStreams(s, op);
    StepNames(s, op);
  }

  lemma {:induction false} RunBalances(s: State, run: seq<Op>)
    requires StreamsBalance(s) && NamesBalance(s)
    ensures StreamsBalance(After(s, run)) && NamesBalance(After(s, run))
    decreases |run|
  {
    hide StreamsBalance, NamesBalance, Step;
    if run != [] {
      StepBalances(s, run[0]);
      RunBalances(Step(s, run[0]), run[1..]);
    }
  }

  /** Over every run, whatever streams and pointers callers hand in: each library
      stream but the current one is closed exactly once, no caller's or standard
      stream is ever closed, and each copied name but the current one is freed
      exactly once. */
  lemma EveryRunBalances(run: seq<Op>)
    ensures StreamsBalance(After(Start(), run)) && NamesBalance(After(Start(), run))
  {
    RunBalances(Start(), run);
  }

  // The sink is open

  /** set_log_os is given a stream that is closed, or that it is about to close. */
  predicate BadHandOver(s: State, op: Op) {
    op.SetLogOs? && (op.os in s.closed || (s.owned && op.os == s.fp))
  }

  predicate Replaces(s: State, op: Op) {
    op.SetLogOs? || (op.SetLogFile? && Target(s, op.path, op.opens) != Null)
  }

  /** A call leaves the sink on a closed stream exactly if it hands one over, or
      changes nothing while the sink is on one already. */
  lemma ClosedSinkExactly(s: State, op: Op)
    requires StreamsBalance(s) && Enabled(s, op)
    ensures Step(s, op).fp in Step(s, op).closed <==> BadHandOver(s, op) || (!Replaces(s, op) && s.fp in s.closed)
  {
    if op.SetLogFile? && Replaces(s, op) {
      CountIn(s.closed, Opened(s.opens));
    }
  }

  predicate NoBadHandOver(s: State, run: seq<Op>)
    decreases |run|
  {
    run == [] || (!BadHandOver(s, run[0]) && NoBadHandOver(Step(s, run[0]), run[1..]))
  }

  predicate OnOpenStream(s: State) {
    s.fp !in s.closed
  }

  /** At no point of the run is the sink on a closed stream. */
  ghost predicate AlwaysOpen(s: State, run: seq<Op>) {
    forall i | 0 <= i <= |run| :: OnOpenStream(After(s, run[..i]))
  }

  lemma AlwaysOpenFirst(s: State, run: seq<Op>)
    requires run != []
    ensures AlwaysOpen(s, run) <==> OnOpenStream(s) && AlwaysOpen(Step(s, run[0]), run[1..])
  {
    hide Step, OnOpenStream;
    var t, rest := Step(s, run[0]), run[1..];
    assert run[..0] == [];
    assert forall i | 0 < i <= |run| :: After(s, run[..i]) == After(t, rest[..i - 1]) by {
      forall i | 0 < i <= |run| ensures After(s, run[..i]) == After(t, rest[..i - 1]) {
        assert run[..i][0] == run[0] && run[..i][1..] == rest[..i - 1];
      }
    }
    if AlwaysOpen(s, run) {
      forall k | 0 <= k <= |rest| ensures OnOpenStream(After(t, rest[..k])) {
        assert OnOpenStream(After(s, run[..k + 1]));
      }
    }
  }

  lemma {:induction false} RunStaysOpen(s: State, run: seq<Op>)
    requires StreamsBalance(s) && NamesBalance(s) && Possible(s, run) && OnOpenStream(s)
    ensures AlwaysOpen(s, run) <==> NoBadHandOver(s, run)
    decreases |run|
  {
    if run == [] {
      assert run[..0] == [];
    } else {
      ClosedSinkExactly(s, run[0]);
      hide StreamsBalance, NamesBalance, Step, Enabled, BadHandOver, Replaces, AlwaysOpen;
      AlwaysOpenFirst(s, run);
      StepBalances(s, run[0]);
      var t := Step(s, run[0]);
      if OnOpenStream(t) {
        RunStaysOpen(t, run[1..]);
      } else {
        ClosedAtOnce(t, run[1..]);
      }
    }
  }

  lemma ClosedAtOnce(s: State, run: seq<Op>)
    requires !OnOpenStream(s)
    ensures !AlwaysOpen(s, run)
  {
    assert run[..0] == [];
    assert !OnOpenStream(After(s, run[..0]));
  }

  /** Over every run, the sink is at no point on a closed stream if and only if
      no closed and no currently owned stream is handed to set_log_os. */
  lemma SinkStaysOpen(run: seq<Op>)
    requires Possible(Start(), run)
    ensures AlwaysOpen(Start(), run) <==> NoBadHandOver(Start(), run)
  {
    RunStaysOpen(Start(), run);
  }

  /** The stream of a log file that is handed back to the sink is closed and kept. */
  lemma OwnStreamIsClosed()
    ensures var run := [SetLogFile(Text("a.log"), true), SetLogOs(Opened(0))];
      Possible(Start(), run) && After(Start(), run).fp == Opened(0) && Opened(0) in After(Start(), run).closed
  {
    var first, second := SetLogFile(Text("a.log"), true), SetLogOs(Opened(0));
    FirstFile();
    TwoCalls(Start(), first, second);
  }

  // The file name

  /** A copy is freed exactly when it is not the sink's name any more. */
  lemma FreedExactly(s: State, m: nat)
    requires NamesBalance(s)
    ensures m in s.freed <==> m < |s.copies| && s.file != Name(m)
  {
    CountIn(s.freed, m);
  }

  /** The call passes a pointer to a copy that was freed before. */
  predicate PassesFreed(s: State, op: Op) {
    op.SetLogFile? && op.path.Copy? && op.path.serial in s.freed
  }

  /** The call replaces the sink's name and passes the very copy it frees. */
  predicate PassesCurrent(s: State, op: Op) {
    op.SetLogFile? && op.path.Copy? && s.file == Name(op.path.serial) && Replaces(s, op)
  }

  /** Every copy that a call of the run passes is the sink's name at that moment,
      and the call fails. */
  predicate CopiesAreSafe(s: State, run: seq<Op>)
    decreases |run|
  {
    run == [] || (
      (run[0].SetLogFile? && run[0].path.Copy? ==> s.file == Name(run[0].path.serial) && !Replaces(s, run[0]))
      && CopiesAreSafe(Step(s, run[0]), run[1..]))
  }

  predicate NeverPassesFreedOrCurrent(s: State, run: seq<Op>)
    decreases |run|
  {
    run == [] || (!PassesFreed(s, run[0]) && !PassesCurrent(s, run[0])
                  && NeverPassesFreedOrCurrent(Step(s, run[0]), run[1..]))
  }

  /** What one call adds: all its uses of a copy freed before, or the one after
      it has freed the copy itself. */
  lemma StaleUses(s: State, op: Op)
    requires NamesBalance(s) && Enabled(s, op)
    ensures Step(s, op).staleReads - s.staleReads
         == (if PassesFreed(s, op) then Uses(op.path) + (if Replaces(s, op) then 1 else 0) else 0)
            + if PassesCurrent(s, op) then 1 else 0
  {
    if op.SetLogFile? && op.path.Copy? {
      FreedExactly(s, op.path.serial);
    }
  }

  /** Since a copy is either the sink's name or freed, both conditions come to
      this one. */
  lemma SafeCopy(s: State, op: Op)
    requires NamesBalance(s) && Enabled(s, op)
    ensures !PassesFreed(s, op) && !PassesCurrent(s, op)
       <==> (op.SetLogFile? && op.path.Copy? ==> s.file == Name(op.path.serial) && !Replaces(s, op))
  {
    if op.SetLogFile? && op.path.Copy? {
      FreedExactly(s, op.path.serial);
    }
  }

  lemma {:induction false} StaleReadsGrow(s: State, run: seq<Op>)
    requires StreamsBalance(s) && NamesBalance(s) && Possible(s, run)
    ensures After(s, run).staleReads >= s.staleReads
    ensures After(s, run).staleReads == s.staleReads <==> NeverPassesFreedOrCurrent(s, run)
    ensures NeverPassesFreedOrCurrent(s, run) <==> CopiesAreSafe(s, run)
    decreases |run|
  {
    hide StreamsBalance, NamesBalance, Step, Enabled, PassesFreed, PassesCurrent, Replaces;
    if run != [] {
      StepBalances(s, run[0]);
      StaleUses(s, run[0]);
      SafeCopy(s, run[0]);
      StaleReadsGrow(Step(s, run[0]), run[1..]);
    }
  }

  /** In a run no freed name is read if and only if no call passes a copy that
      was freed already and no replacing call passes the current one. So a
      pointer from simple_log_get_log_file is safe in set_log_file exactly while
      it is the sink's name and in a call that fails. */
  lemma NoStaleNameExactly(run: seq<Op>)
    requires Possible(Start(), run)
    ensures After(Start(), run).staleReads == 0 <==> NeverPassesFreedOrCurrent(Start(), run)
    ensures After(Start(), run).staleReads == 0 <==> CopiesAreSafe(Start(), run)
  {
    StaleReadsGrow(Start(), run);
  }

  /** Logging to a file and then to the name the sink holds: strdup reads it after
      free. */
  lemma OwnNameIsStale(copied: string)
    ensures var run := [SetLogFile(Text("a.log"), true), SetLogFile(Copy(0, "a.log", copied), true)];
      Possible(Start(), run) && After(Start(), run).staleReads == 1
  {
    var first, second := SetLogFile(Text("a.log"), true), SetLogFile(Copy(0, "a.log", copied), true);
    FirstFile();
    TwoCalls(Start(), first, second);
  }

  /** A pointer kept over a call that moves the sink elsewhere: it is not the
      sink's name any more, and every use of it reads freed memory. */
  lemma KeptNameIsStale(found: string, copied: string)
    ensures var run := [SetLogFile(Text("a.log"), true), SetLogOs(Stdout), SetLogFile(Copy(0, found, copied), true)];
      Possible(Start(), run) && After(Start(), run).staleReads == Uses(Copy(0, found, copied)) + 1
  {
    KeptTooLong(SetLogOs(Stdout), found, copied);
  }

  /** The same when a second file has replaced the first. */
  lemma ReplacedNameIsStale(found: string, copied: string)
    ensures var run := [SetLogFile(Text("a.log"), true), SetLogFile(Text("b.log"), true),
                        SetLogFile(Copy(0, found, copied), true)];
      Possible(Start(), run) && After(Start(), run).staleReads == Uses(Copy(0, found, copied)) + 1
  {
    KeptTooLong(SetLogFile(Text("b.log"), true), found, copied);
  }

  /** The two names that stand for the standard streams, which the sink does not
      own; any other name for the file that fopen opens. */
  lemma StandardStreams(s: State, text: string, opens: bool)
    requires text == "stdout" || text == "stderr" || opens
    ensures var t := Step(s, SetLogFile(Text(text), opens));
      && t.fp == (if text == "stdout" then Stdout else if text == "stderr" then Stderr else Opened(s.opens))
      && t.owned == (text != "stdout" && text != "stderr")
      && t.file == Name(|s.copies|) && t.copies == s.copies + [text]
  {
  }

  lemma FirstFile()
    ensures Step(Start(), SetLogFile(Text("a.log"), true)) == State(Opened(0), Name(0), true, 1, [], ["a.log"], [], 0)
  {
  }

  lemma KeptTooLong(second: Op, found: string, copied: string)
    requires second == SetLogOs(Stdout) || second == SetLogFile(Text("b.log"), true)
    ensures var run := [SetLogFile(Text("a.log"), true), second, SetLogFile(Copy(0, found, copied), true)];
      Possible(Start(), run) && After(Start(), run).staleReads == Uses(Copy(0, found, copied)) + 1
  {
    var first, third := SetLogFile(Text("a.log"), true), SetLogFile(Copy(0, found, copied), true);
    FirstFile();
    var s := Step(Start(), first);
    var t := Step(s, second);
    NameGivenUp(s, second);
    UsesFreed(t, found, copied);
    assert Enabled(Start(), first);
    hide Step, Enabled, Uses;
    TwoCalls(s, second, third);
    assert [first, second, third][1..] == [second, third];
  }

  lemma NameGivenUp(s: State, second: Op)
    requires s == State(Opened(0), Name(0), true, 1, [], ["a.log"], [], 0)
    requires second == SetLogOs(Stdout) || second == SetLogFile(Text("b.log"), true)
    ensures Enabled(s, second)
    ensures var t := Step(s, second);
      t.freed == [0] && |t.copies| >= 1 && t.staleReads == 0 && t.file != Name(0)
  {
  }

  lemma UsesFreed(t: State, found: string, copied: string)
    requires t.freed == [0] && |t.copies| >= 1 && t.staleReads == 0 && t.file != Name(0)
    ensures var third := SetLogFile(Copy(0, found, copied), true);
      Enabled(t, third) && Step(t, third).staleReads == Uses(third.path) + 1
  {
  }

  lemma TwoCalls(s: State, first: Op, second: Op)
    ensures Possible(s, [first, second]) <==> Enabled(s, first) && Enabled(Step(s, first), second)
    ensures After(s, [first, second]) == Step(Step(s, first), second)
  {
    hide Step, Enabled;
    var t, run := Step(s, first), [second];
    assert [first, second][1..] == run && run[1..] == [];
    assert Possible(Step(t, second), run[1..]) && After(Step(t, second), run[1..]) == Step(t, second);
    assert Possible(t, run) <==> Enabled(t, second);
    assert After(t, run) == Step(t, second);
  }
}
