/**
 * The forking echo server: the echo loop a child runs on its client, and
 * who holds which descriptor around accept and fork.
 */
module BlockingServer {
  import opened Io

  /** Where handle_connection's loop left `bytes_read`, and the calls it made. */
  datatype LoopExit = LoopExit(bytesRead: ReadOutcome, trace: seq<Call>)

  /** The echo loop: read up to BUFFER_SIZE bytes while the read returns
      more than zero, writing back each chunk, and leave on the first
      failed write. None means the kernel's answers ran out while the loop
      was still going. */
  function EchoLoop(fd: Fd, rounds: seq<Round>): (e: Option<LoopExit>)
    ensures e.None? <==> forall i :: 0 <= i < |rounds| ==> Continues(rounds[i])
    ensures e.Some? ==> EchoShaped(fd, e.value.trace)
    ensures e.Some? ==> Requested(e.value.trace) == Received(e.value.trace)
    ensures e.Some? ==> |e.value.trace| > 0
    ensures e.Some? ==>
              (var last := e.value.trace[|e.value.trace| - 1];
               if Positive(e.value.bytesRead) then last.WriteCall? && last.write.WriteFailed?
               else last == ReadCall(fd, BUFFER_SIZE, e.value.bytesRead))
    decreases |rounds|
  {
    if |rounds| == 0 then None
    else
      var turn := Turn(fd, rounds[0]);
      TurnEchoes(fd, rounds[0]);
      if Positive(rounds[0].read) then
        if rounds[0].write.WriteFailed? then Some(LoopExit(rounds[0].read, turn))
        else
          match EchoLoop(fd, rounds[1..])
          case None => None
          case Some(rest) =>
            TurnThenShaped(fd, rounds[0], rest.trace);
            ReceivedAppend(turn, rest.trace);
            RequestedAppend(turn, rest.trace);
            Some(LoopExit(rest.bytesRead, turn + rest.trace))
      else Some(LoopExit(rounds[0].read, turn))
  }

  /** What handle_connection reports once the loop is over: the peer closed
      (read returned 0), a read error (read returned -1), or nothing after
      a failed write. */
  datatype Report = PeerClosed | ReadError | AfterWriteError

  /** A finished child session: its report and every call it made on the client. */
  datatype Session = Session(report: Report, trace: seq<Call>)

  /** Number of close calls on `fd` in a trace. */
  function CloseCount(fd: Fd, t: seq<Call>): nat {
    if |t| == 0 then 0
    else (if t[0] == CloseCall(fd) then 1 else 0) + CloseCount(fd, t[1..])
  }

  lemma {:induction false} CloseCountAppend(fd: Fd, a: seq<Call>, b: seq<Call>)
    ensures CloseCount(fd, a + b) == CloseCount(fd, a) + CloseCount(fd, b)
  {
    if |a| == 0 {
      assert a + b == b;
    } else {
      assert (a + b)[1..] == a[1..] + b;
      CloseCountAppend(fd, a[1..], b);
    }
  }

  /** A trace of reads and writes only closes nothing. */
  lemma {:induction false} EchoTraceClosesNothing(fd: Fd, t: seq<Call>)
    requires forall i :: 0 <= i < |t| ==> t[i].ReadCall? || t[i].WriteCall?
    ensures CloseCount(fd, t) == 0
  {
    if |t| > 0 {
      assert forall i :: 0 <= i < |t[1..]| ==> t[1..][i] == t[i + 1];
      EchoTraceClosesNothing(fd, t[1..]);
    }
  }

  /** Reads and writes followed by close and exit close `fd` exactly once. */
  lemma ClosesOnce(fd: Fd, t: seq<Call>)
    requires forall i :: 0 <= i < |t| ==> t[i].ReadCall? || t[i].WriteCall?
    ensures CloseCount(fd, t + [CloseCall(fd), ExitCall(EXIT_SUCCESS)]) == 1
  {
    var tail := [CloseCall(fd), ExitCall(EXIT_SUCCESS)];
    EchoTraceClosesNothing(fd, t);
    CloseCountAppend(fd, t, tail);
    assert tail[1..] == [ExitCall(EXIT_SUCCESS)];
    assert tail[1..][1..] == [];
    assert CloseCount(fd, tail[1..]) == 0;
  }

  /** handle_connection: the echo loop, the report of how it ended, then
      closing the client socket and exit(EXIT_SUCCESS). */
  function HandleConnection(fd: Fd, rounds: seq<Round>): (s: Option<Session>)
    ensures s.None? <==> forall i :: 0 <= i < |rounds| ==> Continues(rounds[i])
    ensures s.Some? ==> |s.value.trace| >= 3
    ensures s.Some? ==> var t := s.value.trace;
              && t[|t| - 1] == ExitCall(EXIT_SUCCESS)
              && t[|t| - 2] == CloseCall(fd)
              && CloseCount(fd, t) == 1
              && EchoShaped(fd, t[..|t| - 2])
    ensures s.Some? ==> var t := s.value.trace;
              && (s.value.report == PeerClosed <==> t[|t| - 3] == ReadCall(fd, BUFFER_SIZE, Got([])))
              && (s.value.report == ReadError <==> t[|t| - 3].ReadCall? && t[|t| - 3].read.ReadFailed?)
              && (s.value.report == AfterWriteError <==> t[|t| - 3].WriteCall?)
  {
    match EchoLoop(fd, rounds)
    case None => None
    case Some(e) =>
      var report :=
        if e.bytesRead.Got? && |e.bytesRead.bytes| == 0 then PeerClosed
        else if e.bytesRead.ReadFailed? then ReadError
        else AfterWriteError;
      var t := e.trace + [CloseCall(fd), ExitCall(EXIT_SUCCESS)];
      ClosesOnce(fd, e.trace);
      assert t[..|t| - 2] == e.trace;
      assert t[|t| - 3] == e.trace[|e.trace| - 1];
      Some(Session(report, t))
  }

  /** What accept(2) returned in the parent's loop. */
  datatype AcceptResult = NewConnection(fd: Fd) | AcceptError(errno: int)

  /** Whether fork(2) created a child (returning its pid in the parent and
      0 in the child) or failed with -1. */
  datatype ForkResult = ForkOk | ForkError

  /** One arrival the parent's loop handles: accept's answer and fork's. */
  datatype Arrival = Arrival(accept: AcceptResult, fork: ForkResult)

  /** A child as it enters handle_connection: its client socket, the
      descriptors it still holds, and the calls it made before. */
  datatype Child = Child(client: Fd, held: set<Fd>, prelude: seq<Call>)

  /** The parent after one iteration: the descriptors it holds, the calls
      it made, and the child it started, if any. */
  datatype Iteration = Iteration(parentHeld: set<Fd>, parentCalls: seq<Call>, child: Option<Child>)

  /** One iteration of the parent's accept loop. An accept failure (EINTR or
      any other) just goes back to accept. After fork the child inherits
      every descriptor and closes the listener; the parent, and the parent
      whose fork failed, closes the client socket. */
  function AcceptAndFork(listener: Fd, held: set<Fd>, a: Arrival): (it: Iteration)
    ensures a.accept.AcceptError? ==> it == Iteration(held, [], None)
    ensures a.accept.NewConnection? && a.accept.fd !in held ==> it.parentHeld == held
    ensures a.accept.NewConnection? ==> it.parentCalls == [CloseCall(a.accept.fd)]
    ensures it.child.Some? <==> a.accept.NewConnection? && a.fork.ForkOk?
    ensures it.child.Some? ==>
              && it.child.value.client == a.accept.fd
              && it.child.value.held == (held + {a.accept.fd}) - {listener}
              && it.child.value.prelude == [CloseCall(listener)]
  {
    match a.accept
    case AcceptError(_) => Iteration(held, [], None)
    case NewConnection(c) =>
      var both := held + {c};
      match a.fork
      case ForkError => Iteration(both - {c}, [CloseCall(c)], None)
      case ForkOk => Iteration(both - {c}, [CloseCall(c)], Some(Child(c, both - {listener}, [CloseCall(listener)])))
  }

  /** Descriptors still held after the close calls of a trace. */
  function HeldAfter(held: set<Fd>, t: seq<Call>): set<Fd> {
    if |t| == 0 then held
    else HeldAfter(if t[0].CloseCall? then held - {t[0].fd} else held, t[1..])
  }

  lemma {:induction false} HeldAfterAppend(held: set<Fd>, a: seq<Call>, b: seq<Call>)
    ensures HeldAfter(held, a + b) == HeldAfter(HeldAfter(held, a), b)
  {
    if |a| == 0 {
      assert a + b == b;
    } else {
      assert (a + b)[1..] == a[1..] + b;
      HeldAfterAppend(if a[0].CloseCall? then held - {a[0].fd} else held, a[1..], b);
    }
  }

  lemma {:induction false} EchoTraceKeepsHeld(held: set<Fd>, t: seq<Call>)
    requires forall i :: 0 <= i < |t| ==> t[i].ReadCall? || t[i].WriteCall?
    ensures HeldAfter(held, t) == held
  {
    if |t| > 0 {
      assert forall i :: 0 <= i < |t[1..]| ==> t[1..][i] == t[i + 1];
      EchoTraceKeepsHeld(held, t[1..]);
    }
  }

  /** Everything a child does: the calls made before handle_connection,
      then the session. */
  function ChildRun(ch: Child, rounds: seq<Round>): Option<seq<Call>> {
    match HandleConnection(ch.client, rounds)
    case None => None
    case Some(s) => Some(ch.prelude + s.trace)
  }

  /** A session closes nothing but its own client, and gives that up. */
  lemma SessionReleasesClient(fd: Fd, rounds: seq<Round>)
    requires HandleConnection(fd, rounds).Some?
    ensures forall i :: 0 <= i < |HandleConnection(fd, rounds).value.trace| ==>
              (HandleConnection(fd, rounds).value.trace[i].CloseCall? ==> HandleConnection(fd, rounds).value.trace[i].fd == fd)
    ensures HeldAfter({fd}, HandleConnection(fd, rounds).value.trace) == {}
  {
    var t := HandleConnection(fd, rounds).value.trace;
    var pre := t[..|t| - 2];
    var tail := [CloseCall(fd), ExitCall(EXIT_SUCCESS)];
    assert t == pre + tail;
    assert forall i :: 0 <= i < |pre| ==> pre[i].ReadCall? || pre[i].WriteCall?;
    HeldAfterAppend({fd}, pre, tail);
    EchoTraceKeepsHeld({fd}, pre);
    assert tail[1..] == [ExitCall(EXIT_SUCCESS)];
    assert tail[1..][1..] == [];
    assert HeldAfter({}, tail[1..]) == {};
    assert {fd} - {tail[0].fd} == {};
    assert HeldAfter({fd}, tail) == {};
    forall i | 0 <= i < |t|
      ensures t[i].CloseCall? ==> t[i].fd == fd
    {
      if i < |pre| {
        assert t[i] == pre[i];
      } else {
        assert t[i] == tail[i - |pre|];
      }
    }
  }

  /** A child started while the parent held only the listener holds only
      its client socket when it starts echoing, closes the listener before
      any read or write, and holds nothing by the time it exits: of the
      listener and the client that fork hands it, both are released. */
  lemma ChildOwnsOnlyItsClient(listener: Fd, a: Arrival, rounds: seq<Round>)
    requires a.accept.NewConnection? && a.fork.ForkOk?
    requires a.accept.fd != listener
    requires ChildRun(AcceptAndFork(listener, {listener}, a).child.value, rounds).Some?
    ensures AcceptAndFork(listener, {listener}, a).child.value.held == {a.accept.fd}
    ensures var t := ChildRun(AcceptAndFork(listener, {listener}, a).child.value, rounds).value;
            && t[0] == CloseCall(listener)
            && (forall i :: 0 < i < |t| ==> t[i] != CloseCall(listener))
            && HeldAfter({listener, a.accept.fd}, t) == {}
            && HeldAfter({a.accept.fd}, t) == {}
  {
    var c := a.accept.fd;
    var ch := AcceptAndFork(listener, {listener}, a).child.value;
    var st := HandleConnection(c, rounds).value.trace;
    var t := ch.prelude + st;
    SessionReleasesClient(c, rounds);
    forall i | 0 < i < |t|
      ensures t[i] != CloseCall(listener)
    {
      assert t[i] == st[i - 1];
    }
    HeldAfterAppend({c}, ch.prelude, st);
    HeldAfterAppend({listener, c}, ch.prelude, st);
    assert ch.prelude[1..] == [];
    assert HeldAfter({c}, ch.prelude) == {c};
    assert HeldAfter({listener, c}, ch.prelude) == {c};
  }

  /** The parent's accept loop over a sequence of arrivals: the descriptors
      the parent holds afterwards and the children it started. */
  function Serve(listener: Fd, held: set<Fd>, arrivals: seq<Arrival>): (set<Fd>, seq<Child>)
    decreases |arrivals|
  {
    if |arrivals| == 0 then (held, [])
    else
      var it := AcceptAndFork(listener, held, arrivals[0]);
      var (h, kids) := Serve(listener, it.parentHeld, arrivals[1..]);
      (h, (if it.child.Some? then [it.child.value] else []) + kids)
  }

  /** The kernel never hands out the listener again as a new connection. */
  predicate AcceptsAvoid(listener: Fd, arrivals: seq<Arrival>) {
    forall i :: 0 <= i < |arrivals| && arrivals[i].accept.NewConnection? ==> arrivals[i].accept.fd != listener
  }

  /** Whatever arrives (failed accepts, failed forks, new children), the
      parent keeps holding the listener and nothing else, and every child
      holds exactly its own client socket. */
  lemma {:induction false} ParentKeepsOnlyListener(listener: Fd, arrivals: seq<Arrival>)
    requires AcceptsAvoid(listener, arrivals)
    ensures Serve(listener, {listener}, arrivals).0 == {listener}
    ensures forall k :: 0 <= k < |Serve(listener, {listener}, arrivals).1| ==>
              Serve(listener, {listener}, arrivals).1[k].held == {Serve(listener, {listener}, arrivals).1[k].client}
    decreases |arrivals|
  {
    if |arrivals| > 0 {
      var it := AcceptAndFork(listener, {listener}, arrivals[0]);
      assert it.parentHeld == {listener};
      assert AcceptsAvoid(listener, arrivals[1..]) by {
        forall i | 0 <= i < |arrivals[1..]| && arrivals[1..][i].accept.NewConnection?
          ensures arrivals[1..][i].accept.fd != listener
        {
          assert arrivals[1..][i] == arrivals[i + 1];
        }
      }
      ParentKeepsOnlyListener(listener, arrivals[1..]);
    }
  }
}
