/**
 * The readiness-polled (epoll, edge-triggered) echo server: making a
 * descriptor non-blocking, the drain loop that echoes everything a client
 * has sent so far, the accept loop that drains the listener's backlog, and
 * the dispatch of one ready event.
 */
module EpollServer {
  import opened Io

  /** Linux flag and event bits. */
  const O_NONBLOCK: bv32 := 0x800
  const EPOLLIN: bv32 := 0x001

  /** What setnonblocking did: the flags it handed to F_SETFL and what it returned. */
  datatype NonBlock = NonBlock(setArg: bv32, ret: int)

  /** The file status flags `flags` with O_NONBLOCK added. */
  function WithNonBlock(flags: bv32): (f: bv32)
    ensures f & O_NONBLOCK == O_NONBLOCK
    ensures f & !O_NONBLOCK == flags & !O_NONBLOCK
  {
    flags | O_NONBLOCK
  }

  /** setnonblocking, given F_GETFL's answer (None when that fcntl failed)
      and whether the F_SETFL call succeeds. */
  function SetNonBlocking(getfl: Option<bv32>, setflOk: bool): (r: NonBlock)
    ensures r.setArg & O_NONBLOCK == O_NONBLOCK
    ensures getfl.Some? ==> r.setArg & !O_NONBLOCK == getfl.value & !O_NONBLOCK
    ensures getfl.None? ==> r.setArg == O_NONBLOCK
    ensures r.ret == 0 || r.ret == -1
    ensures r.ret == -1 <==> !setflOk
  {
    var ret := if setflOk then 0 else -1;
    match getfl
    case Some(flags) => NonBlock(WithNonBlock(flags), ret)
    case None => NonBlock(WithNonBlock(0), ret)
  }

  /** What do_echo returned and the calls it issued. */
  datatype Drain = Drain(status: int, trace: seq<Call>)

  /** The trace ends with a read that failed with EAGAIN/EWOULDBLOCK. */
  predicate EndsWouldBlock(t: seq<Call>) {
    |t| > 0 && t[|t| - 1].ReadCall? && WouldBlock(t[|t| - 1].read)
  }

  /** do_echo on descriptor `fd`: read up to BUFFER_SIZE bytes and write
      back what was read until a read returns 0, fails, or a write fails.
      `rounds` are the kernel's answers turn by turn; None means they ran
      out while the loop was still going. */
  function DoEcho(fd: Fd, rounds: seq<Round>): (d: Option<Drain>)
    ensures d.None? <==> forall i :: 0 <= i < |rounds| ==> Continues(rounds[i])
    ensures d.Some? ==> d.value.status == 0 || d.value.status == -1
    ensures d.Some? ==> (d.value.status == 0 <==> EndsWouldBlock(d.value.trace))
    ensures d.Some? ==> EchoShaped(fd, d.value.trace)
    ensures d.Some? ==> Requested(d.value.trace) == Received(d.value.trace)
    decreases |rounds|
  {
    if |rounds| == 0 then None
    else
      var turn := Turn(fd, rounds[0]);
      var rd := rounds[0].read;
      TurnEchoes(fd, rounds[0]);
      if Positive(rd) then
        if rounds[0].write.WriteFailed? then Some(Drain(-1, turn))
        else
          match DoEcho(fd, rounds[1..])
          case None => None
          case Some(rest) =>
            TurnThenShaped(fd, rounds[0], rest.trace);
            ReceivedAppend(turn, rest.trace);
            RequestedAppend(turn, rest.trace);
            Some(Drain(rest.status, turn + rest.trace))
      else if rd.Got? then Some(Drain(-1, turn))
      else if rd.errno == EAGAIN || rd.errno == EWOULDBLOCK then Some(Drain(0, turn))
      else Some(Drain(-1, turn))
  }

  /** Reference description of do_echo: it stops at the first turn that
      does not continue, having issued exactly the calls of the turns up to
      and including that one, and returns 0 precisely when that turn's read
      would have blocked (every other ending, a failed write, a read of 0
      or another read error, returns -1). */
  lemma {:induction false} DoEchoStopsAtFirstStop(fd: Fd, rounds: seq<Round>, k: nat)
    requires k < |rounds|
    requires forall i :: 0 <= i < k ==> Continues(rounds[i])
    requires !Continues(rounds[k])
    ensures DoEcho(fd, rounds) == Some(Drain(if WouldBlock(rounds[k].read) then 0 else -1, Turns(fd, rounds[..k + 1])))
  {
    if k == 0 {
      assert rounds[..1][1..] == [];
      assert Turns(fd, rounds[..1]) == Turn(fd, rounds[0]);
    } else {
      DoEchoStopsAtFirstStop(fd, rounds[1..], k - 1);
      assert rounds[1..][..k] == rounds[..k + 1][1..];
      assert rounds[..k + 1][0] == rounds[0];
    }
  }

  /** When every write do_echo issued was complete, the bytes it sent back
      are exactly the bytes it read, in order. */
  lemma DrainEchoesWhenWritesComplete(fd: Fd, rounds: seq<Round>)
    requires DoEcho(fd, rounds).Some?
    requires WritesComplete(DoEcho(fd, rounds).value.trace)
    ensures Delivered(DoEcho(fd, rounds).value.trace) == Received(DoEcho(fd, rounds).value.trace)
  {
    CompleteWritesDeliverRequest(DoEcho(fd, rounds).value.trace);
  }

  /** A short write goes unnoticed: do_echo reports success although fewer
      bytes went back than were read. */
  lemma ShortWriteGoesUnnoticed()
    ensures var rounds := [Round(Got([1, 2]), Wrote(1)), Round(ReadFailed(EAGAIN), Wrote(0))];
            && DoEcho(3, rounds).Some?
            && DoEcho(3, rounds).value.status == 0
            && Delivered(DoEcho(3, rounds).value.trace) != Received(DoEcho(3, rounds).value.trace)
  {
    var rounds := [Round(Got([1, 2]), Wrote(1)), Round(ReadFailed(EAGAIN), Wrote(0))];
    DoEchoStopsAtFirstStop(3, rounds, 1);
    var t := DoEcho(3, rounds).value.trace;
    assert rounds[..2] == rounds;
    assert rounds[1..][1..] == [];
    assert t == [ReadCall(3, BUFFER_SIZE, Got([1, 2])), WriteCall(3, [1, 2], Wrote(1)),
                 ReadCall(3, BUFFER_SIZE, ReadFailed(EAGAIN))];
    assert t[1..][1..][1..] == [];
    assert Delivered(t[1..][1..]) == [];
    assert Delivered(t[1..]) == [1] by {
      assert t[1..][0].bytes[..1] == [1];
    }
    assert Delivered(t) == [1];
    assert Received(t[1..][1..]) == [];
    assert Received(t[1..]) == [];
    assert Received(t) == [1, 2];
  }

  /** One answer to accept(2) inside the accept loop: a new descriptor
      together with the answers its setup calls get (F_GETFL, F_SETFL,
      EPOLL_CTL_ADD), or -1 with errno. */
  datatype AcceptAttempt =
    | Accepted(fd: Fd, getfl: Option<bv32>, setflOk: bool, ctlOk: bool)
    | AcceptFailed(errno: int)

  /** What became of an accepted descriptor: registered for EPOLLIN|EPOLLET,
      or closed because making it non-blocking or registering it failed. */
  datatype Admission = Registered(fd: Fd) | Discarded(fd: Fd)

  /** Setup of one freshly accepted descriptor. */
  function Admit(a: AcceptAttempt): Admission
    requires a.Accepted?
  {
    if SetNonBlocking(a.getfl, a.setflOk).ret == -1 then Discarded(a.fd)
    else if !a.ctlOk then Discarded(a.fd)
    else Registered(a.fd)
  }

  /** The accept loop run when the listener is ready: accept until accept
      returns -1 (whatever errno says), setting up each new descriptor.
      None means the answers ran out while the loop was still going. */
  function AcceptDrain(attempts: seq<AcceptAttempt>): (r: Option<seq<Admission>>)
    ensures r.None? <==> forall i :: 0 <= i < |attempts| ==> attempts[i].Accepted?
    ensures r.Some? ==> |r.value| < |attempts| && attempts[|r.value|].AcceptFailed?
    ensures r.Some? ==> forall i :: 0 <= i < |r.value| ==>
              && attempts[i].Accepted?
              && r.value[i].fd == attempts[i].fd
              && (r.value[i].Registered? <==>
                    SetNonBlocking(attempts[i].getfl, attempts[i].setflOk).ret == 0 && attempts[i].ctlOk)
    decreases |attempts|
  {
    if |attempts| == 0 then None
    else if attempts[0].AcceptFailed? then Some([])
    else
      match AcceptDrain(attempts[1..])
      case None => None
      case Some(rest) => Some([Admit(attempts[0])] + rest)
  }

  /** Descriptors an accept loop left registered. */
  function AdmittedFds(adm: seq<Admission>): set<Fd> {
    set i | 0 <= i < |adm| && adm[i].Registered? :: adm[i].fd
  }

  /** The server's descriptor bookkeeping: the listener, the descriptors in
      the epoll interest list, and the descriptors it holds open. */
  datatype Epoll = Epoll(listener: Fd, registered: set<Fd>, open: set<Fd>)

  /** Every open descriptor is watched and every watched one is open; the
      listener is among them. */
  predicate Inv(st: Epoll) {
    st.listener in st.registered && st.registered == st.open
  }

  /** One entry of the array epoll_wait filled, with the kernel's answers
      to the calls its handling makes. */
  datatype Ready = Ready(fd: Fd, events: bv32, accepts: seq<AcceptAttempt>, rounds: seq<Round>)

  /** Handling of one ready event: the listener drains its backlog; a
      client with EPOLLIN runs do_echo and, when that returns < 0, is taken
      out of the interest list and closed. */
  function OnReady(st: Epoll, ev: Ready): (r: Option<Epoll>)
    ensures r.Some? ==> r.value.listener == st.listener
    ensures r.Some? && ev.fd == st.listener ==> st.registered <= r.value.registered && st.open <= r.value.open
    ensures r.Some? && ev.fd != st.listener ==>
              && r.value.registered <= st.registered && st.registered - r.value.registered <= {ev.fd}
              && r.value.open <= st.open && st.open - r.value.open <= {ev.fd}
  {
    if ev.fd == st.listener then
      match AcceptDrain(ev.accepts)
      case None => None
      case Some(adm) =>
        var added := AdmittedFds(adm);
        Some(st.(registered := st.registered + added, open := st.open + added))
    else if ev.events & EPOLLIN != 0 then
      match DoEcho(ev.fd, ev.rounds)
      case None => None
      case Some(d) =>
        if d.status < 0 then
          Some(st.(registered := st.registered - {ev.fd}, open := st.open - {ev.fd}))
        else Some(st)
    else Some(st)
  }

  /** The for-loop over the `nfds` entries one epoll_wait returned. */
  function OnReadyAll(st: Epoll, evs: seq<Ready>): Option<Epoll>
    decreases |evs|
  {
    if |evs| == 0 then Some(st)
    else
      match OnReady(st, evs[0])
      case None => None
      case Some(st') => OnReadyAll(st', evs[1..])
  }

  /** A client event with EPOLLIN: the client is removed and closed exactly
      when do_echo returned < 0, and otherwise left as it was. */
  lemma ClientEventOutcome(st: Epoll, ev: Ready)
    requires ev.fd != st.listener
    requires ev.events & EPOLLIN != 0
    requires DoEcho(ev.fd, ev.rounds).Some?
    ensures OnReady(st, ev).Some?
    ensures DoEcho(ev.fd, ev.rounds).value.status < 0 ==>
              ev.fd !in OnReady(st, ev).value.registered && ev.fd !in OnReady(st, ev).value.open
    ensures DoEcho(ev.fd, ev.rounds).value.status < 0 <==>
              !EndsWouldBlock(DoEcho(ev.fd, ev.rounds).value.trace)
    ensures DoEcho(ev.fd, ev.rounds).value.status >= 0 ==> OnReady(st, ev).value == st
  {
  }

  /** An event on a client that does not carry EPOLLIN is ignored. */
  lemma EventWithoutReadIgnored(st: Epoll, ev: Ready)
    requires ev.fd != st.listener
    requires ev.events & EPOLLIN == 0
    ensures OnReady(st, ev) == Some(st)
  {
  }

  /** After the accept loop, a descriptor is watched exactly when it was
      watched before or the loop registered it; one that could not be made
      non-blocking or registered, and was not accepted again later in the
      same loop, is neither watched nor open. */
  lemma ListenerEventOutcome(st: Epoll, ev: Ready, fd: Fd)
    requires ev.fd == st.listener
    requires AcceptDrain(ev.accepts).Some?
    ensures OnReady(st, ev).Some?
    ensures var adm := AcceptDrain(ev.accepts).value;
            fd in OnReady(st, ev).value.registered <==>
              fd in st.registered || exists i :: 0 <= i < |adm| && adm[i] == Registered(fd)
    ensures var adm := AcceptDrain(ev.accepts).value;
            (exists i :: 0 <= i < |adm| && adm[i] == Discarded(fd)) && fd !in st.open && fd !in st.registered
              && (forall i :: 0 <= i < |adm| ==> adm[i] != Registered(fd)) ==>
            fd !in OnReady(st, ev).value.registered && fd !in OnReady(st, ev).value.open
  {
  }

  /** Handling any ready event keeps the watched set equal to the open set
      and the listener in it. */
  lemma OnReadyKeepsInv(st: Epoll, ev: Ready)
    requires Inv(st)
    requires OnReady(st, ev).Some?
    ensures Inv(OnReady(st, ev).value)
  {
  }

  /** ... and so does handling every event of one epoll_wait. */
  lemma {:induction false} OnReadyAllKeepsInv(st: Epoll, evs: seq<Ready>)
    requires Inv(st)
    requires OnReadyAll(st, evs).Some?
    ensures Inv(OnReadyAll(st, evs).value)
    ensures OnReadyAll(st, evs).value.listener == st.listener
    decreases |evs|
  {
    if |evs| > 0 {
      OnReadyKeepsInv(st, evs[0]);
      OnReadyAllKeepsInv(OnReady(st, evs[0]).value, evs[1..]);
    }
  }
}
