/**
 * The forking server's echo loop and the epoll server's drain loop run
 * the same read-then-write cycle: on the same kernel answers they make the
 * same calls in the same order. They differ only in what the end of the
 * cycle means: the epoll server treats a read that would block as "done
 * for now" (0) and every other ending as a disconnect (-1); the forking
 * server closes the client on every ending.
 */
module Engines {
  import opened Io
  import EpollServer
  import BlockingServer

  lemma {:induction false} EchoLoopsAgree(fd: Fd, rounds: seq<Round>)
    ensures EpollServer.DoEcho(fd, rounds).Some? <==> BlockingServer.EchoLoop(fd, rounds).Some?
    ensures EpollServer.DoEcho(fd, rounds).Some? ==>
              EpollServer.DoEcho(fd, rounds).value.trace == BlockingServer.EchoLoop(fd, rounds).value.trace
    decreases |rounds|
  {
    if |rounds| > 0 && Continues(rounds[0]) {
      EchoLoopsAgree(fd, rounds[1..]);
    }
  }

  /** A forked child's session is do_echo's calls followed by close and
      exit; a drain that returned 0 (read would block) is, for the child,
      a read error, and every drain that returned -1 is a session that
      ended by a peer close, a read error or a failed write alike. */
  lemma SessionExtendsDrain(fd: Fd, rounds: seq<Round>)
    requires EpollServer.DoEcho(fd, rounds).Some?
    ensures BlockingServer.HandleConnection(fd, rounds).Some?
    ensures var d := EpollServer.DoEcho(fd, rounds).value;
            var s := BlockingServer.HandleConnection(fd, rounds).value;
            && s.trace == d.trace + [CloseCall(fd), ExitCall(EXIT_SUCCESS)]
            && (d.status == 0 ==> s.report == BlockingServer.ReadError)
            && (s.report != BlockingServer.ReadError ==> d.status == -1)
  {
    EchoLoopsAgree(fd, rounds);
  }
}
