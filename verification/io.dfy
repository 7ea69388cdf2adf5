/**
 * Vocabulary shared by the three echo servers: descriptors, payload bytes,
 * the outcomes the kernel can give a read(2) or write(2), and the trace of
 * system calls an echo loop issues on one client descriptor.
 *
 * No I/O is performed anywhere in this project: every kernel answer is an
 * input of the functions that model the servers.
 */
module Io {

  /** Payload bytes are opaque: the servers never look at them. */
  type Byte = bv8

  /** A file descriptor number. */
  type Fd = int

  /** Capacity of every receive buffer in the three servers. */
  const BUFFER_SIZE: nat := 1024

  /** Linux errno values the servers test for (EAGAIN and EWOULDBLOCK share a value). */
  const EAGAIN: int := 11
  const EWOULDBLOCK: int := 11

  /** exit(EXIT_SUCCESS) */
  const EXIT_SUCCESS: int := 0

  datatype Option<+T> = None | Some(value: T)

  /** What read(2) returned: a positive count with the bytes, 0 (an empty
      `Got`, the peer closed), or -1 with the errno it set. */
  datatype ReadOutcome = Got(bytes: seq<Byte>) | ReadFailed(errno: int)

  /** What write(2) returned: a count (possibly short of the request) or -1 with errno. */
  datatype WriteOutcome = Wrote(count: nat) | WriteFailed(errno: int)

  /** One turn of an echo loop as the kernel answers it: the result of the
      read, and the result the echoing write gets if the loop issues one. */
  datatype Round = Round(read: ReadOutcome, write: WriteOutcome)

  /** A system call issued on a client descriptor, with the result it got. */
  datatype Call =
    | ReadCall(fd: Fd, max: nat, read: ReadOutcome)
    | WriteCall(fd: Fd, bytes: seq<Byte>, write: WriteOutcome)
    | CloseCall(fd: Fd)
    | ExitCall(code: int)

  /** read(2) returned a count greater than zero. */
  predicate Positive(o: ReadOutcome) {
    o.Got? && |o.bytes| > 0
  }

  /** read(2) failed with EAGAIN or EWOULDBLOCK: nothing more to read for now. */
  predicate WouldBlock(o: ReadOutcome) {
    o.ReadFailed? && (o.errno == EAGAIN || o.errno == EWOULDBLOCK)
  }

  /** A turn after which both echo loops go round again: data was read and
      the write of it did not fail. */
  predicate Continues(r: Round) {
    Positive(r.read) && r.write.Wrote?
  }

  /** The calls of one iteration of the read-then-echo loop body: a read of
      at most BUFFER_SIZE bytes and, when it returned data, a write of
      exactly that data. */
  function Turn(fd: Fd, r: Round): seq<Call> {
    if Positive(r.read) then
      [ReadCall(fd, BUFFER_SIZE, r.read), WriteCall(fd, r.read.bytes, r.write)]
    else
      [ReadCall(fd, BUFFER_SIZE, r.read)]
  }

  /** The calls of consecutive iterations. */
  function Turns(fd: Fd, rounds: seq<Round>): seq<Call> {
    if |rounds| == 0 then [] else Turn(fd, rounds[0]) + Turns(fd, rounds[1..])
  }

  /** Bytes the reads of a trace returned, in order. */
  function Received(t: seq<Call>): seq<Byte> {
    if |t| == 0 then []
    else (if t[0].ReadCall? && t[0].read.Got? then t[0].read.bytes else []) + Received(t[1..])
  }

  /** Bytes the writes of a trace were asked to send, in order. */
  function Requested(t: seq<Call>): seq<Byte> {
    if |t| == 0 then []
    else (if t[0].WriteCall? then t[0].bytes else []) + Requested(t[1..])
  }

  /** Bytes the writes of a trace report as actually sent: a short write
      sends only the first `count` bytes of its request. */
  function Delivered(t: seq<Call>): seq<Byte> {
    if |t| == 0 then []
    else
      var here := if t[0].WriteCall? && t[0].write.Wrote? then
        (if t[0].write.count < |t[0].bytes| then t[0].bytes[..t[0].write.count] else t[0].bytes)
      else [];
      here + Delivered(t[1..])
  }

  /** Every write in the trace was reported as complete. */
  predicate WritesComplete(t: seq<Call>) {
    forall i :: 0 <= i < |t| && t[i].WriteCall? ==> t[i].write.Wrote? && t[i].write.count >= |t[i].bytes|
  }

  /** The echo discipline, stated over positions of a trace on descriptor
      `fd`: only reads and writes on `fd`; every read asks for BUFFER_SIZE
      bytes; every read that returned data is immediately followed by a
      write of exactly that data; every write immediately follows such a read. */
  ghost predicate EchoShaped(fd: Fd, t: seq<Call>) {
    && (forall i :: 0 <= i < |t| ==> (t[i].ReadCall? || t[i].WriteCall?) && t[i].fd == fd)
    && (forall i :: 0 <= i < |t| && t[i].ReadCall? ==> t[i].max == BUFFER_SIZE)
    && (forall i :: 0 <= i < |t| && t[i].ReadCall? && Positive(t[i].read) ==>
          i + 1 < |t| && t[i + 1].WriteCall? && t[i + 1].bytes == t[i].read.bytes)
    && (forall i :: 0 <= i < |t| && t[i].WriteCall? ==>
          0 < i && t[i - 1].ReadCall? && Positive(t[i - 1].read) && t[i - 1].read.bytes == t[i].bytes)
  }

  lemma {:induction false} ReceivedAppend(a: seq<Call>, b: seq<Call>)
    ensures Received(a + b) == Received(a) + Received(b)
  {
    if |a| == 0 {
      assert a + b == b;
    } else {
      assert (a + b)[1..] == a[1..] + b;
      ReceivedAppend(a[1..], b);
    }
  }

  lemma {:induction false} RequestedAppend(a: seq<Call>, b: seq<Call>)
    ensures Requested(a + b) == Requested(a) + Requested(b)
  {
    if |a| == 0 {
      assert a + b == b;
    } else {
      assert (a + b)[1..] == a[1..] + b;
      RequestedAppend(a[1..], b);
    }
  }

  /** One turn asks to write back exactly what its read returned. */
  lemma TurnEchoes(fd: Fd, r: Round)
    ensures Requested(Turn(fd, r)) == Received(Turn(fd, r))
    ensures EchoShaped(fd, Turn(fd, r))
  {
    var t := Turn(fd, r);
    if Positive(r.read) {
      assert t[1..][1..] == [];
      assert Received(t[1..]) == [];
      assert Requested(t[1..]) == r.read.bytes;
      assert Received(t) == r.read.bytes;
    } else {
      assert t[1..] == [];
    }
  }

  /** The echo discipline survives putting one more turn in front. */
  lemma TurnThenShaped(fd: Fd, r: Round, rest: seq<Call>)
    requires EchoShaped(fd, rest)
    ensures EchoShaped(fd, Turn(fd, r) + rest)
  {
  }

  /** A whole run of turns keeps the echo discipline, and asks to write back
      exactly the bytes it read, in order. */
  lemma {:induction false} TurnsEcho(fd: Fd, rounds: seq<Round>)
    ensures EchoShaped(fd, Turns(fd, rounds))
    ensures Requested(Turns(fd, rounds)) == Received(Turns(fd, rounds))
  {
    if |rounds| > 0 {
      TurnsEcho(fd, rounds[1..]);
      TurnThenShaped(fd, rounds[0], Turns(fd, rounds[1..]));
      TurnEchoes(fd, rounds[0]);
      ReceivedAppend(Turn(fd, rounds[0]), Turns(fd, rounds[1..]));
      RequestedAppend(Turn(fd, rounds[0]), Turns(fd, rounds[1..]));
    }
  }

  /** When every write was reported complete, the bytes sent back are
      exactly the bytes asked for. */
  lemma {:induction false} CompleteWritesDeliverRequest(t: seq<Call>)
    requires WritesComplete(t)
    ensures Delivered(t) == Requested(t)
  {
    if |t| > 0 {
      assert WritesComplete(t[1..]) by {
        forall i | 0 <= i < |t[1..]| && t[1..][i].WriteCall?
          ensures t[1..][i].write.Wrote? && t[1..][i].write.count >= |t[1..][i].bytes|
        {
          assert t[1..][i] == t[i + 1];
        }
      }
      CompleteWritesDeliverRequest(t[1..]);
    }
  }
}
