/**
 * The completion-queue (io_uring) echo server as a transition system.
 *
 * Each submitted request carries a heap-allocated `conn_info` as its user
 * data. The reactor state records every context ever allocated (`memory`,
 * keyed by an allocation id that is never reused), the requests still in
 * flight (`inflight`, keyed by the id of the context they carry), and the
 * client descriptors the server holds open. A context is live exactly
 * while it is in flight: it is freed right after its completion is handled.
 *
 * The kernel is abstract: which in-flight request completes next and with
 * what result is an input (`Cqe`), and so is whether each submission helper
 * gets a submission slot and memory (`Grant`).
 */
module UringServer {
  import opened Io

  /** Allocation id of a `conn_info` (stands for its address). */
  type CtxId = nat

  /** ACCEPT_OP, READ_OP, WRITE_OP. */
  datatype OpKind = AcceptOp | ReadOp | WriteOp

  /** struct conn_info: the descriptor, the operation tag, and the bytes in
      its buffer. Its `size` field is never written by the server and is
      not modelled. */
  datatype ConnInfo = ConnInfo(fd: Fd, op: OpKind, buffer: seq<Byte>)

  /** A prepared submission: accept on the listener, read of at most `max`
      bytes into the buffer of context `into`, or write of `len` bytes taken
      from the buffer of context `from`. */
  datatype Sqe =
    | PrepAccept(fd: Fd)
    | PrepRead(fd: Fd, into: CtxId, max: nat)
    | PrepWrite(fd: Fd, from: CtxId, len: nat)

  /** How a submission helper fared: it got a submission slot and its
      malloc succeeded, io_uring_get_sqe returned NULL, or malloc failed. */
  datatype Grant = Granted | NoSqe | NoMemory

  datatype Reactor = Reactor(
    listener: Fd,
    memory: map<CtxId, ConnInfo>,
    inflight: map<CtxId, Sqe>,
    open: set<Fd>,
    next: CtxId)

  /** A completion: the context its user data points at, cqe->res, and for
      a read the bytes the kernel placed in the buffer. */
  datatype Cqe = Cqe(id: CtxId, res: int, data: seq<Byte>)

  /** One turn of the main loop: the completion io_uring_wait_cqe returned
      and how the (at most two) submissions its handling attempts fare. */
  datatype Event = Event(cqe: Cqe, first: Grant, second: Grant)

  /** `r'` is `r` with exactly one more context, `r.next`, allocated and in
      flight: every other request and every other allocation is as it was,
      and the listener and the open descriptors are untouched. */
  predicate AddsOne(r: Reactor, r': Reactor) {
    && r'.listener == r.listener
    && r'.open == r.open
    && r'.next == r.next + 1
    && r'.memory.Keys == r.memory.Keys + {r.next}
    && r'.inflight.Keys == r.inflight.Keys + {r.next}
    && (forall id :: id in r.inflight && id != r.next ==> r'.inflight[id] == r.inflight[id])
    && (forall id :: id in r.memory && id != r.next ==> r'.memory[id] == r.memory[id])
  }

  /** Submit `sqe` carrying a fresh context `info`, when resources allow;
      otherwise do nothing at all. */
  function Submit(r: Reactor, info: ConnInfo, sqe: Sqe, g: Grant): (r': Reactor)
    ensures g != Granted ==> r' == r
    ensures g == Granted ==> AddsOne(r, r') && r'.inflight[r.next] == sqe && r'.memory[r.next] == info
  {
    if g == Granted then
      r.(memory := r.memory[r.next := info], inflight := r.inflight[r.next := sqe], next := r.next + 1)
    else r
  }

  /** add_accept: an accept on the listener, tagged ACCEPT_OP. */
  function AddAccept(r: Reactor, g: Grant): (r': Reactor)
    ensures g != Granted ==> r' == r
    ensures g == Granted ==> AddsOne(r, r')
    ensures g == Granted ==>
              && r'.inflight[r.next] == PrepAccept(r.listener)
              && r'.memory[r.next].op == AcceptOp && r'.memory[r.next].fd == r.listener
  {
    Submit(r, ConnInfo(r.listener, AcceptOp, []), PrepAccept(r.listener), g)
  }

  /** add_read: a read on `fd` of at most BUFFER_SIZE bytes into the new
      READ_OP context's own buffer. */
  function AddRead(r: Reactor, fd: Fd, g: Grant): (r': Reactor)
    ensures g != Granted ==> r' == r
    ensures g == Granted ==> AddsOne(r, r')
    ensures g == Granted ==>
              && r'.inflight[r.next] == PrepRead(fd, r.next, BUFFER_SIZE)
              && r'.memory[r.next].op == ReadOp && r'.memory[r.next].fd == fd
  {
    Submit(r, ConnInfo(fd, ReadOp, []), PrepRead(fd, r.next, BUFFER_SIZE), g)
  }

  /** add_write: a write on `fd` of `len` bytes from the buffer of context
      `from` (the caller's buffer, not the new WRITE_OP context's own). */
  function AddWrite(r: Reactor, fd: Fd, from: CtxId, len: nat, g: Grant): (r': Reactor)
    ensures g != Granted ==> r' == r
    ensures g == Granted ==> AddsOne(r, r')
    ensures g == Granted ==>
              && r'.inflight[r.next] == PrepWrite(fd, from, len)
              && r'.memory[r.next].op == WriteOp && r'.memory[r.next].fd == fd
  {
    Submit(r, ConnInfo(fd, WriteOp, []), PrepWrite(fd, from, len), g)
  }

  /** The reactor before the first completion: the first accept submitted. */
  function Start(listener: Fd, g: Grant): (r: Reactor)
    ensures g == Granted ==> r.inflight == map[0 := PrepAccept(listener)]
    ensures g != Granted ==> r.inflight == map[]
    ensures r.open == {}
  {
    AddAccept(Reactor(listener, map[], map[], {}, 0), g)
  }

  /** The kernel's side of the contract for a completion: it carries a
      context that is in flight, and its result fits the request (a new
      descriptor is neither the listener nor one already open; a read
      returns at most what was asked, with that many bytes; a write
      reports at most its length). */
  predicate ValidCqe(r: Reactor, c: Cqe) {
    && Allocated(r)
    && c.id in r.inflight
    && match r.inflight[c.id]
       case PrepAccept(_) => c.res >= 0 ==> c.res != r.listener && c.res !in r.open
       case PrepRead(_, _, max) => c.res <= max && (c.res > 0 ==> |c.data| == c.res)
       case PrepWrite(_, _, len) => c.res <= len
  }

  /** The allocator's side: every context in flight was allocated, and a
      new allocation never returns a context that is still allocated. */
  predicate Allocated(r: Reactor) {
    && r.inflight.Keys <= r.memory.Keys
    && forall id :: id in r.memory ==> id < r.next
  }

  /** `h` only adds to `r`: every request in flight in `r` still is, with
      the same request; every request added carries an id allocated after
      `r`; the allocator's side still holds. */
  predicate Grows(r: Reactor, h: Reactor) {
    && h.listener == r.listener
    && r.next <= h.next
    && Allocated(h)
    && (forall id :: id in r.inflight ==> id in h.inflight && h.inflight[id] == r.inflight[id])
    && (forall id :: id in h.inflight && id !in r.inflight ==> r.next <= id < h.next)
    && (forall id :: r.next <= id < h.next ==> id in h.inflight)
  }

  lemma AddsOneGrows(r: Reactor, r': Reactor)
    requires Allocated(r) && AddsOne(r, r')
    ensures Grows(r, r')
  {
  }

  lemma GrowsTrans(a: Reactor, b: Reactor, c: Reactor)
    requires Grows(a, b) && Grows(b, c)
    ensures Grows(a, c)
  {
  }

  /** The switch on the context's tag: what a completion submits and which
      descriptor it closes, before its own context is freed. */
  function Handle(r: Reactor, c: Cqe, first: Grant, second: Grant): (h: Reactor)
    requires Allocated(r)
    requires c.id in r.inflight
    ensures Grows(r, h)
    ensures h.next <= r.next + 2
  {
    var info := r.memory[c.id];
    match info.op
    case AcceptOp =>
      if c.res < 0 then r
      else
        var r1 := r.(open := r.open + {c.res});
        var a := AddAccept(r1, first);
        var b := AddRead(a, c.res, second);
        assert Grows(r, a) by {
          if first == Granted { AddsOneGrows(r1, a); }
        }
        assert Grows(a, b) by {
          if second == Granted { AddsOneGrows(a, b); }
        }
        GrowsTrans(r, a, b);
        b
    case ReadOp =>
      if c.res <= 0 then r.(open := r.open - {info.fd})
      else
        var r1 := r.(memory := r.memory[c.id := info.(buffer := c.data)]);
        var w := AddWrite(r1, info.fd, c.id, c.res, first);
        assert Grows(r, w) by {
          if first == Granted { AddsOneGrows(r1, w); }
        }
        w
    case WriteOp =>
      if c.res < 0 then r.(open := r.open - {info.fd})
      else
        var w := AddRead(r, info.fd, first);
        assert Grows(r, w) by {
          if first == Granted { AddsOneGrows(r, w); }
        }
        w
  }

  /** The completion handler: dispatch on the context's tag, then mark the
      CQE seen and free the context. */
  function Complete(r: Reactor, c: Cqe, first: Grant, second: Grant): (r': Reactor)
    requires Allocated(r)
    requires c.id in r.inflight
    ensures Allocated(r')
    ensures c.id !in r'.inflight
    ensures forall id :: id in r.inflight && id != c.id ==> id in r'.inflight && r'.inflight[id] == r.inflight[id]
    ensures forall id :: id in r'.inflight && id !in r.inflight ==> r.next <= id < r'.next
    ensures forall id :: r.next <= id < r'.next ==> id in r'.inflight
    ensures r.next <= r'.next <= r.next + 2
    ensures r'.listener == r.listener
  {
    var h := Handle(r, c, first, second);
    h.(inflight := h.inflight - {c.id})
  }

  /** The main loop over a sequence of turns. */
  function Run(r: Reactor, evs: seq<Event>): Reactor
    requires ValidRun(r, evs)
    decreases |evs|
  {
    if |evs| == 0 then r
    else Run(Complete(r, evs[0].cqe, evs[0].first, evs[0].second), evs[1..])
  }

  /** Every turn of the sequence gets a completion the kernel could deliver. */
  predicate ValidRun(r: Reactor, evs: seq<Event>)
    decreases |evs|
  {
    |evs| == 0 ||
    (ValidCqe(r, evs[0].cqe) && ValidRun(Complete(r, evs[0].cqe, evs[0].first, evs[0].second), evs[1..]))
  }

  // ---------------------------------------------------------------------
  // The reactor invariant
  // ---------------------------------------------------------------------

  /** A context's tag and descriptor agree with the request it travels with;
      a read always goes into the context's own buffer, BUFFER_SIZE bytes at most. */
  predicate Tagged(info: ConnInfo, sqe: Sqe, id: CtxId) {
    && info.fd == sqe.fd
    && match sqe
       case PrepAccept(_) => info.op == AcceptOp
       case PrepRead(_, into, max) => info.op == ReadOp && into == id && max == BUFFER_SIZE
       case PrepWrite(_, _, _) => info.op == WriteOp
  }

  /** No operation is outstanding on client descriptor `fd`. */
  ghost predicate Idle(r: Reactor, fd: Fd) {
    forall id :: id in r.inflight && !r.inflight[id].PrepAccept? ==> r.inflight[id].fd != fd
  }

  /** No accept is outstanding: the server can no longer take connections. */
  ghost predicate Disarmed(r: Reactor) {
    forall id :: id in r.inflight ==> !r.inflight[id].PrepAccept?
  }

  /** The buffer a write takes its bytes from: the buffer of the read
      context of the same descriptor, holding at least `len` bytes, and
      already freed. */
  ghost predicate WriteSource(r: Reactor, w: Sqe)
    requires w.PrepWrite?
  {
    && w.from in r.memory
    && w.from !in r.inflight
    && r.memory[w.from].op == ReadOp
    && r.memory[w.from].fd == w.fd
    && w.len <= |r.memory[w.from].buffer|
  }

  ghost predicate Inv(r: Reactor) {
    && Allocated(r)
    && r.listener !in r.open
    && (forall id :: id in r.inflight ==> Tagged(r.memory[id], r.inflight[id], id))
    && (forall id :: id in r.inflight && r.inflight[id].PrepAccept? ==> r.inflight[id].fd == r.listener)
    && (forall id :: id in r.inflight && !r.inflight[id].PrepAccept? ==> r.inflight[id].fd in r.open)
    // each connection has at most one outstanding operation
    && (forall a, b ::
          (a in r.inflight && b in r.inflight && a != b && !r.inflight[a].PrepAccept? && !r.inflight[b].PrepAccept?)
          ==> r.inflight[a].fd != r.inflight[b].fd)
    // at most one accept is outstanding
    && (forall a, b ::
          (a in r.inflight && b in r.inflight && r.inflight[a].PrepAccept? && r.inflight[b].PrepAccept?)
          ==> a == b)
    && (forall id :: id in r.inflight && r.inflight[id].PrepWrite? ==> WriteSource(r, r.inflight[id]))
  }
}
