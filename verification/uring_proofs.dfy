/**
 * Properties of the io_uring reactor: what each kind of completion does,
 * the invariant every completion preserves, and the defects of the
 * handler (no re-arm after a failed accept, a short write's tail dropped,
 * the write reading from a freed buffer, a dropped submission stalling a
 * connection for good).
 */
module UringProofs {
  import opened Io
  import opened UringServer

  /** Allocation ids handed out from `lo` up to, not including, `hi`. */
  function Range(lo: nat, hi: nat): set<CtxId>
    decreases hi
  {
    if hi <= lo then {} else Range(lo, hi - 1) + {hi - 1}
  }

  lemma {:induction false} RangeFacts(lo: nat, hi: nat)
    requires lo <= hi
    ensures |Range(lo, hi)| == hi - lo
    ensures forall id :: id in Range(lo, hi) <==> lo <= id < hi
    decreases hi
  {
    if lo < hi {
      RangeFacts(lo, hi - 1);
    }
  }

  lemma {:induction false} RangeSplit(lo: nat, mid: nat, hi: nat)
    requires lo <= mid <= hi
    ensures Range(lo, mid) + Range(mid, hi) == Range(lo, hi)
    decreases hi
  {
    if mid < hi {
      RangeSplit(lo, mid, hi - 1);
    }
  }

  /** The reactor with context `id` freed. */
  function Released(r: Reactor, id: CtxId): Reactor {
    r.(inflight := r.inflight - {id})
  }

  /** The kernel is asked for nothing more on client descriptor `fd`. */
  ghost predicate NoWriteOn(r: Reactor, fd: Fd) {
    forall id :: id in r.inflight && r.inflight[id].PrepWrite? ==> r.inflight[id].fd != fd
  }

  /** The reactor with the bytes a read placed in the buffer of context `id`. */
  function Fill(r: Reactor, id: CtxId, data: seq<Byte>): Reactor
    requires id in r.memory
  {
    r.(memory := r.memory[id := r.memory[id].(buffer := data)])
  }

  // ---------------------------------------------------------------------
  // Context bookkeeping
  // ---------------------------------------------------------------------

  /** Every completion frees exactly the context it carried: afterwards the
      contexts in flight are the old ones minus that one plus the ones
      just allocated, so releases and allocations balance. */
  lemma CompletionAccounting(r: Reactor, c: Cqe, first: Grant, second: Grant)
    requires Allocated(r) && c.id in r.inflight
    ensures var r' := Complete(r, c, first, second);
            && r'.inflight.Keys == (r.inflight.Keys - {c.id}) + Range(r.next, r'.next)
            && |r'.inflight| + 1 == |r.inflight| + (r'.next - r.next)
  {
    var r' := Complete(r, c, first, second);
    var kept := r.inflight.Keys - {c.id};
    var added := Range(r.next, r'.next);
    RangeFacts(r.next, r'.next);
    assert r'.inflight.Keys == kept + added;
    assert kept !! added;
    assert |kept| == |r.inflight.Keys| - 1;
    assert |r'.inflight.Keys| == |kept| + |added|;
  }

  /** Freeing an older context and submitting a new request can be done
      in either order. */
  lemma ReleaseCommutes(r: Reactor, info: ConnInfo, sqe: Sqe, g: Grant, id: CtxId)
    requires id < r.next
    ensures Released(Submit(r, info, sqe, g), id) == Submit(Released(r, id), info, sqe, g)
  {
    if g == Granted {
      assert r.inflight[r.next := sqe] - {id} == (r.inflight - {id})[r.next := sqe];
    }
  }

  // ---------------------------------------------------------------------
  // Each completion as "free the context, then submit"
  // ---------------------------------------------------------------------

  /** A successful accept: free the accept context, hold the new
      descriptor, re-arm the accept, then start reading the descriptor. */
  lemma AcceptSuccessShape(r: Reactor, c: Cqe, first: Grant, second: Grant)
    requires Allocated(r) && c.id in r.inflight
    requires r.memory[c.id].op == AcceptOp && c.res >= 0
    ensures Complete(r, c, first, second)
         == AddRead(AddAccept(Released(r, c.id).(open := r.open + {c.res}), first), c.res, second)
  {
    var r1 := r.(open := r.open + {c.res});
    var a := AddAccept(r1, first);
    assert Complete(r, c, first, second) == Released(AddRead(a, c.res, second), c.id);
    assert c.id < r1.next <= a.next;
    ReleaseCommutes(r1, ConnInfo(r1.listener, AcceptOp, []), PrepAccept(r1.listener), first, c.id);
    ReleaseCommutes(a, ConnInfo(c.res, ReadOp, []), PrepRead(c.res, a.next, BUFFER_SIZE), second, c.id);
    assert Released(r1, c.id) == Released(r, c.id).(open := r.open + {c.res});
  }

  /** A read that returned data: keep the data in the read context's
      buffer, free that context, then write the data back from it. */
  lemma ReadDataShape(r: Reactor, c: Cqe, first: Grant, second: Grant)
    requires Allocated(r) && c.id in r.inflight
    requires r.memory[c.id].op == ReadOp && c.res > 0
    ensures Complete(r, c, first, second)
         == AddWrite(Released(Fill(r, c.id, c.data), c.id), r.memory[c.id].fd, c.id, c.res, first)
  {
    var fd := r.memory[c.id].fd;
    var r1 := Fill(r, c.id, c.data);
    assert Complete(r, c, first, second) == Released(AddWrite(r1, fd, c.id, c.res, first), c.id);
    ReleaseCommutes(r1, ConnInfo(fd, WriteOp, []), PrepWrite(fd, c.id, c.res), first, c.id);
  }

  /** A write that did not fail: free the write context, then read again. */
  lemma WriteDoneShape(r: Reactor, c: Cqe, first: Grant, second: Grant)
    requires Allocated(r) && c.id in r.inflight
    requires r.memory[c.id].op == WriteOp && c.res >= 0
    ensures Complete(r, c, first, second) == AddRead(Released(r, c.id), r.memory[c.id].fd, first)
  {
    var fd := r.memory[c.id].fd;
    assert Complete(r, c, first, second) == Released(AddRead(r, fd, first), c.id);
    ReleaseCommutes(r, ConnInfo(fd, ReadOp, []), PrepRead(fd, r.next, BUFFER_SIZE), first, c.id);
  }

  /** A read that ended or failed, or a write that failed: free the
      context and close its descriptor. */
  lemma CloseShape(r: Reactor, c: Cqe, first: Grant, second: Grant)
    requires Allocated(r) && c.id in r.inflight
    requires (r.memory[c.id].op == ReadOp && c.res <= 0) || (r.memory[c.id].op == WriteOp && c.res < 0)
    ensures Complete(r, c, first, second) == Released(r, c.id).(open := r.open - {r.memory[c.id].fd})
  {
  }

  // ---------------------------------------------------------------------
  // The four kinds of completion
  // ---------------------------------------------------------------------

  /** A successful accept re-arms the accept first and then starts reading
      the new descriptor, which the server now holds open, and submits
      nothing else. A re-arm that gets no slot or memory leaves no accept
      outstanding, and a read that gets none leaves the new connection
      open with nothing outstanding. */
  lemma AcceptSuccess(r: Reactor, c: Cqe, first: Grant, second: Grant)
    requires Inv(r) && ValidCqe(r, c)
    requires r.inflight[c.id].PrepAccept? && c.res >= 0
    ensures var r' := Complete(r, c, first, second);
            var readId := if first == Granted then r.next + 1 else r.next;
            && r'.open == r.open + {c.res}
            && (first == Granted ==> r'.inflight[r.next] == PrepAccept(r.listener))
            && (second == Granted ==> readId in r'.inflight && r'.inflight[readId] == PrepRead(c.res, readId, BUFFER_SIZE))
            && (first == Granted && second == Granted ==> r.next < readId)
            && r'.next == r.next + (if first == Granted then 1 else 0) + (if second == Granted then 1 else 0)
            && r'.inflight.Keys == (r.inflight.Keys - {c.id}) + Range(r.next, r'.next)
            && (first != Granted ==> Disarmed(r'))
            && (second != Granted ==> c.res in r'.open && Idle(r', c.res))
  {
    assert Tagged(r.memory[c.id], r.inflight[c.id], c.id);
    ReleasedAcceptDisarms(r, c.id);
    ReleaseInv(r, c.id);
    OpenInv(Released(r, c.id), c.res);
    AcceptedRequests(r, c, first, second);
  }

  /** What a successful accept puts in flight, given that freeing its
      context leaves no accept and nothing on the new descriptor. */
  lemma AcceptedRequests(r: Reactor, c: Cqe, first: Grant, second: Grant)
    requires Allocated(r) && c.id in r.inflight
    requires r.memory[c.id].op == AcceptOp && c.res >= 0
    requires Disarmed(Released(r, c.id)) && Idle(Released(r, c.id).(open := r.open + {c.res}), c.res)
    ensures var r' := Complete(r, c, first, second);
            var readId := if first == Granted then r.next + 1 else r.next;
            && r'.open == r.open + {c.res}
            && (first == Granted ==> r'.inflight[r.next] == PrepAccept(r.listener))
            && (second == Granted ==> readId in r'.inflight && r'.inflight[readId] == PrepRead(c.res, readId, BUFFER_SIZE))
            && (first == Granted && second == Granted ==> r.next < readId)
            && r'.next == r.next + (if first == Granted then 1 else 0) + (if second == Granted then 1 else 0)
            && r'.inflight.Keys == (r.inflight.Keys - {c.id}) + Range(r.next, r'.next)
            && (first != Granted ==> Disarmed(r'))
            && (second != Granted ==> c.res in r'.open && Idle(r', c.res))
  {
    AcceptSuccessShape(r, c, first, second);
    var q := Released(r, c.id).(open := r.open + {c.res});
    assert Disarmed(q);
    ReArmThenRead(q, c.res, first, second);
    ReArmThenReadAdds(q, c.res, first, second);
    ReArmThenReadDropped(q, c.res, first, second);
  }

  /** Re-arming the accept and then reading `fd`: the accept gets the
      earlier allocation and the read the later one. */
  lemma ReArmThenRead(q: Reactor, fd: Fd, first: Grant, second: Grant)
    ensures var r' := AddRead(AddAccept(q, first), fd, second);
            var readId := if first == Granted then q.next + 1 else q.next;
            && r'.open == q.open
            && (first == Granted ==> r'.inflight[q.next] == PrepAccept(q.listener))
            && (second == Granted ==> readId in r'.inflight && r'.inflight[readId] == PrepRead(fd, readId, BUFFER_SIZE))
            && (first == Granted && second == Granted ==> q.next < readId)
  {
    var a := AddAccept(q, first);
    if first == Granted {
      assert a.next == q.next + 1 && a.inflight[q.next] == PrepAccept(q.listener);
    }
  }

  /** Re-arming the accept and reading `fd` put in flight one new request
      per granted submission and nothing else. */
  lemma ReArmThenReadAdds(q: Reactor, fd: Fd, first: Grant, second: Grant)
    ensures var r' := AddRead(AddAccept(q, first), fd, second);
            && r'.next == q.next + (if first == Granted then 1 else 0) + (if second == Granted then 1 else 0)
            && r'.inflight.Keys == q.inflight.Keys + Range(q.next, r'.next)
  {
    var a := AddAccept(q, first);
    var r' := AddRead(a, fd, second);
    assert Range(q.next, a.next) + Range(a.next, r'.next) == Range(q.next, r'.next) by {
      RangeSplit(q.next, a.next, r'.next);
    }
    assert a.inflight.Keys == q.inflight.Keys + Range(q.next, a.next) by {
      if first == Granted { assert Range(q.next, a.next) == {q.next}; }
    }
    assert r'.inflight.Keys == a.inflight.Keys + Range(a.next, r'.next) by {
      if second == Granted { assert Range(a.next, r'.next) == {a.next}; }
    }
  }

  /** A re-arm that is dropped leaves no accept outstanding, and a read
      that is dropped leaves `fd` with nothing outstanding. */
  lemma ReArmThenReadDropped(q: Reactor, fd: Fd, first: Grant, second: Grant)
    ensures var r' := AddRead(AddAccept(q, first), fd, second);
            && (first != Granted && Disarmed(q) ==> Disarmed(r'))
            && (second != Granted && Idle(q, fd) ==> Idle(r', fd))
  {
    var a := AddAccept(q, first);
    if first != Granted && Disarmed(q) && second == Granted {
      assert AddRead(a, fd, second).inflight[q.next].PrepRead?;
    }
    if second != Granted && Idle(q, fd) && first == Granted {
      AddKeepsIdle(q, a, fd);
    }
  }

  /** A failed accept submits nothing and frees its context, so no accept
      is outstanding any more. */
  lemma AcceptFailureDisarms(r: Reactor, c: Cqe, first: Grant, second: Grant)
    requires Inv(r) && ValidCqe(r, c)
    requires r.inflight[c.id].PrepAccept? && c.res < 0
    ensures Complete(r, c, first, second) == r.(inflight := r.inflight - {c.id})
    ensures Disarmed(Complete(r, c, first, second))
  {
  }

  /** A read that returned data submits, on the same descriptor, a write
      of exactly that many bytes taken from the completed read context's
      buffer, which holds the data and is freed in the same turn. Without
      a submission slot or memory, the connection is left open with
      nothing outstanding. */
  lemma ReadDataEchoed(r: Reactor, c: Cqe, first: Grant, second: Grant)
    requires Inv(r) && ValidCqe(r, c)
    requires r.inflight[c.id].PrepRead? && c.res > 0
    ensures var fd := r.inflight[c.id].fd;
            var r' := Complete(r, c, first, second);
            && |c.data| == c.res
            && r'.open == r.open
            && (first == Granted ==>
                  && r'.inflight == (r.inflight - {c.id})[r.next := PrepWrite(fd, c.id, c.res)]
                  && r'.memory[c.id].buffer == c.data
                  && c.id !in r'.inflight)
            && (first != Granted ==> fd in r'.open && Idle(r', fd))
  {
    ReadDataShape(r, c, first, second);
    ReleasedIdle(r, c.id);
  }

  /** A read that returned 0 or failed closes the descriptor, which was
      open, and submits nothing for it. */
  lemma ReadEndCloses(r: Reactor, c: Cqe, first: Grant, second: Grant)
    requires Inv(r) && ValidCqe(r, c)
    requires r.inflight[c.id].PrepRead? && c.res <= 0
    ensures var fd := r.inflight[c.id].fd;
            var r' := Complete(r, c, first, second);
            && fd in r.open
            && r'.open == r.open - {fd}
            && r'.inflight == r.inflight - {c.id}
            && Idle(r', fd)
  {
    CloseShape(r, c, first, second);
    ReleasedIdle(r, c.id);
  }

  /** A failed write closes the descriptor, which was open. Any other
      write completion, short or not, keeps the descriptor open and
      submits a new read on it and nothing else; without a slot or memory
      it submits nothing, leaving the connection with nothing outstanding. */
  lemma WriteCompletion(r: Reactor, c: Cqe, first: Grant, second: Grant)
    requires Inv(r) && ValidCqe(r, c)
    requires r.inflight[c.id].PrepWrite?
    ensures var fd := r.inflight[c.id].fd;
            var r' := Complete(r, c, first, second);
            && (c.res < 0 ==> fd in r.open && r'.open == r.open - {fd} && r'.inflight == r.inflight - {c.id} && Idle(r', fd))
            && (c.res >= 0 ==> r'.open == r.open)
            && (c.res >= 0 && first == Granted ==>
                  r'.inflight == (r.inflight - {c.id})[r.next := PrepRead(fd, r.next, BUFFER_SIZE)])
            && (c.res >= 0 && first != Granted ==> r'.inflight == r.inflight - {c.id} && fd in r'.open && Idle(r', fd))
  {
    if c.res < 0 {
      CloseShape(r, c, first, second);
    } else {
      WriteDoneShape(r, c, first, second);
    }
    ReleasedIdle(r, c.id);
  }

  /** A short write is treated as complete. The bytes it did not send, a
      non-empty tail of the read buffer it took from, are never sent:
      once it completes, no write in flight takes from that buffer, and
      none ever does again whatever completes afterwards. */
  lemma ShortWriteDropsRest(r: Reactor, c: Cqe, first: Grant, second: Grant, evs: seq<Event>)
    requires Inv(r) && ValidCqe(r, c)
    requires r.inflight[c.id].PrepWrite? && 0 <= c.res < r.inflight[c.id].len
    requires ValidRun(Complete(r, c, first, second), evs)
    ensures var w := r.inflight[c.id];
            && w.from in r.memory
            && |r.memory[w.from].buffer[c.res..w.len]| > 0
            && NoWriteOn(Complete(r, c, first, second), w.fd)
            && NoWriteFrom(Run(Complete(r, c, first, second), evs), w.from)
  {
    var w := r.inflight[c.id];
    assert WriteSource(r, w);
    WriteDoneShape(r, c, first, second);
    ReleasedIdle(r, c.id);
    SpentAfterWrite(r, c, first, second);
    RunKeepsSpent(Complete(r, c, first, second), evs, w.from);
  }

  // ---------------------------------------------------------------------
  // A freed read buffer is never written from again
  // ---------------------------------------------------------------------

  /** No write in flight takes its bytes from the buffer of context `from`. */
  ghost predicate NoWriteFrom(r: Reactor, from: CtxId) {
    forall id :: id in r.inflight && r.inflight[id].PrepWrite? ==> r.inflight[id].from != from
  }

  /** Context `from` is freed for good (already handed out, so never
      allocated again) and no write in flight takes from its buffer. */
  ghost predicate Spent(r: Reactor, from: CtxId) {
    from < r.next && from !in r.inflight && NoWriteFrom(r, from)
  }

  /** Once a write completes without error, its source buffer is spent:
      the one operation its descriptor may have was that write, so no
      other write took from the same buffer. */
  lemma SpentAfterWrite(r: Reactor, c: Cqe, first: Grant, second: Grant)
    requires Inv(r) && ValidCqe(r, c)
    requires r.inflight[c.id].PrepWrite? && c.res >= 0
    ensures Spent(Complete(r, c, first, second), r.inflight[c.id].from)
  {
    var w := r.inflight[c.id];
    assert WriteSource(r, w);
    var q := Released(r, c.id);
    assert NoWriteFrom(q, w.from) by {
      forall id | id in q.inflight && q.inflight[id].PrepWrite?
        ensures q.inflight[id].from != w.from
      {
        assert WriteSource(r, r.inflight[id]);
      }
    }
    WriteDoneShape(r, c, first, second);
    if first == Granted {
      AddsOneSpent(q, AddRead(q, w.fd, first), w.from);
    }
  }

  lemma AddsOneSpent(r: Reactor, r': Reactor, from: CtxId)
    requires AddsOne(r, r') && Spent(r, from)
    requires r'.inflight[r.next].PrepWrite? ==> r'.inflight[r.next].from != from
    ensures Spent(r', from)
  {
  }

  /** Whatever completes, a spent buffer stays spent: a new write takes
      from the read context that just completed, which was in flight. */
  lemma StepKeepsSpent(r: Reactor, c: Cqe, first: Grant, second: Grant, from: CtxId)
    requires Allocated(r) && c.id in r.inflight && Spent(r, from)
    ensures Spent(Complete(r, c, first, second), from)
  {
    var info := r.memory[c.id];
    match info.op
    case AcceptOp =>
      if c.res >= 0 {
        AcceptSuccessShape(r, c, first, second);
        var q := Released(r, c.id).(open := r.open + {c.res});
        var a := AddAccept(q, first);
        if first == Granted {
          AddsOneSpent(q, a, from);
        }
        if second == Granted {
          AddsOneSpent(a, AddRead(a, c.res, second), from);
        }
      }
    case ReadOp =>
      if c.res > 0 {
        ReadDataShape(r, c, first, second);
        var q := Released(Fill(r, c.id, c.data), c.id);
        if first == Granted {
          AddsOneSpent(q, AddWrite(q, info.fd, c.id, c.res, first), from);
        }
      } else {
        CloseShape(r, c, first, second);
      }
    case WriteOp =>
      if c.res >= 0 {
        WriteDoneShape(r, c, first, second);
        var q := Released(r, c.id);
        if first == Granted {
          AddsOneSpent(q, AddRead(q, info.fd, first), from);
        }
      } else {
        CloseShape(r, c, first, second);
      }
  }

  lemma {:induction false} RunKeepsSpent(r: Reactor, evs: seq<Event>, from: CtxId)
    requires ValidRun(r, evs) && Spent(r, from)
    ensures NoWriteFrom(Run(r, evs), from)
    decreases |evs|
  {
    if |evs| > 0 {
      StepKeepsSpent(r, evs[0].cqe, evs[0].first, evs[0].second, from);
      RunKeepsSpent(Complete(r, evs[0].cqe, evs[0].first, evs[0].second), evs[1..], from);
    }
  }

  /** Every write in flight takes its bytes from a context that has
      already been freed. */
  lemma WriteReadsFreedBuffer(r: Reactor, id: CtxId)
    requires Inv(r)
    requires id in r.inflight && r.inflight[id].PrepWrite?
    ensures r.inflight[id].from !in r.inflight
    ensures r.inflight[id].len <= |r.memory[r.inflight[id].from].buffer|
  {
  }

  // ---------------------------------------------------------------------
  // The invariant
  // ---------------------------------------------------------------------

  lemma StartInv(listener: Fd, g: Grant)
    ensures Inv(Start(listener, g))
  {
  }

  lemma ReleaseInv(r: Reactor, id: CtxId)
    requires Inv(r) && id in r.inflight
    ensures Inv(Released(r, id))
  {
  }

  /** Once a connection's one operation completes, nothing is outstanding on it. */
  lemma ReleasedIdle(r: Reactor, id: CtxId)
    requires Inv(r) && id in r.inflight && !r.inflight[id].PrepAccept?
    ensures Idle(Released(r, id), r.inflight[id].fd)
  {
  }

  lemma ReleasedAcceptDisarms(r: Reactor, id: CtxId)
    requires Inv(r) && id in r.inflight && r.inflight[id].PrepAccept?
    ensures Disarmed(Released(r, id))
  {
  }

  /** Keeping a read's data in its context's buffer, while that read is
      still in flight, keeps the invariant: no write takes from a live context. */
  lemma FillInv(r: Reactor, id: CtxId, data: seq<Byte>)
    requires Inv(r) && id in r.inflight && r.inflight[id].PrepRead?
    ensures Inv(Fill(r, id, data))
  {
  }

  /** Taking a new descriptor the server did not hold keeps the invariant,
      and nothing is outstanding on it yet. */
  lemma OpenInv(r: Reactor, fd: Fd)
    requires Inv(r) && fd != r.listener && fd !in r.open
    ensures Inv(r.(open := r.open + {fd}))
    ensures Idle(r.(open := r.open + {fd}), fd)
  {
  }

  /** Closing a descriptor with nothing outstanding keeps the invariant. */
  lemma CloseFdInv(r: Reactor, fd: Fd)
    requires Inv(r) && Idle(r, fd)
    ensures Inv(r.(open := r.open - {fd}))
  {
  }

  /** The new request `r'` puts in flight is consistent with `r`: tagged
      like its context, an accept only on the listener and only when none
      is outstanding, any other request only on an open descriptor with
      nothing outstanding, and a write only from a freed read buffer of
      its own descriptor. */
  ghost predicate Consistent(r: Reactor, r': Reactor)
    requires AddsOne(r, r')
  {
    var s := r'.inflight[r.next];
    && Tagged(r'.memory[r.next], s, r.next)
    && (s.PrepAccept? ==> s.fd == r.listener && Disarmed(r))
    && (!s.PrepAccept? ==> s.fd in r.open && Idle(r, s.fd))
    && (s.PrepWrite? ==> WriteSource(r', s))
  }

  lemma AddsOneTags(r: Reactor, r': Reactor)
    requires Inv(r) && AddsOne(r, r') && Consistent(r, r')
    ensures forall id :: id in r'.inflight ==> Tagged(r'.memory[id], r'.inflight[id], id)
  {
    forall id | id in r'.inflight
      ensures Tagged(r'.memory[id], r'.inflight[id], id)
    {
      if id != r.next {
        assert r'.memory[id] == r.memory[id];
      }
    }
  }

  lemma AddsOneSources(r: Reactor, r': Reactor)
    requires Inv(r) && AddsOne(r, r') && Consistent(r, r')
    ensures forall id :: id in r'.inflight && r'.inflight[id].PrepWrite? ==> WriteSource(r', r'.inflight[id])
  {
    forall id | id in r'.inflight && r'.inflight[id].PrepWrite?
      ensures WriteSource(r', r'.inflight[id])
    {
      if id != r.next {
        var w := r.inflight[id];
        assert WriteSource(r, w);
        assert r'.memory[w.from] == r.memory[w.from];
      }
    }
  }

  lemma AddsOneConnections(r: Reactor, r': Reactor)
    requires Inv(r) && AddsOne(r, r') && Consistent(r, r')
    ensures forall a, b ::
              (a in r'.inflight && b in r'.inflight && a != b && !r'.inflight[a].PrepAccept? && !r'.inflight[b].PrepAccept?)
              ==> r'.inflight[a].fd != r'.inflight[b].fd
    ensures forall id :: id in r'.inflight && !r'.inflight[id].PrepAccept? ==> r'.inflight[id].fd in r'.open
  {
    forall a, b | a in r'.inflight && b in r'.inflight && a != b && !r'.inflight[a].PrepAccept? && !r'.inflight[b].PrepAccept?
      ensures r'.inflight[a].fd != r'.inflight[b].fd
    {
      if a != r.next && b != r.next {
        assert r'.inflight[a] == r.inflight[a] && r'.inflight[b] == r.inflight[b];
      }
    }
  }

  lemma AddsOneAccepts(r: Reactor, r': Reactor)
    requires Inv(r) && AddsOne(r, r') && Consistent(r, r')
    ensures forall a, b ::
              (a in r'.inflight && b in r'.inflight && r'.inflight[a].PrepAccept? && r'.inflight[b].PrepAccept?)
              ==> a == b
    ensures forall id :: id in r'.inflight && r'.inflight[id].PrepAccept? ==> r'.inflight[id].fd == r'.listener
  {
    forall a, b | a in r'.inflight && b in r'.inflight && r'.inflight[a].PrepAccept? && r'.inflight[b].PrepAccept?
      ensures a == b
    {
      if a != r.next && b != r.next {
        assert r'.inflight[a] == r.inflight[a] && r'.inflight[b] == r.inflight[b];
      }
    }
  }

  /** Putting one consistent request in flight keeps the invariant. */
  lemma AddsOneInv(r: Reactor, r': Reactor)
    requires Inv(r) && AddsOne(r, r') && Consistent(r, r')
    ensures Inv(r')
  {
    AddsOneTags(r, r');
    AddsOneSources(r, r');
    AddsOneConnections(r, r');
    AddsOneAccepts(r, r');
  }

  lemma AddAcceptInv(r: Reactor, g: Grant)
    requires Inv(r) && Disarmed(r)
    ensures Inv(AddAccept(r, g))
  {
    if g == Granted {
      AddsOneInv(r, AddAccept(r, g));
    }
  }

  lemma AddReadInv(r: Reactor, fd: Fd, g: Grant)
    requires Inv(r) && fd in r.open && Idle(r, fd)
    ensures Inv(AddRead(r, fd, g))
  {
    if g == Granted {
      AddsOneInv(r, AddRead(r, fd, g));
    }
  }

  lemma AddWriteInv(r: Reactor, fd: Fd, from: CtxId, len: nat, g: Grant)
    requires Inv(r) && fd in r.open && Idle(r, fd)
    requires from in r.memory && from !in r.inflight
    requires r.memory[from].op == ReadOp && r.memory[from].fd == fd && len <= |r.memory[from].buffer|
    ensures Inv(AddWrite(r, fd, from, len, g))
  {
    if g == Granted {
      var r' := AddWrite(r, fd, from, len, g);
      assert from < r.next;
      assert r'.memory[from] == r.memory[from];
      AddsOneInv(r, r');
    }
  }

  /** Re-arming the accept and reading a new descriptor, once the old
      accept has been freed, keeps the invariant. */
  lemma AcceptedInv(q: Reactor, fd: Fd, first: Grant, second: Grant)
    requires Inv(q) && Disarmed(q) && fd != q.listener && fd !in q.open
    ensures Inv(AddRead(AddAccept(q.(open := q.open + {fd}), first), fd, second))
  {
    OpenInv(q, fd);
    var q1 := q.(open := q.open + {fd});
    assert Disarmed(q1);
    AddAcceptInv(q1, first);
    var q2 := AddAccept(q1, first);
    assert Idle(q2, fd);
    AddReadInv(q2, fd, second);
  }

  /** Every completion the kernel can deliver preserves the invariant: at
      most one accept and at most one operation per connection outstanding,
      tags matching requests, operations only on open descriptors, writes
      sourcing freed read buffers of their own descriptor. */
  lemma StepInv(r: Reactor, c: Cqe, first: Grant, second: Grant)
    requires Inv(r) && ValidCqe(r, c)
    ensures Inv(Complete(r, c, first, second))
  {
    var id := c.id;
    var q := Released(r, id);
    ReleaseInv(r, id);
    match r.inflight[id]
    case PrepAccept(_) =>
      ReleasedAcceptDisarms(r, id);
      if c.res >= 0 {
        AcceptSuccessShape(r, c, first, second);
        AcceptedInv(q, c.res, first, second);
      }
    case PrepRead(fd, _, _) =>
      ReleasedIdle(r, id);
      if c.res > 0 {
        ReadDataShape(r, c, first, second);
        FillInv(r, id, c.data);
        ReleaseInv(Fill(r, id, c.data), id);
        AddWriteInv(Released(Fill(r, id, c.data), id), fd, id, c.res, first);
      } else {
        CloseShape(r, c, first, second);
        CloseFdInv(q, fd);
      }
    case PrepWrite(fd, _, _) =>
      ReleasedIdle(r, id);
      if c.res >= 0 {
        WriteDoneShape(r, c, first, second);
        AddReadInv(q, fd, first);
      } else {
        CloseShape(r, c, first, second);
        CloseFdInv(q, fd);
      }
  }

  /** The invariant holds after any sequence of completions from the start. */
  lemma {:induction false} RunInv(r: Reactor, evs: seq<Event>)
    requires Inv(r) && ValidRun(r, evs)
    ensures Inv(Run(r, evs))
    decreases |evs|
  {
    if |evs| > 0 {
      StepInv(r, evs[0].cqe, evs[0].first, evs[0].second);
      RunInv(Complete(r, evs[0].cqe, evs[0].first, evs[0].second), evs[1..]);
    }
  }

  /** A new request on another descriptor leaves `fd` idle. */
  lemma AddKeepsIdle(r: Reactor, r': Reactor, fd: Fd)
    requires AddsOne(r, r') && Idle(r, fd)
    requires r'.inflight[r.next].PrepAccept? || r'.inflight[r.next].fd != fd
    ensures Idle(r', fd)
  {
  }

  /** Re-arming the accept and reading a descriptor other than `fd` leave `fd` idle. */
  lemma AcceptKeepsIdle(q: Reactor, res: Fd, first: Grant, second: Grant, fd: Fd)
    requires Idle(q, fd) && res != fd
    ensures Idle(AddRead(AddAccept(q, first), res, second), fd)
  {
    var a := AddAccept(q, first);
    if first == Granted {
      AddKeepsIdle(q, a, fd);
    }
    if second == Granted {
      AddKeepsIdle(a, AddRead(a, res, second), fd);
    }
  }

  /** A completion that is not on `fd`, and is not an accept returning
      `fd`, leaves `fd` idle and neither opens nor closes it. */
  lemma StepKeepsIdle(r: Reactor, c: Cqe, first: Grant, second: Grant, fd: Fd)
    requires Inv(r) && ValidCqe(r, c) && Idle(r, fd)
    requires !(r.inflight[c.id].PrepAccept? && c.res >= 0 && c.res == fd)
    ensures Idle(Complete(r, c, first, second), fd)
    ensures fd in Complete(r, c, first, second).open <==> fd in r.open
  {
    var info := r.memory[c.id];
    assert Tagged(info, r.inflight[c.id], c.id);
    match info.op
    case AcceptOp => AcceptStepKeepsIdle(r, c, first, second, fd);
    case ReadOp => ReadStepKeepsIdle(r, c, first, second, fd);
    case WriteOp => WriteStepKeepsIdle(r, c, first, second, fd);
  }

  lemma AcceptStepKeepsIdle(r: Reactor, c: Cqe, first: Grant, second: Grant, fd: Fd)
    requires Allocated(r) && c.id in r.inflight && Idle(r, fd)
    requires r.memory[c.id].op == AcceptOp && (c.res >= 0 ==> c.res != fd)
    ensures Idle(Complete(r, c, first, second), fd)
    ensures fd in Complete(r, c, first, second).open <==> fd in r.open
  {
    if c.res >= 0 {
      AcceptSuccessShape(r, c, first, second);
      var q1 := Released(r, c.id).(open := r.open + {c.res});
      AcceptKeepsIdle(q1, c.res, first, second, fd);
      ReArmThenRead(q1, c.res, first, second);
    }
  }

  lemma ReadStepKeepsIdle(r: Reactor, c: Cqe, first: Grant, second: Grant, fd: Fd)
    requires Allocated(r) && c.id in r.inflight && Idle(r, fd)
    requires r.memory[c.id].op == ReadOp && r.memory[c.id].fd != fd
    ensures Idle(Complete(r, c, first, second), fd)
    ensures fd in Complete(r, c, first, second).open <==> fd in r.open
  {
    var f := r.memory[c.id].fd;
    if c.res > 0 {
      ReadDataShape(r, c, first, second);
      var q1 := Released(Fill(r, c.id, c.data), c.id);
      if first == Granted {
        AddKeepsIdle(q1, AddWrite(q1, f, c.id, c.res, first), fd);
      }
    } else {
      CloseShape(r, c, first, second);
    }
  }

  lemma WriteStepKeepsIdle(r: Reactor, c: Cqe, first: Grant, second: Grant, fd: Fd)
    requires Allocated(r) && c.id in r.inflight && Idle(r, fd)
    requires r.memory[c.id].op == WriteOp && r.memory[c.id].fd != fd
    ensures Idle(Complete(r, c, first, second), fd)
    ensures fd in Complete(r, c, first, second).open <==> fd in r.open
  {
    var f := r.memory[c.id].fd;
    var q := Released(r, c.id);
    if c.res >= 0 {
      WriteDoneShape(r, c, first, second);
      if first == Granted {
        AddKeepsIdle(q, AddRead(q, f, first), fd);
      }
    } else {
      CloseShape(r, c, first, second);
    }
  }

  // ---------------------------------------------------------------------
  // What can never recover
  // ---------------------------------------------------------------------

  /** Only an accept completion submits an accept, so once none is
      outstanding none ever will be: the server stops accepting for good. */
  lemma {:induction false} DisarmedForever(r: Reactor, evs: seq<Event>)
    requires Inv(r) && Disarmed(r) && ValidRun(r, evs)
    ensures Disarmed(Run(r, evs))
    decreases |evs|
  {
    if |evs| > 0 {
      var c := evs[0].cqe;
      var r' := Complete(r, c, evs[0].first, evs[0].second);
      assert !r.inflight[c.id].PrepAccept?;
      assert Disarmed(r') by {
        forall id | id in r'.inflight
          ensures !r'.inflight[id].PrepAccept?
        {
          if id in r.inflight {
            assert r'.inflight[id] == r.inflight[id];
          }
        }
      }
      StepInv(r, c, evs[0].first, evs[0].second);
      DisarmedForever(r', evs[1..]);
    }
  }

  /** One failed accept (while it was the only accept outstanding, as the
      invariant guarantees) ends accepting for the rest of the run. */
  lemma AcceptFailureIsPermanent(r: Reactor, c: Cqe, first: Grant, second: Grant, evs: seq<Event>)
    requires Inv(r) && ValidCqe(r, c)
    requires r.inflight[c.id].PrepAccept? && c.res < 0
    requires ValidRun(Complete(r, c, first, second), evs)
    ensures Disarmed(Run(Complete(r, c, first, second), evs))
  {
    AcceptFailureDisarms(r, c, first, second);
    StepInv(r, c, first, second);
    DisarmedForever(Complete(r, c, first, second), evs);
  }

  /** An open connection with nothing outstanding (a submission that found
      no slot or no memory) stays open and idle whatever completes next:
      it hangs and its descriptor is never closed. */
  lemma {:induction false} StalledForever(r: Reactor, fd: Fd, evs: seq<Event>)
    requires Inv(r) && ValidRun(r, evs)
    requires fd in r.open && Idle(r, fd)
    ensures fd in Run(r, evs).open && Idle(Run(r, evs), fd)
    decreases |evs|
  {
    if |evs| > 0 {
      var c := evs[0].cqe;
      assert ValidCqe(r, c);
      StepKeepsIdle(r, c, evs[0].first, evs[0].second, fd);
      StepInv(r, c, evs[0].first, evs[0].second);
      StalledForever(Complete(r, c, evs[0].first, evs[0].second), fd, evs[1..]);
    }
  }

  /** Close is terminal: a descriptor the server does not hold gets no
      operation, and stays that way, until an accept hands it out again. */
  lemma ClosedStaysQuiet(r: Reactor, c: Cqe, first: Grant, second: Grant, fd: Fd)
    requires Inv(r) && ValidCqe(r, c)
    requires fd !in r.open && fd != r.listener
    requires !(r.inflight[c.id].PrepAccept? && c.res >= 0 && c.res == fd)
    ensures Idle(r, fd)
    ensures fd !in Complete(r, c, first, second).open && Idle(Complete(r, c, first, second), fd)
  {
    forall id | id in r.inflight && !r.inflight[id].PrepAccept?
      ensures r.inflight[id].fd != fd
    {
      assert r.inflight[id].fd in r.open;
    }
    StepKeepsIdle(r, c, first, second, fd);
  }
}
