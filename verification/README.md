# TCP echo servers: connection lifecycle model

The repository holds three TCP byte-echo servers. Each one sends back every byte a client sends, in order, until the client goes away:

- a forking server that runs one process per connection (`blocking_server/server.c`);
- an edge-triggered epoll server (`epoll_server/server.c`);
- an io_uring server driven by a completion queue (`io_uring_server/server.c`).

This Dafny project models the connection-lifecycle logic of all three. Each server is a transition system over abstract kernel answers. A read returns data, 0, or -1 with an errno. A write returns a count or -1. An accept returns a descriptor or fails. An io_uring submission gets a slot and memory, or not. No I/O happens. Every kernel answer is an input.

Files and modules:

- `io.dfy`, module `Io`: descriptors, opaque payload bytes (`bv8`), the Linux constants the servers test (`BUFFER_SIZE` 1024, `EAGAIN` = `EWOULDBLOCK` = 11), read and write outcomes, and the trace of calls an echo loop makes. It also holds the reference predicate `EchoShaped`. It says every read asks for `BUFFER_SIZE` bytes, and every read that returned data is immediately followed by a write of exactly that data.
- `uring_server.dfy`, module `UringServer`: the io_uring reactor.
  - `memory` maps the allocation id of every `conn_info` ever allocated to its contents. Ids are never reused.
  - `inflight` maps the id of each context that is still lent to the kernel to the request it carries.
  - `open` is the set of client descriptors the server holds.
  - `add_accept`, `add_read` and `add_write` become `AddAccept`, `AddRead` and `AddWrite`. The completion `switch` together with `io_uring_cqe_seen` and `free` becomes `Complete`.
- `uring_proofs.dfy`, module `UringProofs`: what each kind of completion does, the reactor invariant `Inv`, and the handler's defects, stated as lemmas.
- `epoll_server.dfy`, module `EpollServer`: `setnonblocking` as `bv32` flag arithmetic, `do_echo` as a pure function over turns, the accept-drain loop, and the dispatch of ready events.
- `blocking_server.dfy`, module `BlockingServer`: `handle_connection` as a pure function, and who holds which descriptor around `accept` and `fork`.
- `engines.dfy`, module `Engines`: on the same kernel answers, the forking echo loop and `do_echo` make the same calls.

An echo loop is given a finite sequence of turns. When the turns run out while the C loop would still be running, the function returns `None`.

The io_uring handler's defects are modelled as written, not repaired:

- a failed accept is not re-armed (`AcceptFailureDisarms`, `AcceptFailureIsPermanent`, `DisarmedForever`);
- a short write's unsent tail is dropped: the write completion submits a fresh read (`WriteCompletion`), and no later write ever takes from the buffer that holds the tail (`ShortWriteDropsRest`);
- the write takes its bytes from the buffer of the read context, and that context is freed in the same turn (`WriteReadsFreedBuffer`);
- a submission that finds no free submission slot is silently dropped (`AcceptSuccess`, `ReadDataEchoed`, `WriteCompletion`). A dropped `add_read` or `add_write` leaves its connection open with nothing outstanding, so the connection hangs open for good (`StalledForever`). A dropped `add_accept` after a successful accept leaves no accept outstanding, so the server stops accepting for good, exactly as after a failed accept (`DisarmedForever`). A submission whose `malloc` fails is modelled the same way; "Left out" says what the code leaves behind in that case.

None of these defects is repaired; the model follows the code. The epoll drain loop also ignores short writes (`ShortWriteGoesUnnoticed`).

## Model

| member | source | states |
|---|---|---|
| `UringServer.AddAccept` | io_uring_server/server.c:31-49 | Without a submission slot or without memory, nothing is allocated or submitted. Otherwise exactly one new context, tagged ACCEPT_OP on the listener, is in flight with an accept request. Every other request and allocation, the listener and the open descriptors are as they were. |
| `UringServer.AddRead` | io_uring_server/server.c:51-68 | Without a slot or memory, nothing happens. Otherwise exactly one new READ_OP context for `fd` is in flight, asking for at most BUFFER_SIZE bytes into that context's own buffer. Nothing else changes. |
| `UringServer.AddWrite` | io_uring_server/server.c:70-87 | Without a slot or memory, nothing happens. Otherwise exactly one new WRITE_OP context for `fd` is in flight, asking to write `len` bytes from the buffer of the caller's context, not its own. Nothing else changes. |
| `UringServer.Start` | io_uring_server/server.c:131-132 | Before the loop, the only request in flight is the first accept, if it could be submitted. No client descriptor is open. |
| `UringServer.Complete` | io_uring_server/server.c:135-186 | Every completion frees exactly the context it carried. Every other request in flight is untouched. At most two new contexts are allocated, all with fresh ids, and every context allocated is in flight afterwards. |
| `UringProofs.CompletionAccounting` | io_uring_server/server.c:183-185 | After a completion, the contexts in flight are the old ones minus the completed one plus those just allocated. Allocations and releases balance: one release per completion. |
| `UringProofs.AcceptSuccess` | io_uring_server/server.c:145-157 | An accept with res >= 0 opens descriptor `res`. It first re-submits an accept on the listener, then a BUFFER_SIZE read on `res`; the accept gets the earlier allocation. One new request is in flight per granted submission and nothing else. If the re-arm gets no slot or memory, no accept is outstanding afterwards. If the read gets none, `res` stays open with nothing outstanding. |
| `UringProofs.AcceptFailureDisarms` | io_uring_server/server.c:146-149 | An accept with res < 0 submits nothing and only frees its context. Afterwards no accept is outstanding. |
| `UringProofs.AcceptFailureIsPermanent` | io_uring_server/server.c:146-149 | After one failed accept, no accept is ever outstanding again, whatever completes later. |
| `UringProofs.DisarmedForever` | io_uring_server/server.c:150-154 | Only an accept completion submits an accept. Once none is outstanding, none ever is again. |
| `UringProofs.ReadDataEchoed` | io_uring_server/server.c:166-169 | A read with res > 0 submits a write on the same descriptor of exactly `res` bytes. The write takes its bytes from the completed read context's buffer, which holds the received data and is freed in the same turn. If the submission fails, the connection stays open with nothing outstanding. |
| `UringProofs.ReadEndCloses` | io_uring_server/server.c:161-165 | A read with res <= 0 closes its descriptor. The descriptor was open, so it is never closed twice. Nothing more is submitted for it. |
| `UringProofs.WriteCompletion` | io_uring_server/server.c:172-180 | A write with res < 0 closes the open descriptor. A write with any res >= 0, full or short, keeps the descriptor open. It submits exactly one new read on that descriptor. If no slot or memory is available, it submits nothing, and the descriptor has nothing outstanding. |
| `UringProofs.ShortWriteDropsRest` | io_uring_server/server.c:172-184 | A write that sent fewer bytes than asked leaves a non-empty tail of its source buffer unsent. Afterwards no write is outstanding on its descriptor. No write in flight takes from that buffer, then or after any later sequence of completions, so the tail is never sent. |
| `UringProofs.WriteReadsFreedBuffer` | io_uring_server/server.c:168 | Every write in flight reads from a context that is no longer live. That context's buffer holds at least the bytes to be written. |
| `UringProofs.StartInv` | io_uring_server/server.c:131-132 | The reactor invariant holds before the first completion. |
| `UringProofs.StepInv` | io_uring_server/server.c:135-186 | Every completion the kernel can deliver preserves the invariant: at most one accept outstanding; at most one operation per connection; context tags agree with their requests; operations only on open descriptors; write sources are freed read buffers of the same descriptor. |
| `UringProofs.RunInv` | io_uring_server/server.c:135-186 | The invariant holds after any sequence of completions. |
| `UringProofs.StalledForever` | io_uring_server/server.c:51-53 | An open connection with nothing outstanding, left by a dropped submission, stays open and idle whatever completes later. |
| `UringProofs.ClosedStaysQuiet` | io_uring_server/server.c:161-176 | Close is terminal. A descriptor the server does not hold has no operation, and gets none, until an accept returns it again. |
| `EpollServer.SetNonBlocking` | epoll_server/server.c:16-27 | The flags handed to F_SETFL contain O_NONBLOCK and keep every other bit F_GETFL returned. If F_GETFL fails, they are O_NONBLOCK alone. The result is -1 exactly when F_SETFL fails, and 0 otherwise. |
| `EpollServer.DoEcho` | epoll_server/server.c:30-62 | The drain ends exactly when some turn does not continue, and returns 0 or -1. It returns 0 exactly when its last call is a read that failed with EAGAIN/EWOULDBLOCK. Its calls follow the echo discipline, and the bytes it asks to write equal the bytes it read. |
| `EpollServer.DoEchoStopsAtFirstStop` | epoll_server/server.c:33-61 | The drain stops at the first turn that does not continue: a failed write, a read of 0, or a failed read. It makes exactly the calls of the turns up to that one. It returns 0 when that read would block, and -1 in every other case. |
| `EpollServer.DrainEchoesWhenWritesComplete` | epoll_server/server.c:37-45 | When every write completes, the bytes sent back equal the bytes read, in order. |
| `EpollServer.ShortWriteGoesUnnoticed` | epoll_server/server.c:41-45 | A short write still lets the drain return 0, although fewer bytes went back than were read. |
| `EpollServer.AcceptDrain` | epoll_server/server.c:133-159 | The accept loop stops at the first accept that returns -1, whatever the errno. Each earlier new descriptor is registered exactly when it could be made non-blocking and added to epoll. Otherwise it is closed. |
| `EpollServer.OnReady` | epoll_server/server.c:128-171 | A listener event only adds descriptors. A client event changes nothing except possibly removing that client from the watched set and the open set. |
| `EpollServer.ClientEventOutcome` | epoll_server/server.c:160-169 | On EPOLLIN, the client is removed from epoll and closed exactly when do_echo returns < 0, that is, when its drain did not end on a read that would block. Otherwise the state is unchanged. |
| `EpollServer.EventWithoutReadIgnored` | epoll_server/server.c:162 | A client event without EPOLLIN changes nothing. |
| `EpollServer.ListenerEventOutcome` | epoll_server/server.c:131-159 | After the accept loop, a descriptor is watched exactly when it was watched before or the loop registered it. A fresh descriptor whose setup failed is neither watched nor open. |
| `EpollServer.OnReadyKeepsInv` | epoll_server/server.c:128-171 | Handling one event keeps the listener watched and keeps the watched set equal to the open set. |
| `EpollServer.OnReadyAllKeepsInv` | epoll_server/server.c:128-171 | The same holds after handling every event one epoll_wait returned. |
| `BlockingServer.EchoLoop` | blocking_server/server.c:25-32 | The loop continues only while the read returns > 0 and the write does not fail. It writes back exactly the bytes just read, and its last call is the failed write or the read that ended it. |
| `BlockingServer.HandleConnection` | blocking_server/server.c:21-43 | On every exit path, the client socket is closed exactly once, right before exit(EXIT_SUCCESS). The report is "peer closed" exactly when the last read returned 0, "read error" exactly when it failed, and nothing after a failed write. |
| `BlockingServer.SessionReleasesClient` | blocking_server/server.c:40-42 | A session closes only its own client, and the child holds nothing when it exits. |
| `BlockingServer.AcceptAndFork` | blocking_server/server.c:92-125 | An accept failure, EINTR or otherwise, changes nothing and loops back. After a fork, the parent (and also the parent whose fork failed) closes the client and keeps its descriptors. A child exists exactly when accept and fork both succeed: it inherits the client and closes the listener first. |
| `BlockingServer.ChildOwnsOnlyItsClient` | blocking_server/server.c:106-113 | The child holds only its client socket when it starts echoing. It closes the listener before any read or write and never again. Of the listener and client that fork hands it, it holds neither when it exits. |
| `BlockingServer.ParentKeepsOnlyListener` | blocking_server/server.c:92-125 | Whatever arrives, the parent holds the listener and nothing else, and every child holds exactly its own client. |
| `Io.TurnsEcho` | blocking_server/server.c:26-28 | Any run of read-then-echo turns follows the echo discipline, and asks to write back exactly the bytes it read, in order. |
| `Engines.EchoLoopsAgree` | blocking_server/server.c:26-32 | On the same kernel answers, the forking echo loop and epoll's do_echo end together and make identical calls. |
| `Engines.SessionExtendsDrain` | blocking_server/server.c:34-42 | A child's session is do_echo's calls followed by close and exit. A drain that returned 0 is a read error for the child. Every other child report corresponds to a drain that returned -1. |

## Left out

- Listening-socket setup (`socket`, `setsockopt`, `bind`, `listen`, `setup_listening_socket`) and `io_uring_queue_init` and `epoll_create1`: OS plumbing whose failures only exit the process.
- liburing internals: `io_uring_get_sqe` running dry and `malloc` failing are both one input, `Grant`. `QUEUE_DEPTH` is therefore not modelled. `io_uring_submit` and `io_uring_cqe_seen` have no state beyond "in flight" and "freed".
- The return value of `io_uring_wait_cqe` is ignored by the code and not modelled. Completions are an input, and `ValidCqe` states what the kernel guarantees about them. The proofs assume every completion meets that guarantee. A completion for a request that was never submitted, or a read reporting more bytes than it asked for, is outside the model.
- A `malloc` failure after `io_uring_get_sqe` succeeded (`NoMemory`) is modelled as a dropped submission, like "no slot". In the code the ring entry stays taken. In `add_accept` it is already prepared as an accept but gets no fresh user data. In `add_read` and `add_write` it is not prepared at all. The next `io_uring_submit` sends that entry with whatever the slot last held, stale user data included. The model does not represent that stray entry or its completion.
- Allocator address reuse: context ids are never reused. That a freed read buffer can be handed out again while the write that reads it is in flight is stated only as "the write's source context is not live".
- The read buffer is modelled by the bytes a read placed in it; the stale bytes past them are not modelled. The never-written `size` field of `conn_info` is not modelled.
- Kernel completion ordering, epoll readiness rules, and scheduling: the order of completions, events and arrivals is an input.
- `epoll_wait` failure handling (retry on EINTR, exit otherwise) and the `MAX_EVENTS` batching limit: `OnReadyAll` takes whatever entries one wait returned.
- Registration flags: `EpollServer.OnReady` records which descriptors are watched, not their `EPOLLIN | EPOLLET` mask. It also does not model the result of `EPOLL_CTL_DEL`, which the code ignores.
- `sigchld_handler`, `waitpid` and `getpid`: signal and process-table behaviour. `fork` is reduced to the split of descriptor ownership between parent and child.
- Logging (`printf`, `perror`, `fprintf`, `strerror`): it carries no state. The forking child's report stands for which message it prints.
- Payload contents: bytes are opaque `bv8` values and are never interpreted.
- Loops that the C code runs forever are modelled over finite sequences of kernel answers. A result of `None` means the answers ran out while the loop was still running.
