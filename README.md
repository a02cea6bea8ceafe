# IOCP server framework: connection buffering, socket pool, registry, dispatch

A Dafny model of the core of a completion-port TCP server engine. Worker
threads take completions from a shared completion queue and route each one to
the accept, receive or send handling of the framework object. This model covers
that object's per-connection byte buffering and the two bookkeeping
collections around it:

- **Receive reassembly cache** (`doRecv`). The application callback is offered
  the bytes of each receive completion, preceded by whatever it left unconsumed
  last time, and reports how many it consumed. The rest stays cached. A cache
  that would grow past `RECV_CACHE_LIMIT_SIZE` by appending aborts the
  connection.
- **Outbound chunking and queue** (`postSend`, `doSend`). At most one fixed I/O
  buffer (`OVERLAPPED_BUF_SIZE`) is handed to WSASend per step. The active
  remainder (`_sendCache`) drains one buffer per send completion. Payloads posted
  while it is non-empty wait whole in a FIFO queue (`_sendQueue`).
- **Socket pool and connection registry**. Torn-down connections' sockets are
  kept on a stack for reuse by the next accept. The live connections are kept in
  a list together with their count.
- **Dispatch triage** of the worker loop: which handler a completion goes to.

Modules, one per component:

- `common.dfy`: bytes, `Option`, the two size constants, `Flatten`.
- `recv_cache.dfy`: the receive cache as pure functions, runs of completions,
  and the code of the partial-consume branch as written.
- `send_queue.dfy`: the send path as pure functions and the FIFO property of
  any interleaving of posts and completions.
- `connection.dfy`: class `Connection` (`_ClientContext`). Its methods update
  the cache, the active remainder and the queue in place. They are proved
  against the functions above. Ghost logs record the bytes handed to WSASend
  (`wire`), the bytes posted, received and consumed, and the callback's offers.
- `dispatch.dfy`: the completion classifier.
- `server.dfy`: class `ServerFramework` with the pool, the registry and its
  count. It holds `PostAccept`, `DoAccept`, `RemoveConnection` and one pass of
  the worker loop (`HandleCompletion`).

The two size constants are defined in a header that is not part of this model.
They are declared positive and otherwise left unspecified, so every property
holds for all positive values.

Calls into the system are parameters: WSARecv, WSASend, AcceptEx, `socket()`,
the allocation of a context, CreateIoCompletionPort and the peer address. Each
stands for the outcome it reports. WSASend is modelled as appending the chunk to
the ghost `wire`, whatever it returns. Its result only decides what `postSend`
reports.

Where the code does not do what it evidently intends, the model still follows
the code. The exceptions are the two defects under "## Findings". There `Connection.DoRecv`
and `Connection.PostSend` follow the corrected behaviour, and the code as
written is modelled beside them:

- A failed completion with an unrecognised error continues the loop. At that
  point the overlapped pointer is already known to be non-null (line 187 skipped
  null ones), so the test at line 209 always continues. The `break` that would
  stop the worker can never run: `Dispatch.Classify` never returns `StopWorker`.
  Connections whose completions fail with such errors are neither torn down nor
  re-armed.
- The cache limit is checked only when appending to a non-empty cache. An empty
  cache can take up to one receive buffer of unconsumed bytes whatever the limit.
  So the bound kept is the larger of the limit and the buffer size.
- The callback may report more bytes consumed than it was offered. The code
  treats that as "all consumed", and so does the model.

## Model

| member | source | states |
|---|---|---|
| `RecvCache.Offer` | server-framework/libiocp/src/iocp/ServerFrameworkImpl.cpp:423-442 | nothing is offered exactly when a non-empty cache plus the new bytes would pass the limit; otherwise the offer is the old cache followed by the new bytes |
| `RecvCache.Unconsumed` | server-framework/libiocp/src/iocp/ServerFrameworkImpl.cpp:426-452 | the consumed prefix followed by what is kept is the offered data; consuming nothing keeps all of it |
| `RecvCache.Receive` | server-framework/libiocp/src/iocp/ServerFrameworkImpl.cpp:415-459 | one completion either overflows (exactly under the limit condition) or offers cache ++ buf, drops min(consumed, size) bytes from the front and keeps the rest |
| `RecvCache.ReceiveBounded` | server-framework/libiocp/src/iocp/ServerFrameworkImpl.cpp:423-440 | with a receive of at most one I/O buffer, the cache stays within the larger of the cache limit and the buffer size |
| `RecvCache.ReceiveAll` | server-framework/libiocp/src/iocp/ServerFrameworkImpl.cpp:415-459 | a run of completions never handles more completions than it is given; it stops early only at a real overflow: the cache it stops with is non-empty and, with the next completion's bytes appended, would pass the limit |
| `RecvCache.ReassemblyLossless` | server-framework/libiocp/src/iocp/ServerFrameworkImpl.cpp:415-459 | over any run of completions, the consumed bytes followed by the final cache equal the initial cache followed by all received bytes up to the overflow, in order: no gap, no reordering, no duplication |
| `RecvCache.FullConsumptionKeepsCacheEmpty` | server-framework/libiocp/src/iocp/ServerFrameworkImpl.cpp:423-431 | a callback that always consumes everything keeps the cache empty, never overflows and consumes every byte in order |
| `RecvCache.ZeroConsumptionAccumulates` | server-framework/libiocp/src/iocp/ServerFrameworkImpl.cpp:423-447 | a callback that never consumes leaves the whole received stream cached, up to the overflow |
| `RecvCache.ZeroConsumptionOverflows` | server-framework/libiocp/src/iocp/ServerFrameworkImpl.cpp:435-439 | with something cached and a callback that never consumes, more non-empty completions than the limit leaves room for certainly end in an overflow |
| `RecvCache.RecordScenario` | server-framework/libiocp/src/iocp/ServerFrameworkImpl.cpp:423-446 | 3 then 5 bytes with a four-byte-record callback: 3 bytes are cached, then all 8 are offered and consumed and the cache is empty |
| `RecvCache.AsWrittenPartialCache` | server-framework/libiocp/src/iocp/ServerFrameworkImpl.cpp:447-452 | the code's partial-consume branch yields data[consumed..len), and the size_t remainder wraps around exactly when consumed > len |
| `RecvCache.AsWrittenPartialCacheIsWrong` | server-framework/libiocp/src/iocp/ServerFrameworkImpl.cpp:447-452 | on every input that reaches that branch, the code's cache differs from the unconsumed suffix |
| `RecvCache.AsWrittenDropsByte` | server-framework/libiocp/src/iocp/ServerFrameworkImpl.cpp:449-451 | cache [1], new [2,3], consumed 1: the code keeps [2] where [2,3] is due |
| `RecvCache.AsWrittenUnderflows` | server-framework/libiocp/src/iocp/ServerFrameworkImpl.cpp:449-451 | cache [1,2,3], new [4], consumed 2: the remainder length wraps around where [3,4] is due |
| `SendQueue.PostSend` | server-framework/libiocp/src/iocp/ServerFrameworkImpl.cpp:546-589 | while active, nothing is handed out and the active remainder is kept; a non-empty payload is appended whole to the back of the queue; while idle, the first min(len, buffer) bytes are handed out, the rest becomes the active remainder and the queue is kept; order is kept (handed ++ pending == pending before ++ payload) and so is the invariant that payloads queue only behind an active one |
| `SendQueue.PostResultOf` | server-framework/libiocp/src/iocp/ServerFrameworkImpl.cpp:548-589 | CACHED exactly while a transmission is active; FAIL exactly when idle and WSASend failed |
| `SendQueue.DoSend` | server-framework/libiocp/src/iocp/ServerFrameworkImpl.cpp:461-505 | nothing changes when nothing is active; otherwise exactly the first min(remainder, buffer) bytes are handed out. A remainder that fits goes out whole, and the oldest queued payload becomes active whole (or nothing is active when the queue is empty). A longer remainder keeps everything past the first buffer. handed ++ pending after == pending before; the queueing invariant is kept |
| `SendQueue.DrainDeliversAll` | server-framework/libiocp/src/iocp/ServerFrameworkImpl.cpp:461-505 | successive send completions hand every pending byte to WSASend, in order |
| `SendQueue.LargePayloadInChunks` | server-framework/libiocp/src/iocp/ServerFrameworkImpl.cpp:575-589 | a payload longer than one buffer posted while idle: the first buffer goes out at once, the rest is retained, the next completion hands out the next buffer-size chunk, and the following completions hand out the rest in order |
| `SendQueue.ReplayIsFifo` | server-framework/libiocp/src/iocp/ServerFrameworkImpl.cpp:461-589 | for any interleaving of posts and send completions, the bytes handed to WSASend followed by those pending are the posted bytes in call order |
| `SendQueue.PostSendAsWritten` | server-framework/libiocp/src/iocp/ServerFrameworkImpl.cpp:548-555 | the code queues every payload posted while active, the empty one included, and otherwise behaves like `PostSend` |
| `SendQueue.AsWrittenEmptyPayloadReorders` | server-framework/libiocp/src/iocp/ServerFrameworkImpl.cpp:484-494 | with the code as written, posting [] then [3] while [1] is active, a completion, then posting [4] puts [1,4] on the wire and leaves [3] queued behind an empty active buffer for good |
| `Connections.Connection.constructor` | server-framework/libiocp/src/iocp/ServerFrameworkImpl.cpp:393-397 | a new connection holds its socket and peer address, has empty buffers and satisfies the invariant |
| `Connections.Connection.DoRecv` | server-framework/libiocp/src/iocp/ServerFrameworkImpl.cpp:415-459 | the new cache and result follow `RecvCache.Receive`. On overflow: cache unchanged, no callback, no receive posted, result false. Otherwise: one offer logged, one receive posted, result = WSARecv outcome. Consumed ++ cache == received is kept; doRecv's own code leaves the send side untouched |
| `Connections.Connection.PostRecv` | server-framework/libiocp/src/iocp/ServerFrameworkImpl.cpp:529-544 | one receive is posted; the result is WSARecv's outcome |
| `Connections.Connection.PostSend` | server-framework/libiocp/src/iocp/ServerFrameworkImpl.cpp:546-590 | the send state and the wire follow `SendQueue.PostSend`, the result follows `PostResultOf`; wire ++ pending == posted is kept; the receive side is untouched |
| `Connections.Connection.DoSend` | server-framework/libiocp/src/iocp/ServerFrameworkImpl.cpp:461-506 | the send state and the wire follow `SendQueue.DoSend`; wire ++ pending == posted is kept; the receive side is untouched |
| `Dispatch.Classify` | server-framework/libiocp/src/iocp/ServerFrameworkImpl.cpp:183-231 | ignore exactly for a null key, a null overlapped pointer, a failure other than ERROR_NETNAME_DELETED, or a NULL_POSTED success. On ERROR_NETNAME_DELETED: replenish the accept for the listening key, tear down for a client key. Teardown also for a zero-byte receive. Each successful operation goes to its handler; the worker is never stopped |
| `Dispatch.WakeUpIsIgnored` | server-framework/libiocp/src/iocp/ServerFrameworkImpl.cpp:183-184 | the shutdown wake-up completion is skipped |
| `Server.TakeSocket` | server-framework/libiocp/src/iocp/ServerFrameworkImpl.cpp:313-324 | from a non-empty pool the last socket is taken and the pool shrinks by exactly it; from an empty pool the newly created socket is used |
| `Server.RecycledSocketReusedFirst` | server-framework/libiocp/src/iocp/ServerFrameworkImpl.cpp:168-172 | the socket pushed by a teardown is the next one taken, and the pool is back to what it was |
| `Server.ServerFramework.constructor` | server-framework/libiocp/src/iocp/ServerFrameworkImpl.cpp:112 | empty pool and registry, count 0 |
| `Server.ServerFramework.PostAccept` | server-framework/libiocp/src/iocp/ServerFrameworkImpl.cpp:309-351 | the pool becomes `TakeSocket`'s; the accept is armed with that socket unless it is invalid; the result is false for an invalid socket or a failed AcceptEx |
| `Server.ServerFramework.DoAccept` | server-framework/libiocp/src/iocp/ServerFrameworkImpl.cpp:353-413 | on allocation a fresh connection with the accepted socket and peer goes to the front, the count grows by one and the first receive is posted if the port association succeeded; otherwise the socket returns to the pool; then the accept is re-armed as in `PostAccept`: with the socket `TakeSocket` yields, or, when that is invalid, leaving the accept operation as it was; the registry invariant (count, every registered connection's own invariant) is kept |
| `Server.ServerFramework.RemoveConnection` | server-framework/libiocp/src/iocp/ServerFrameworkImpl.cpp:154-173 | the disconnect is recorded; exactly that entry is erased (others keep their order); the count drops by one; its socket is pushed onto the pool and cleared in the context; every accepted connection stays either live or disconnected, none is disconnected twice, and the remaining connections keep their invariants |
| `Server.ServerFramework.HandleCompletion` | server-framework/libiocp/src/iocp/ServerFrameworkImpl.cpp:179-232 | runs the handler `Classify` selects and carries its whole postcondition through. Ignore: nothing changes. Teardown: as `RemoveConnection` (entry erased, count down, socket pushed onto the pool and cleared). Replenish: the pool and the accept follow `TakeSocket`, and the accept operation is left as it was when no valid socket is had; the registry is unchanged. Accept: as `DoAccept` (fresh connection at the front or socket recycled, then the re-arm as in Replenish). Teardown, receive and send leave the accept operation untouched. Receive: the connection's cache and logs follow `RecvCache.Receive`, its send side and wire are unchanged; it stays registered, with pool and registry unchanged, exactly when the cache did not overflow and the next receive was posted; otherwise it is removed as in a teardown. Send: the send state and wire follow `SendQueue.DoSend`, the receive side, the socket, the registry and the pool are unchanged |

## Left out

- Winsock and completion-port calls (WSAStartup, WSASocket, bind, listen,
  CreateIoCompletionPort, GetQueuedCompletionStatus, PostQueuedCompletionStatus,
  WSASend, WSARecv, AcceptEx, DisconnectEx, GetAcceptExSockAddrs, inet_ntoa) and
  the extension-function lookup in `getFunctionPointers`. These are system I/O;
  each becomes a parameter for its outcome or a ghost log.
- `startup`, `beginAccept`, `shutdown` and the destructors. These are resource
  setup and release. So the model does not count the ten outstanding accepts
  that `beginAccept` posts. It only shows that `doAccept` re-arms the accept it
  completed.
- The worker loop itself (`while (!_shouldQuit)` around GetQueuedCompletionStatus).
  Only one pass is modelled, as `HandleCompletion`. The loop's progress depends
  on the completion port and on shutdown.
- Threads and locks: the worker thread pool, the thread joins, and every
  critical section. Each operation is modelled as one atomic step. So the model
  does not capture races, e.g. `postSend` reusing the one send I/O buffer while
  an earlier send with an empty remainder is still in flight.
- Raw memory layout: the client socket stored inside the accept buffer (the
  model keeps it as a field of `IoData`), the listen-socket-address completion
  key (modelled as `Key.ListenKey`) and the `memset` of OVERLAPPED structures.
- The `_iterator` each context keeps into `_clientList`. `RemoveConnection`
  finds the entry by its position (`IndexOf`) instead. With no duplicates in the
  registry, that is the same entry.
- Connections.Connection.DoRecv: the application callback is a pure function of
  the offered bytes. The source passes it the context, so it could post sends
  (an echo reply) or otherwise act on the connection during doRecv, and it could
  keep state across calls. The model does not capture either. So the send-side
  frame of `DoRecv` is about doRecv's own code only. `RecvCache.ReceiveAll` and
  its lemmas assume one stateless callback for the whole run. `Connection.Valid`
  still covers each step for any count the callback returns.
- Connections.Connection.DoRecv: requires at most one I/O buffer of new bytes.
  The receive was posted with a buffer of that size.
- Server.ServerFramework.HandleCompletion: requires that a client key comes with
  a registered context, and that only accept operations carry the
  listening key. This is how the code associates sockets with the port. A
  completion for an already torn-down context is undefined behaviour in the
  source and is not modelled. That case is reachable: a connection always has a
  receive outstanding, and a send may be in flight too. When the peer resets,
  both can complete with ERROR_NETNAME_DELETED, and lines 192-204 then run
  `removeExceptionalConnection` twice on the same context. The second run uses
  a deleted object: it reports the disconnect again, erases a stale list
  position, decrements the count again and recycles the socket twice. So the
  exactly-once disconnect bookkeeping (`NoDuplicates(disconnected)` in
  `ServerFramework.Valid`) and the count invariant hold only under this
  precondition.
- A socket taken for an accept whose AcceptEx fails is neither closed nor
  returned to the pool. The model reproduces this: the socket simply leaves the
  pool.
- `lightweight-3rdparty/msgpack/msgpack/adaptor/fixint.hpp` is not part of this
  model. It is an unrelated serialization adaptor.

## Findings

| source | as written | input that shows it | evidently intended | confidence | as-written member | corrected member |
|---|---|---|---|---|---|---|
| server-framework/libiocp/src/iocp/ServerFrameworkImpl.cpp:449 | the remainder after a partial consume of a non-empty cache is `len - bytesProcessed`, with `len` the length of the new bytes only | cache [1], new [2,3], callback consumes 1: the cache becomes [2] and byte 3 is lost; cache [1,2,3], new [4], consumes 2: `1 - 2` wraps around in size_t | the remainder is `_recvCache.size() - bytesProcessed`, so the cache keeps the whole unconsumed suffix | not executed; high: the code is wrong on every input that takes this branch | `RecvCache.AsWrittenPartialCache`, `RecvCache.AsWrittenPartialCacheIsWrong`, `RecvCache.AsWrittenDropsByte`, `RecvCache.AsWrittenUnderflows` | `RecvCache.Unconsumed`, used by `RecvCache.Receive` and `Connections.Connection.DoRecv`; `RecvCache.ReassemblyLossless` |
| server-framework/libiocp/src/iocp/ServerFrameworkImpl.cpp:548-555 | `postSend` queues a payload while a transmission is active even when it is empty | send [1] as the active remainder, then post [], post [3], one send completion, post [4]: the wire carries [1,4], and [3] stays queued behind an empty active buffer, which no completion moves on | payloads leave in call order and none is stranded. An empty payload, which has nothing to send, is not queued | not executed; medium: it needs a caller to post an empty payload while a send is active | `SendQueue.PostSendAsWritten`, `SendQueue.AsWrittenEmptyPayloadReorders` | `SendQueue.PostSend`, used by `Connections.Connection.PostSend`; `SendQueue.ReplayIsFifo` |
