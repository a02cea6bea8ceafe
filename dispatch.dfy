/** The triage a worker thread applies to each dequeued completion
    (`_ServerFramework::worketThreadProc`): which of the framework's handlers the
    completion goes to, if any. */
module Dispatch {
  import opened Common

  /** `_OPERATION_TYPE`: what an overlapped operation was posted for. */
  datatype OpKind = AcceptPosted | RecvPosted | SendPosted | NullPosted

  /** The completion key: null (the shutdown wake-up), the address of the
      listening socket (accepts), or a client context. */
  datatype Key = NullKey | ListenKey | ClientKey

  /** One result of GetQueuedCompletionStatus: `ok` its return value,
      `lastError` what GetLastError reports when it failed, `key` the completion
      key, `op` the kind of operation behind the overlapped pointer (`None` for a
      null pointer), `bytes` the number of bytes transferred. */
  datatype Completion = Completion(ok: bool, lastError: nat, key: Key, op: Option<OpKind>, bytes: nat)

  /** What the worker does with a completion. */
  datatype Action =
    | Ignore           // continue with the next completion
    | ReplenishAccept  // post a fresh accept in place of the failed one
    | Teardown         // remove the connection
    | StopWorker       // leave the worker loop
    | HandleAccept     // doAccept
    | HandleRecv       // doRecv, tearing down if it reports failure
    | HandleSend       // doSend

  /** ERROR_NETNAME_DELETED: the peer or the system has dropped the connection. */
  const ERROR_NETNAME_DELETED: nat := 64
  /** WAIT_TIMEOUT: the wait for a completion timed out. */
  const WAIT_TIMEOUT: nat := 258

  /** The worker's decision for one completion. A null key or a null overlapped
      pointer is skipped first. A failed completion: ERROR_NETNAME_DELETED
      replenishes the accept when the key is the listening socket and tears the
      connection down otherwise; every other error continues the loop, because
      the overlapped pointer is known to be non-null by then. A successful one
      goes to the handler of its operation; a receive of zero bytes is a
      disconnect. */
  function Classify(c: Completion): (a: Action)
    ensures a != StopWorker
    ensures a == Ignore <==>
      || c.key.NullKey? || c.op.None?
      || (!c.ok && c.lastError != ERROR_NETNAME_DELETED)
      || (c.ok && c.op == Some(NullPosted))
    ensures a == ReplenishAccept <==>
      c.key.ListenKey? && c.op.Some? && !c.ok && c.lastError == ERROR_NETNAME_DELETED
    ensures a == Teardown <==>
      && !c.key.NullKey? && c.op.Some?
      && ((!c.ok && c.lastError == ERROR_NETNAME_DELETED && c.key.ClientKey?)
          || (c.ok && c.op == Some(RecvPosted) && c.bytes == 0))
    ensures a == HandleAccept <==> !c.key.NullKey? && c.ok && c.op == Some(AcceptPosted)
    ensures a == HandleRecv <==> !c.key.NullKey? && c.ok && c.op == Some(RecvPosted) && c.bytes > 0
    ensures a == HandleSend <==> !c.key.NullKey? && c.ok && c.op == Some(SendPosted)
  {
    if c.key.NullKey? then Ignore
    else if c.op.None? then Ignore
    else if !c.ok then
      if c.lastError == ERROR_NETNAME_DELETED then
        if c.key.ListenKey? then ReplenishAccept else Teardown
      else if c.lastError == WAIT_TIMEOUT then Ignore
      else if c.op.Some? then Ignore
      else StopWorker
    else
      match c.op.value
      case AcceptPosted => HandleAccept
      case RecvPosted => if c.bytes == 0 then Teardown else HandleRecv
      case SendPosted => HandleSend
      case NullPosted => Ignore
  }

  /** The wake-up completion that shutdown posts once per worker (null key, no
      bytes, null overlapped pointer) is skipped, whatever GetQueuedCompletionStatus
      returned with it. */
  lemma WakeUpIsIgnored(ok: bool, lastError: nat)
    ensures Classify(Completion(ok, lastError, NullKey, None, 0)) == Ignore
  {
  }
}
