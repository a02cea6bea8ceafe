/** The framework object `_ServerFramework`: the pool of recycled client
    sockets, the registry of live connections with its count, the accept path
    (`postAccept`, `doAccept`), connection teardown
    (`removeExceptionalConnection`) and the body of the worker loop. Every
    operation runs as one atomic step; the locks that make it so in the source
    are not modelled. */
module Server {
  import opened Common
  import RecvCache
  import SendQueue
  import opened Connections
  import opened Dispatch

  /** `_PER_IO_OPERATION_DATA` of a pending accept: the operation kind, and the
      client socket the accept was posted with (stored in its buffer). */
  class IoData {
    var kind: OpKind
    var acceptSocket: SocketHandle
  }

  /** What the system answers during one accept completion: whether the new
      context could be allocated, the peer address, whether the client socket
      could be associated with the completion port, whether the first receive
      was accepted, and, for the follow-up accept, the socket `socket()` would
      create and whether AcceptEx was accepted. */
  datatype AcceptOutcomes = AcceptOutcomes(
    contextAllocated: bool, peerIp: string, peerPort: nat, associated: bool,
    wsaRecvOk: bool, createdSocket: SocketHandle, acceptExOk: bool)

  /** The socket `postAccept` posts an accept with, and the pool it leaves: the
      most recently recycled socket when there is one (the pool is a stack),
      else the one `socket()` creates. */
  function TakeSocket(pool: seq<SocketHandle>, created: SocketHandle): (r: (SocketHandle, seq<SocketHandle>))
    ensures pool != [] ==> r.1 + [r.0] == pool
    ensures pool == [] ==> r.0 == created && r.1 == []
  {
    if pool == [] then (created, []) else (pool[|pool| - 1], pool[..|pool| - 1])
  }

  /** The pool is last in, first out: a socket recycled by a teardown is the
      next one an accept is posted with, and the pool is as it was before. */
  lemma RecycledSocketReusedFirst(pool: seq<SocketHandle>, s: SocketHandle, created: SocketHandle)
    ensures TakeSocket(pool + [s], created) == (s, pool)
  {
    assert (pool + [s])[..|pool|] == pool;
  }

  class ServerFramework {
    /** `_freeSocketPool`: sockets of torn-down connections, most recent last. */
    var freeSocketPool: seq<SocketHandle>
    /** `_clientList`: the live connections, newest first. */
    var clientList: seq<Connection>
    /** `_clientCount`. */
    var clientCount: nat

    /** Every connection ever accepted. */
    ghost var accepted: seq<Connection>
    /** The connections the disconnect callback was called for, in order. */
    ghost var disconnected: seq<Connection>

    /** The count matches the registry; every registered connection keeps its
        own invariant; each accepted connection is either registered or has been
        reported disconnected, never both, and none twice. */
    ghost predicate Valid()
      reads this, clientList
    {
      && clientCount == |clientList|
      && (forall c :: c in clientList ==> c.Valid())
      && NoDuplicates(clientList)
      && NoDuplicates(disconnected)
      && (forall c :: c in clientList ==> c !in disconnected)
      && (forall c :: c in accepted ==> c in clientList || c in disconnected)
      && (forall c :: c in clientList ==> c in accepted)
      && (forall c :: c in disconnected ==> c in accepted)
    }

    constructor ()
      ensures Valid()
      ensures freeSocketPool == [] && clientList == [] && clientCount == 0
      ensures accepted == [] && disconnected == []
    {
      freeSocketPool, clientList, clientCount := [], [], 0;
      accepted, disconnected := [], [];
    }

    /** `postAccept`: takes a socket (recycled, else newly created) and posts an
        accept on the listening socket with it. Fails when no socket could be
        had, or when AcceptEx failed with anything but "pending". */
    method PostAccept(ioData: IoData, createdSocket: SocketHandle, acceptExOk: bool) returns (ok: bool)
      modifies this`freeSocketPool, ioData
      ensures var (s, pool) := TakeSocket(old(freeSocketPool), createdSocket);
        && freeSocketPool == pool
        && ok == (s != InvalidSocket && acceptExOk)
        && (s != InvalidSocket ==> ioData.kind == AcceptPosted && ioData.acceptSocket == s)
        && (s == InvalidSocket ==> ioData.kind == old(ioData.kind) && ioData.acceptSocket == old(ioData.acceptSocket))
    {
      var clientSocket: SocketHandle;
      if freeSocketPool == [] {
        clientSocket := createdSocket;
      } else {
        clientSocket := freeSocketPool[|freeSocketPool| - 1];
        freeSocketPool := freeSocketPool[..|freeSocketPool| - 1];
      }
      if clientSocket == InvalidSocket {
        return false;
      }
      ioData.kind := AcceptPosted;
      ioData.acceptSocket := clientSocket;
      ok := acceptExOk;
    }

    /** `doAccept`: an accept completed on `ioData`. A new connection for its
        socket is put at the front of the registry and counted, and its first
        receive is posted if the socket could be associated with the completion
        port; if no context could be allocated, the socket goes back to the pool.
        Either way `ioData` is reused at once for the next accept. */
    method DoAccept(ioData: IoData, os: AcceptOutcomes) returns (ok: bool, ctx: Connection?)
      requires Valid()
      modifies this, ioData
      ensures Valid()
      ensures os.contextAllocated ==>
        && ctx != null && fresh(ctx) && ctx.Valid()
        && ctx.socket == old(ioData.acceptSocket) && ctx.ip == os.peerIp && ctx.port == os.peerPort
        && ctx.recvCache == [] && ctx.Outbound() == SendQueue.Idle
        && ctx.recvPosts == (if os.associated then 1 else 0)
        && clientList == [ctx] + old(clientList) && clientCount == old(clientCount) + 1
        && accepted == old(accepted) + [ctx]
      ensures !os.contextAllocated ==>
        && ctx == null
        && clientList == old(clientList) && clientCount == old(clientCount) && accepted == old(accepted)
      ensures disconnected == old(disconnected)
      ensures var returned := if os.contextAllocated then [] else [old(ioData.acceptSocket)];
        var (s, pool) := TakeSocket(old(freeSocketPool) + returned, os.createdSocket);
        && freeSocketPool == pool
        && ok == (s != InvalidSocket && os.acceptExOk)
        && (s != InvalidSocket ==> ioData.kind == AcceptPosted && ioData.acceptSocket == s)
        && (s == InvalidSocket ==> ioData.kind == old(ioData.kind) && ioData.acceptSocket == old(ioData.acceptSocket))
    {
      var clientSocket := ioData.acceptSocket;
      ctx := null;
      if !os.contextAllocated {
        // Recycle the socket.
        freeSocketPool := freeSocketPool + [clientSocket];
      } else {
        ctx := new Connection(clientSocket, os.peerIp, os.peerPort);
        if os.associated {
          var _ := ctx.PostRecv(os.wsaRecvOk);
        }
        Register(ctx);
      }
      ok := PostAccept(ioData, os.createdSocket, os.acceptExOk);
    }

    /** Puts a new connection at the front of the registry and counts it. */
    method Register(ctx: Connection)
      requires Valid() && ctx.Valid() && ctx !in accepted
      modifies this`clientList, this`clientCount, this`accepted
      ensures Valid()
      ensures clientList == [ctx] + old(clientList) && clientCount == old(clientCount) + 1
      ensures accepted == old(accepted) + [ctx]
    {
      clientList := [ctx] + clientList;
      clientCount := clientCount + 1;
      accepted := accepted + [ctx];
    }

    /** `removeExceptionalConnection`: the disconnect callback is told first,
        then exactly this connection leaves the registry, the count drops by
        one, and its socket is recycled onto the pool. */
    method RemoveConnection(ctx: Connection)
      requires Valid()
      requires ctx in clientList
      modifies this, ctx`socket
      ensures Valid()
      ensures disconnected == old(disconnected) + [ctx]
      ensures clientList == RemoveAt(old(clientList), IndexOf(old(clientList), ctx))
      ensures ctx !in clientList
      ensures clientCount == old(clientCount) - 1
      ensures freeSocketPool == old(freeSocketPool) + [old(ctx.socket)]
      ensures ctx.socket == InvalidSocket
      ensures accepted == old(accepted)
    {
      disconnected := disconnected + [ctx];
      var s := ctx.socket;
      ctx.socket := InvalidSocket;
      var i := IndexOf(clientList, ctx);
      RemoveAtMembers(clientList, i);
      clientList := RemoveAt(clientList, i);
      clientCount := clientCount - 1;
      freeSocketPool := freeSocketPool + [s];
    }

    /** One pass of the worker loop: classify the completion and run the
        handler it selects. `ctx` is the client context behind a client key,
        `acceptOp` the accept operation behind an accept completion, `data` the
        bytes a receive completion transferred, `onReceive` the application
        callback. */
    method HandleCompletion(c: Completion, ctx: Connection?, acceptOp: IoData?, data: seq<byte>,
                            onReceive: seq<byte> -> nat, wsaRecvOk: bool, os: AcceptOutcomes)
      returns (action: Action)
      requires Valid()
      requires c.key.ClientKey? ==> ctx != null && ctx in clientList
      requires !c.key.NullKey? && c.op.Some? ==> (c.key.ListenKey? <==> c.op.value == AcceptPosted)
      requires c.key.ListenKey? && c.op.Some? ==> acceptOp != null
      requires c.bytes == |data| <= OverlappedBufSize
      modifies this, ctx, acceptOp
      ensures Valid()
      ensures action == Classify(c)
      ensures action == Ignore ==>
        unchanged(this) && (ctx != null ==> unchanged(ctx)) && (acceptOp != null ==> unchanged(acceptOp))
      ensures action == Teardown ==>
        && ctx != null && disconnected == old(disconnected) + [ctx] && accepted == old(accepted)
        && clientList == RemoveAt(old(clientList), IndexOf(old(clientList), ctx)) && ctx !in clientList
        && clientCount == old(clientCount) - 1
        && freeSocketPool == old(freeSocketPool) + [old(ctx.socket)] && ctx.socket == InvalidSocket
        && (acceptOp != null ==> unchanged(acceptOp))
      ensures action == ReplenishAccept ==>
        && acceptOp != null && (ctx != null ==> unchanged(ctx))
        && clientList == old(clientList) && clientCount == old(clientCount)
        && accepted == old(accepted) && disconnected == old(disconnected)
        && (var (s, pool) := TakeSocket(old(freeSocketPool), os.createdSocket);
            && freeSocketPool == pool
            && (s != InvalidSocket ==> acceptOp.kind == AcceptPosted && acceptOp.acceptSocket == s)
            && (s == InvalidSocket ==>
                  acceptOp.kind == old(acceptOp.kind) && acceptOp.acceptSocket == old(acceptOp.acceptSocket)))
      ensures action == HandleAccept ==>
        && acceptOp != null && (ctx != null ==> unchanged(ctx)) && disconnected == old(disconnected)
        && (os.contextAllocated ==>
              && |clientList| == old(|clientList|) + 1 && clientList[1..] == old(clientList)
              && fresh(clientList[0]) && accepted == old(accepted) + [clientList[0]]
              && clientList[0].socket == old(acceptOp.acceptSocket)
              && clientList[0].ip == os.peerIp && clientList[0].port == os.peerPort
              && clientList[0].recvCache == [] && clientList[0].Outbound() == SendQueue.Idle
              && clientList[0].recvPosts == (if os.associated then 1 else 0)
              && clientCount == old(clientCount) + 1)
        && (!os.contextAllocated ==>
              clientList == old(clientList) && clientCount == old(clientCount) && accepted == old(accepted))
        && (var returned := if os.contextAllocated then [] else [old(acceptOp.acceptSocket)];
            var (s, pool) := TakeSocket(old(freeSocketPool) + returned, os.createdSocket);
            && freeSocketPool == pool
            && (s != InvalidSocket ==> acceptOp.kind == AcceptPosted && acceptOp.acceptSocket == s)
            && (s == InvalidSocket ==>
                  acceptOp.kind == old(acceptOp.kind) && acceptOp.acceptSocket == old(acceptOp.acceptSocket)))
      ensures action == HandleRecv ==>
        ctx != null && (var step := RecvCache.Receive(old(ctx.recvCache), data, onReceive);
        && (step.Overflow? ==>
              && ctx.recvCache == old(ctx.recvCache) && ctx.received == old(ctx.received)
              && ctx.consumed == old(ctx.consumed) && ctx.offers == old(ctx.offers)
              && ctx.recvPosts == old(ctx.recvPosts))
        && (step.Delivered? ==>
              && ctx.recvCache == step.cache && ctx.received == old(ctx.received) + data
              && ctx.consumed == old(ctx.consumed) + step.offered[..step.consumed]
              && ctx.offers == old(ctx.offers) + [step.offered] && ctx.recvPosts == old(ctx.recvPosts) + 1)
        && ctx.Outbound() == old(ctx.Outbound()) && ctx.wire == old(ctx.wire) && ctx.posted == old(ctx.posted)
        && accepted == old(accepted) && (acceptOp != null ==> unchanged(acceptOp))
        && (ctx in clientList <==> step.Delivered? && wsaRecvOk)
        && (ctx in clientList ==>
              && clientList == old(clientList) && clientCount == old(clientCount)
              && disconnected == old(disconnected) && freeSocketPool == old(freeSocketPool)
              && ctx.socket == old(ctx.socket))
        && (ctx !in clientList ==>
              && disconnected == old(disconnected) + [ctx]
              && clientList == RemoveAt(old(clientList), IndexOf(old(clientList), ctx))
              && clientCount == old(clientCount) - 1
              && freeSocketPool == old(freeSocketPool) + [old(ctx.socket)] && ctx.socket == InvalidSocket))
      ensures action == HandleSend ==>
        ctx != null && (var step := SendQueue.DoSend(old(ctx.Outbound()));
        && ctx.Outbound() == step.after && ctx.wire == old(ctx.wire) + step.chunk && ctx.posted == old(ctx.posted)
        && ctx.recvCache == old(ctx.recvCache) && ctx.received == old(ctx.received)
        && ctx.consumed == old(ctx.consumed) && ctx.offers == old(ctx.offers)
        && ctx.recvPosts == old(ctx.recvPosts) && ctx.socket == old(ctx.socket)
        && unchanged(this) && (acceptOp != null ==> unchanged(acceptOp)))
    {
      action := Classify(c);
      match action
      case Ignore =>
      case StopWorker =>
      case ReplenishAccept =>
        var _ := PostAccept(acceptOp, os.createdSocket, os.acceptExOk);
      case Teardown =>
        RemoveConnection(ctx);
      case HandleAccept =>
        var _, _ := DoAccept(acceptOp, os);
      case HandleRecv =>
        var ok := ctx.DoRecv(data, onReceive, wsaRecvOk);
        if !ok {
          RemoveConnection(ctx);
        }
      case HandleSend =>
        ctx.DoSend();
    }
  }
}
