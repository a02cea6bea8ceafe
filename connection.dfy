/** The per-client state `_ClientContext`: its socket, the peer address, the
    receive reassembly cache and the two-level send buffer, with the operations
    that update them in place (`doRecv`, `postSend`, `doSend`). Calls into the
    system (WSARecv, WSASend) become boolean parameters for their outcome;
    ghost logs record what the connection handed to the callback and to WSASend. */
module Connections {
  import opened Common
  import RecvCache
  import opened SendQueue

  /** A socket handle; `InvalidSocket` is INVALID_SOCKET. */
  datatype SocketHandle = InvalidSocket | Socket(id: nat)

  class Connection {
    var socket: SocketHandle
    const ip: string
    const port: nat

    /** `_recvCache`: received bytes the callback has not consumed yet. */
    var recvCache: seq<byte>
    /** `_sendCache`: the not yet transmitted rest of the payload in transmission. */
    var sendCache: seq<byte>
    /** `_sendQueue`: whole payloads waiting behind `sendCache`, oldest first. */
    var sendQueue: seq<seq<byte>>

    /** Every byte handed to WSASend on this connection, in order. */
    ghost var wire: seq<byte>
    /** Every byte passed to `PostSend`, in call order. */
    ghost var posted: seq<byte>
    /** Every byte of every receive completion the cache took in, in arrival order. */
    ghost var received: seq<byte>
    /** Every byte the callback reported consumed, in order. */
    ghost var consumed: seq<byte>
    /** The byte sequences offered to the receive callback, one per call. */
    ghost var offers: seq<seq<byte>>
    /** How many times the connection posted an overlapped receive, whether or
        not WSARecv accepted it. */
    ghost var recvPosts: nat

    ghost function Outbound(): SendState
      reads this
    {
      SendState(sendCache, sendQueue)
    }

    /** Receive side: what was consumed followed by what is cached is everything
        received, and the cache stays bounded. Send side: queued payloads wait
        only behind an active one, and what went to WSASend followed by what is
        pending is everything posted. */
    ghost predicate Valid()
      reads this
    {
      && consumed + recvCache == received
      && |recvCache| <= Max(RecvCacheLimitSize, OverlappedBufSize)
      && Orderly(Outbound())
      && wire + Pending(Outbound()) == posted
    }

    /** A freshly accepted connection: nothing received, nothing to send. */
    constructor (socket: SocketHandle, ip: string, port: nat)
      ensures Valid()
      ensures this.socket == socket && this.ip == ip && this.port == port
      ensures recvCache == [] && sendCache == [] && sendQueue == []
      ensures wire == [] && posted == [] && received == [] && consumed == [] && offers == [] && recvPosts == 0
    {
      this.socket := socket;
      this.ip := ip;
      this.port := port;
      recvCache, sendCache, sendQueue := [], [], [];
      wire, posted, received, consumed, offers, recvPosts := [], [], [], [], [], 0;
    }

    /** `doRecv`: a receive completion carrying `buf`. `onReceive` is the
        application callback; `wsaRecvOk` is whether posting the next overlapped
        receive succeeded. On overflow the cache is left as it was, the callback is
        not called and no receive is posted; otherwise the callback is offered the
        cache followed by `buf` and what it does not consume stays cached. */
    method DoRecv(buf: seq<byte>, onReceive: seq<byte> -> nat, wsaRecvOk: bool) returns (ok: bool)
      requires Valid()
      requires |buf| <= OverlappedBufSize
      modifies this
      ensures Valid()
      ensures var step := RecvCache.Receive(old(recvCache), buf, onReceive);
        && ok == (step.Delivered? && wsaRecvOk)
        && (step.Overflow? ==>
              && recvCache == old(recvCache) && received == old(received) && consumed == old(consumed)
              && offers == old(offers) && recvPosts == old(recvPosts))
        && (step.Delivered? ==>
              && recvCache == step.cache
              && received == old(received) + buf
              && consumed == old(consumed) + step.offered[..step.consumed]
              && offers == old(offers) + [step.offered]
              && recvPosts == old(recvPosts) + 1)
      ensures Outbound() == old(Outbound()) && wire == old(wire) && posted == old(posted)
      ensures socket == old(socket)
    {
      ghost var step := RecvCache.Receive(recvCache, buf, onReceive);
      ghost var was := recvCache;
      ok := false;
      var data: seq<byte>;
      var processed: nat;
      if recvCache == [] {
        data := buf;
        processed := onReceive(buf);
        if processed < |buf| {
          recvCache := buf[processed..];
        }
      } else {
        var size := |recvCache|;
        if size + |buf| > RecvCacheLimitSize {
          return;
        }
        recvCache := recvCache + buf;
        data := recvCache;
        processed := onReceive(recvCache);
        if processed >= |recvCache| {
          recvCache := [];
        } else if processed > 0 {
          recvCache := recvCache[processed..];
        }
      }
      assert step.Delivered? && data == step.offered && recvCache == step.cache;
      offers := offers + [data];
      received := received + buf;
      consumed := consumed + data[..step.consumed];
      KeepsReceived(old(consumed), was, old(received), buf, data[..step.consumed], recvCache);
      RecvCache.ReceiveBounded(was, buf, onReceive);
      ok := PostRecv(wsaRecvOk);
    }

    /** `postRecv`: posts the next overlapped receive; `wsaRecvOk` is whether
        WSARecv accepted it (issued or pending). */
    method PostRecv(wsaRecvOk: bool) returns (ok: bool)
      modifies this`recvPosts
      ensures recvPosts == old(recvPosts) + 1
      ensures ok == wsaRecvOk
    {
      recvPosts := recvPosts + 1;
      ok := wsaRecvOk;
    }

    /** `postSend`: `wsaSendOk` is whether WSASend accepted the chunk (issued or
        pending). The connection's send state and the bytes handed to WSASend
        follow `SendQueue.PostSend`; the result is CACHED while a transmission
        is active. */
    method PostSend(payload: seq<byte>, wsaSendOk: bool) returns (r: PostResult)
      requires Valid()
      modifies this
      ensures Valid()
      ensures var step := SendQueue.PostSend(old(Outbound()), payload);
        Outbound() == step.after && wire == old(wire) + step.chunk
      ensures posted == old(posted) + payload
      ensures r == PostResultOf(old(Outbound()), wsaSendOk)
      ensures recvCache == old(recvCache) && received == old(received) && consumed == old(consumed)
      ensures offers == old(offers) && recvPosts == old(recvPosts) && socket == old(socket)
    {
      ghost var step := SendQueue.PostSend(Outbound(), payload);
      posted := posted + payload;
      if sendCache != [] {
        // Another payload is in transmission: wait at the back of the queue.
        if payload != [] {
          sendQueue := sendQueue + [payload];
        }
        assert Outbound() == step.after && step.chunk == [];
        assert wire + Pending(Outbound()) == old(wire) + (Pending(old(Outbound())) + payload);
        return Cached;
      }
      if |payload| <= OverlappedBufSize {
        wire := wire + payload;
      } else {
        sendCache := payload[OverlappedBufSize..];
        wire := wire + payload[..OverlappedBufSize];
      }
      r := if wsaSendOk then Success else Fail;
    }

    /** `doSend`: a send completion. Hands the next chunk of the active
        remainder to WSASend and, once it is used up, makes the oldest queued
        payload the new remainder, following `SendQueue.DoSend`. */
    method DoSend()
      requires Valid()
      modifies this
      ensures Valid()
      ensures var step := SendQueue.DoSend(old(Outbound()));
        Outbound() == step.after && wire == old(wire) + step.chunk
      ensures posted == old(posted)
      ensures recvCache == old(recvCache) && received == old(received) && consumed == old(consumed)
      ensures offers == old(offers) && recvPosts == old(recvPosts) && socket == old(socket)
    {
      ghost var step := SendQueue.DoSend(Outbound());
      if sendCache == [] {
        return;
      }
      if |sendCache| <= OverlappedBufSize {
        wire := wire + sendCache;
        if sendQueue == [] {
          sendCache := [];
        } else {
          sendCache := sendQueue[0];
          sendQueue := sendQueue[1..];
        }
      } else {
        wire := wire + sendCache[..OverlappedBufSize];
        sendCache := sendCache[OverlappedBufSize..];
      }
    }
  }

  /** The receive-side invariant survives a completion: the newly consumed
      bytes and the new cache together are the old cache and the new bytes. */
  lemma KeepsReceived(consumed: seq<byte>, cache: seq<byte>, received: seq<byte>, buf: seq<byte>,
                      taken: seq<byte>, cache': seq<byte>)
    requires consumed + cache == received
    requires taken + cache' == cache + buf
    ensures (consumed + taken) + cache' == received + buf
  {
    calc {
      (consumed + taken) + cache';
      consumed + (taken + cache');
      consumed + (cache + buf);
      (consumed + cache) + buf;
    }
  }
}
