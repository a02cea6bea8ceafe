/** The receive reassembly cache of a connection (`_ServerFramework::doRecv`),
    as pure functions over the cache contents: what the application callback is
    offered on each receive completion, and what stays cached for the next one.
    The callback is a function from the offered bytes to the number of bytes it
    reports as consumed. */
module RecvCache {
  import opened Common

  /** The outcome of one receive completion for the cache. `Overflow`: appending
      the new bytes to a non-empty cache would pass RECV_CACHE_LIMIT_SIZE, so
      nothing is offered and the connection is to be torn down. `Delivered`: the
      callback was offered `offered`, `consumed` of them are gone, `cache` is kept. */
  datatype RecvStep =
    | Overflow
    | Delivered(offered: seq<byte>, consumed: nat, cache: seq<byte>)

  /** The bytes offered to the callback: the new bytes alone when nothing is
      cached, else the cached bytes followed by the new ones, unless that would
      pass the cache limit. */
  function Offer(cache: seq<byte>, buf: seq<byte>): (r: Option<seq<byte>>)
    ensures r.None? <==> cache != [] && |cache| + |buf| > RecvCacheLimitSize
    ensures r.Some? ==> r.value == cache + buf
  {
    if cache == [] then Some(buf)
    else if |cache| + |buf| > RecvCacheLimitSize then None
    else Some(cache + buf)
  }

  /** What is left of `data` once the callback reports `consumed` bytes of it
      consumed: the consumed prefix followed by the result is `data` again. */
  function Unconsumed(data: seq<byte>, consumed: nat): (r: seq<byte>)
    ensures data[..Min(consumed, |data|)] + r == data
    ensures consumed == 0 ==> r == data
  {
    if consumed >= |data| then [] else data[consumed..]
  }

  /** One receive completion carrying `buf`, as the cache sees it. */
  function Receive(cache: seq<byte>, buf: seq<byte>, onReceive: seq<byte> -> nat): (r: RecvStep)
    ensures r.Overflow? <==> cache != [] && |cache| + |buf| > RecvCacheLimitSize
    ensures r.Delivered? ==>
      && r.offered == cache + buf
      && r.consumed == Min(onReceive(r.offered), |r.offered|)
      && r.offered[..r.consumed] + r.cache == r.offered
  {
    match Offer(cache, buf)
    case None => Overflow
    case Some(data) =>
      var n := onReceive(data);
      Delivered(data, Min(n, |data|), Unconsumed(data, n))
  }

  /** The cache never grows beyond the larger of the cache limit and the receive
      buffer size: appending is checked against the limit, and an empty cache
      can only take the unconsumed part of one receive buffer. */
  lemma ReceiveBounded(cache: seq<byte>, buf: seq<byte>, onReceive: seq<byte> -> nat)
    requires |buf| <= OverlappedBufSize
    ensures Receive(cache, buf, onReceive).Delivered? ==>
      |Receive(cache, buf, onReceive).cache| <= Max(RecvCacheLimitSize, OverlappedBufSize)
  {
  }

  /** A run of receive completions on one connection: the bytes the callback
      consumed, in order; the final cache; how many completions were handled;
      whether the run stopped at a cache overflow. */
  datatype Run = Run(consumed: seq<byte>, cache: seq<byte>, handled: nat, overflowed: bool)

  function ReceiveAll(cache: seq<byte>, bufs: seq<seq<byte>>, onReceive: seq<byte> -> nat): (r: Run)
    ensures r.handled <= |bufs|
    ensures r.overflowed <==> r.handled < |bufs|
    ensures r.overflowed ==> r.cache != [] && |r.cache| + |bufs[r.handled]| > RecvCacheLimitSize
    decreases |bufs|
  {
    if bufs == [] then Run([], cache, 0, false)
    else
      match Receive(cache, bufs[0], onReceive)
      case Overflow => Run([], cache, 0, true)
      case Delivered(data, n, rest) =>
        var tail := ReceiveAll(rest, bufs[1..], onReceive);
        Run(data[..n] + tail.consumed, tail.cache, tail.handled + 1, tail.overflowed)
  }

  /** Reassembly is lossless and keeps order: up to the completion that
      overflowed (or to the end), the consumed bytes followed by what is still
      cached are exactly the initially cached bytes followed by every received
      byte, in arrival order. */
  lemma {:induction false} ReassemblyLossless(cache: seq<byte>, bufs: seq<seq<byte>>, onReceive: seq<byte> -> nat)
    ensures var r := ReceiveAll(cache, bufs, onReceive);
      r.consumed + r.cache == cache + Flatten(bufs[..r.handled])
    decreases |bufs|
  {
    if bufs != [] {
      var step := Receive(cache, bufs[0], onReceive);
      if step.Overflow? {
        assert bufs[..0] == [];
      } else {
        var tail := ReceiveAll(step.cache, bufs[1..], onReceive);
        assert ReceiveAll(cache, bufs, onReceive)
            == Run(step.offered[..step.consumed] + tail.consumed, tail.cache, tail.handled + 1, tail.overflowed);
        ReassemblyLossless(step.cache, bufs[1..], onReceive);
        FlattenFront(bufs, tail.handled);
        Regroup(step.offered[..step.consumed], step.cache, cache, bufs[0],
                tail.consumed, tail.cache, Flatten(bufs[1..][..tail.handled]));
      }
    }
  }

  /** The first `k + 1` buffers flatten to the first buffer followed by the next `k`. */
  lemma FlattenFront(bufs: seq<seq<byte>>, k: nat)
    requires k < |bufs|
    ensures Flatten(bufs[..k + 1]) == bufs[0] + Flatten(bufs[1..][..k])
  {
    assert bufs[..k + 1] == [bufs[0]] + bufs[1..][..k];
    assert (bufs[..k + 1])[1..] == bufs[1..][..k];
  }

  /** One completion's consumed bytes and cache, then the rest of the run. */
  lemma Regroup(taken: seq<byte>, rest: seq<byte>, cache: seq<byte>, buf: seq<byte>,
                later: seq<byte>, final: seq<byte>, more: seq<byte>)
    requires taken + rest == cache + buf
    requires later + final == rest + more
    ensures (taken + later) + final == cache + (buf + more)
  {
    calc {
      (taken + later) + final;
      taken + (later + final);
      taken + (rest + more);
      (taken + rest) + more;
    }
  }

  /** A callback that always consumes everything it is offered keeps the cache
      empty: every received byte is consumed, in order, and nothing overflows. */
  lemma {:induction false} FullConsumptionKeepsCacheEmpty(bufs: seq<seq<byte>>, onReceive: seq<byte> -> nat)
    requires forall d :: onReceive(d) >= |d|
    ensures ReceiveAll([], bufs, onReceive) == Run(Flatten(bufs), [], |bufs|, false)
    decreases |bufs|
  {
    if bufs != [] {
      var b := bufs[0];
      assert onReceive(b) >= |b|;
      assert Receive([], b, onReceive) == Delivered(b, |b|, []);
      assert b[..|b|] == b;
      FullConsumptionKeepsCacheEmpty(bufs[1..], onReceive);
    }
  }

  /** A callback that never consumes anything makes the cache grow by every
      received byte. */
  lemma {:induction false} ZeroConsumptionAccumulates(cache: seq<byte>, bufs: seq<seq<byte>>, onReceive: seq<byte> -> nat)
    requires forall d :: onReceive(d) == 0
    ensures var r := ReceiveAll(cache, bufs, onReceive);
      r.consumed == [] && r.cache == cache + Flatten(bufs[..r.handled])
    decreases |bufs|
  {
    if bufs != [] {
      match Receive(cache, bufs[0], onReceive)
      case Overflow =>
      case Delivered(data, n, rest) =>
        assert onReceive(data) == 0 && n == 0;
        ZeroConsumptionAccumulates(rest, bufs[1..], onReceive);
    }
    ReassemblyLossless(cache, bufs, onReceive);
  }

  /** ... and overflow is then certain: once some bytes are cached, a callback
      that never consumes, fed with more non-empty completions than the limit
      leaves room for, ends in a cache overflow. */
  lemma {:induction false} ZeroConsumptionOverflows(cache: seq<byte>, bufs: seq<seq<byte>>, onReceive: seq<byte> -> nat)
    requires forall d :: onReceive(d) == 0
    requires cache != [] && bufs != []
    requires forall i :: 0 <= i < |bufs| ==> bufs[i] != []
    requires |cache| + |bufs| > RecvCacheLimitSize
    ensures ReceiveAll(cache, bufs, onReceive).overflowed
    decreases |bufs|
  {
    if |cache| + |bufs[0]| <= RecvCacheLimitSize {
      var rest := cache + bufs[0];
      assert Receive(cache, bufs[0], onReceive).cache == rest;
      assert forall i :: 0 <= i < |bufs[1..]| ==> bufs[1..][i] == bufs[i + 1];
      ZeroConsumptionOverflows(rest, bufs[1..], onReceive);
    }
  }

  /** A callback that consumes whole four-byte records. */
  function WholeRecords(d: seq<byte>): nat { |d| / 4 * 4 }

  /** Three bytes, then five more, with a callback that consumes whole four-byte
      records: after the first completion the three bytes stay cached; the second
      offers all eight, both records are consumed and the cache is empty again. */
  lemma RecordScenario(a: seq<byte>, b: seq<byte>)
    requires |a| == 3 && |b| == 5 && RecvCacheLimitSize >= 8
    ensures Receive([], a, WholeRecords) == Delivered(a, 0, a)
    ensures Receive(a, b, WholeRecords) == Delivered(a + b, 8, [])
  {
  }

  // The partial-consume branch as written.

  /** 2^64: the source computes buffer lengths in `size_t`. */
  const SizeTModulus: nat := 0x1_0000_0000_0000_0000

  /** The cache after the partial-consume branch of doRecv as the code computes
      it: `cache` was non-empty, `buf` was appended, the callback consumed
      `consumed` bytes with 0 < consumed < |cache| + |buf|, and the remainder
      length is taken as `|buf| - consumed` in `size_t`. `None` when that
      wraps around: the move then reads past the end of the cache and the resize
      asks for close to 2^64 bytes. */
  function AsWrittenPartialCache(cache: seq<byte>, buf: seq<byte>, consumed: nat): (r: Option<seq<byte>>)
    requires cache != [] && 0 < consumed < |cache| + |buf| < SizeTModulus
    ensures r.None? <==> consumed > |buf|
    ensures r.Some? ==> r.value == (cache + buf)[consumed..|buf|]
  {
    var data := cache + buf;
    var remainder := (|buf| - consumed) % SizeTModulus;
    if consumed + remainder <= |data| then Some(data[consumed..consumed + remainder]) else None
  }

  /** Whenever the partial-consume branch runs, the code as written misses the
      intended cache: either the remainder length wraps around, or the last
      |cache| bytes of the unconsumed suffix are dropped. */
  lemma AsWrittenPartialCacheIsWrong(cache: seq<byte>, buf: seq<byte>, consumed: nat)
    requires cache != [] && 0 < consumed < |cache| + |buf| < SizeTModulus
    ensures AsWrittenPartialCache(cache, buf, consumed) != Some(Unconsumed(cache + buf, consumed))
  {
    var r := AsWrittenPartialCache(cache, buf, consumed);
    if r.Some? {
      assert |r.value| == |buf| - consumed < |Unconsumed(cache + buf, consumed)|;
    }
  }

  /** One cached byte, two new bytes, one consumed: the code keeps only the
      first of the two unconsumed bytes. */
  lemma AsWrittenDropsByte()
    ensures AsWrittenPartialCache([1], [2, 3], 1) == Some([2])
    ensures Unconsumed([1] + [2, 3], 1) == [2, 3]
  {
    assert ([1] + [2, 3])[1..2] == [2];
  }

  /** Three cached bytes, one new byte, two consumed: `1 - 2` wraps around. */
  lemma AsWrittenUnderflows()
    ensures AsWrittenPartialCache([1, 2, 3], [4], 2) == None
    ensures Unconsumed([1, 2, 3] + [4], 2) == [3, 4]
  {
    assert ([1, 2, 3] + [4])[2..] == [3, 4];
  }
}
