/** The outbound side of a connection (`_ClientContext::postSend` and
    `_ServerFramework::doSend`) as pure functions over its two buffers: the
    active remainder `_sendCache` and the FIFO `_sendQueue` of whole payloads.
    Each step says which chunk it hands to WSASend; at most one fixed-size I/O
    buffer (OVERLAPPED_BUF_SIZE) goes out per step. */
module SendQueue {
  import opened Common

  /** `active`: bytes of the payload in transmission not yet handed to WSASend
      (`_sendCache`); `queue`: payloads waiting behind it, oldest first
      (`_sendQueue`). */
  datatype SendState = SendState(active: seq<byte>, queue: seq<seq<byte>>)

  /** What a send step hands to WSASend and the state it leaves. */
  datatype SendStep = SendStep(chunk: seq<byte>, after: SendState)

  /** The result `postSend` reports (`POST_RESULT`). */
  datatype PostResult = Success | Fail | Cached

  const Idle := SendState([], [])

  /** Every byte accepted for sending and not yet handed to WSASend, in the
      order it is to go out. */
  function Pending(s: SendState): seq<byte>
  {
    s.active + Flatten(s.queue)
  }

  /** Payloads queue only behind an active one, and no queued payload is empty.
      Without this, `doSend` can empty the active buffer while payloads are still
      queued, and nothing would ever move them on. */
  predicate Orderly(s: SendState)
  {
    && (s.active == [] ==> s.queue == [])
    && forall i :: 0 <= i < |s.queue| ==> s.queue[i] != []
  }

  /** `postSend(payload)`: with a transmission active, the payload waits at the
      back of the queue and nothing is handed to WSASend (result CACHED); an
      empty payload has nothing to wait with and is dropped there. Otherwise at
      most one I/O buffer of it is handed to WSASend at once and the rest becomes
      the active remainder. */
  function PostSend(s: SendState, payload: seq<byte>): (r: SendStep)
    ensures |r.chunk| <= OverlappedBufSize
    ensures s.active != [] ==> r.chunk == [] && r.after.active == s.active
    ensures s.active != [] ==> r.after.queue == (if payload == [] then s.queue else s.queue + [payload])
    ensures s.active == [] ==> r.chunk == payload[..Min(|payload|, OverlappedBufSize)]
    ensures s.active == [] ==> r.after == SendState(payload[Min(|payload|, OverlappedBufSize)..], s.queue)
    ensures Orderly(s) ==> Orderly(r.after)
    ensures Orderly(s) ==> r.chunk + Pending(r.after) == Pending(s) + payload
  {
    if s.active != [] then
      var queue := if payload == [] then s.queue else s.queue + [payload];
      FlattenAppend(s.queue, [payload]);
      assert Flatten([payload]) == payload;
      SendStep([], SendState(s.active, queue))
    else if |payload| <= OverlappedBufSize then
      SendStep(payload, s)
    else
      SendStep(payload[..OverlappedBufSize], SendState(payload[OverlappedBufSize..], s.queue))
  }

  /** The value `postSend` returns, given whether WSASend was accepted by the
      system (issued, or pending). */
  function PostResultOf(s: SendState, wsaSendOk: bool): (r: PostResult)
    ensures r == Cached <==> s.active != []
    ensures r == Fail <==> s.active == [] && !wsaSendOk
  {
    if s.active != [] then Cached else if wsaSendOk then Success else Fail
  }

  /** `doSend`, run on each send completion: hands the next chunk of the active
      remainder to WSASend; once the remainder fits in one buffer it goes out
      whole and the oldest queued payload becomes the new remainder. */
  function DoSend(s: SendState): (r: SendStep)
    ensures |r.chunk| <= OverlappedBufSize
    ensures r.chunk + Pending(r.after) == Pending(s)
    ensures s.active == [] ==> r == SendStep([], s)
    ensures s.active != [] ==> r.chunk == s.active[..Min(|s.active|, OverlappedBufSize)] && r.chunk != []
    ensures 0 < |s.active| <= OverlappedBufSize ==>
      r.after == (if s.queue == [] then Idle else SendState(s.queue[0], s.queue[1..]))
    ensures |s.active| > OverlappedBufSize ==> r.after == SendState(s.active[OverlappedBufSize..], s.queue)
    ensures Orderly(s) ==> Orderly(r.after)
  {
    if s.active == [] then SendStep([], s)
    else if |s.active| <= OverlappedBufSize then
      if s.queue == [] then SendStep(s.active, Idle)
      else SendStep(s.active, SendState(s.queue[0], s.queue[1..]))
    else
      SendStep(s.active[..OverlappedBufSize], SendState(s.active[OverlappedBufSize..], s.queue))
  }

  /** The bytes handed to WSASend by send completions until nothing is active. */
  function Drain(s: SendState): seq<byte>
    decreases |Pending(s)|
  {
    if s.active == [] then []
    else
      var step := DoSend(s);
      step.chunk + Drain(step.after)
  }

  /** Send completions eventually hand every pending byte to WSASend, in order. */
  lemma {:induction false} DrainDeliversAll(s: SendState)
    requires Orderly(s)
    ensures Drain(s) == Pending(s)
    decreases |Pending(s)|
  {
    if s.active != [] {
      DrainDeliversAll(DoSend(s).after);
    }
  }

  /** A payload larger than one I/O buffer, sent while idle: the first buffer
      goes out at once, the remainder is retained, the next send completion
      hands out the next buffer-size chunk, and the completions after it hand
      out the rest in order until nothing is left. */
  lemma LargePayloadInChunks(payload: seq<byte>)
    requires |payload| > OverlappedBufSize
    ensures PostSend(Idle, payload).chunk == payload[..OverlappedBufSize]
    ensures PostSend(Idle, payload).after == SendState(payload[OverlappedBufSize..], [])
    ensures DoSend(PostSend(Idle, payload).after).chunk
         == payload[OverlappedBufSize..Min(|payload|, 2 * OverlappedBufSize)]
    ensures Drain(PostSend(Idle, payload).after) == payload[OverlappedBufSize..]
  {
    var rest := payload[OverlappedBufSize..];
    assert rest[..Min(|rest|, OverlappedBufSize)] == payload[OverlappedBufSize..Min(|payload|, 2 * OverlappedBufSize)];
    DrainDeliversAll(PostSend(Idle, payload).after);
  }

  /** What a connection's user and the send completions do to the send path. */
  datatype SendEvent = Post(payload: seq<byte>) | Completion

  /** The bytes posted by the events, in call order. */
  function Posted(events: seq<SendEvent>): seq<byte>
  {
    if events == [] then []
    else (if events[0].Post? then events[0].payload else []) + Posted(events[1..])
  }

  /** The bytes handed to WSASend while the events are applied in order, and the
      state left afterwards. */
  function Replay(s: SendState, events: seq<SendEvent>): (r: (seq<byte>, SendState))
    decreases |events|
  {
    if events == [] then ([], s)
    else
      var step := if events[0].Post? then PostSend(s, events[0].payload) else DoSend(s);
      var rest := Replay(step.after, events[1..]);
      (step.chunk + rest.0, rest.1)
  }

  /** FIFO and lossless: whatever the payload sizes and however posts and
      completions interleave, the bytes handed to WSASend followed by those
      still pending are exactly the posted bytes, in call order. */
  lemma {:induction false} ReplayIsFifo(s: SendState, events: seq<SendEvent>)
    requires Orderly(s)
    ensures var r := Replay(s, events);
      Orderly(r.1) && r.0 + Pending(r.1) == Pending(s) + Posted(events)
    decreases |events|
  {
    if events != [] {
      var step, posted;
      if events[0].Post? {
        step, posted := PostSend(s, events[0].payload), events[0].payload;
      } else {
        step, posted := DoSend(s), [];
      }
      assert Replay(s, events).0 == step.chunk + Replay(step.after, events[1..]).0;
      assert Posted(events) == posted + Posted(events[1..]);
      ReplayIsFifo(step.after, events[1..]);
      StepThenRest(step.chunk, Pending(step.after), Pending(s), posted,
        Replay(step.after, events[1..]).0, Pending(Replay(step.after, events[1..]).1), Posted(events[1..]));
    }
  }

  /** Regrouping: a step that keeps chunk + pending in line with the posted
      bytes, followed by a run that does, keeps the whole run in line. */
  lemma StepThenRest(chunk: seq<byte>, after: seq<byte>, before: seq<byte>, posted: seq<byte>,
                     restOut: seq<byte>, restPending: seq<byte>, restPosted: seq<byte>)
    requires chunk + after == before + posted
    requires restOut + restPending == after + restPosted
    ensures chunk + restOut + restPending == before + (posted + restPosted)
  {
    calc {
      chunk + restOut + restPending;
      chunk + (restOut + restPending);
      chunk + (after + restPosted);
      (chunk + after) + restPosted;
      before + posted + restPosted;
    }
  }

  // postSend as written.

  /** `postSend` as the source writes it: with a transmission active, the
      payload is queued even when it is empty. */
  function PostSendAsWritten(s: SendState, payload: seq<byte>): (r: SendStep)
    ensures s.active != [] ==> r.chunk == [] && r.after == SendState(s.active, s.queue + [payload])
    ensures s.active == [] ==> r == PostSend(s, payload)
  {
    if s.active != [] then SendStep([], SendState(s.active, s.queue + [payload]))
    else if |payload| <= OverlappedBufSize then SendStep(payload, s)
    else SendStep(payload[..OverlappedBufSize], SendState(payload[OverlappedBufSize..], s.queue))
  }

  /** An empty payload posted while byte 1 is in transmission, then [3]; a send
      completion moves the empty payload into the active buffer, so the next post
      of [4] finds the connection idle and overtakes [3], which no send
      completion will ever move on. */
  lemma AsWrittenEmptyPayloadReorders()
    ensures var s1 := PostSendAsWritten(SendState([1], []), []).after;
      var s2 := PostSendAsWritten(s1, [3]).after;
      var d := DoSend(s2);
      var p := PostSendAsWritten(d.after, [4]);
      && d.chunk == [1] && p.chunk == [4]
      && p.after == SendState([], [[3]])
      && DoSend(p.after) == SendStep([], p.after)
      && d.chunk + p.chunk != [1] + [] + [3] + [4]
  {
    var s2 := SendState([1], [[], [3]]);
    assert s2.queue[1..] == [[3]];
  }
}
