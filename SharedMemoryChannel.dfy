/** The renderer side of the shared-memory channel (`src/lib/SharedMemoryChannel.ts`): messages
    wait in a queue, and each step of the send loop packs as many of them as fit, back to back,
    into the renderer-to-native region, then stores the packed length and raises the R→N
    signal. The `Atomics` words are plain array elements; a `setTimeout` of the next step is
    reported as a count of scheduled steps, and the queue-empty callback as a flag. */
module SharedMemoryChannel {
  import opened Bytes
  import opened ChannelMemory
  import Throttle

  /** What `send` did: returned at once for a closed channel, threw 'Message too long', or
      queued the message and possibly scheduled the first step. */
  datatype SendResult = NotOpen | MessageTooLong | Queued(scheduledStep: bool)

  /** How many messages from the front of `queue` fit, back to back, into `room` bytes: the
      packing loop stops at the first message that does not fit. */
  function PackCount(queue: seq<seq<byte>>, room: nat): (r: nat)
    ensures r <= |queue|
    ensures queue != [] && |queue[0]| <= room ==> r >= 1
  {
    if queue == [] || |queue[0]| > room then 0
    else 1 + PackCount(queue[1..], room - |queue[0]|)
  }

  /** The bytes a step writes: the packed messages, back to back, in queue order. */
  function Packed(queue: seq<seq<byte>>, room: nat): (r: seq<byte>)
    ensures |r| <= room
  {
    PackCountIsLongest(queue, room);
    Concat(queue[..PackCount(queue, room)])
  }

  /** The packed prefix is the longest one that fits: its messages fit in `room` bytes, and
      with the next message added they would not. */
  lemma {:induction false} PackCountIsLongest(queue: seq<seq<byte>>, room: nat)
    ensures |Concat(queue[..PackCount(queue, room)])| <= room
    ensures PackCount(queue, room) < |queue| ==>
      |Concat(queue[..PackCount(queue, room) + 1])| > room
    decreases |queue|
  {
    var n := PackCount(queue, room);
    if queue != [] && |queue[0]| <= room {
      var rest := queue[1..];
      var room' := room - |queue[0]|;
      PackCountIsLongest(rest, room');
      assert queue[..n] == [queue[0]] + rest[..n - 1];
      ConcatAppend([queue[0]], rest[..n - 1]);
      assert Concat([queue[0]]) == queue[0] + Concat([]);
      if n < |queue| {
        assert queue[..n + 1] == [queue[0]] + rest[..n];
        ConcatAppend([queue[0]], rest[..n]);
      }
    } else if queue != [] {
      assert queue[..1] == [queue[0]];
      assert Concat([queue[0]]) == queue[0] + Concat([]);
    }
  }

  /** Every message fits the region on its own. */
  ghost predicate AllFit(queue: seq<seq<byte>>, room: nat)
  {
    forall i :: 0 <= i < |queue| ==> |queue[i]| <= room
  }

  /** The number of steps the send loop takes on `queue` before a step sends nothing. */
  function StepsToDrain(queue: seq<seq<byte>>, room: nat): nat
    decreases |queue|
  {
    var n := PackCount(queue, room);
    if n == 0 then 0 else 1 + StepsToDrain(queue[n..], room)
  }

  /** What is left of `queue` once a step sends nothing. */
  function LeftAfterDraining(queue: seq<seq<byte>>, room: nat): seq<seq<byte>>
    decreases |queue|
  {
    var n := PackCount(queue, room);
    if n == 0 then queue else LeftAfterDraining(queue[n..], room)
  }

  /** When every message fits on its own, as `send` guarantees, each step sends at least one
      message, so the send loop empties the queue in at most one step per message. */
  lemma {:induction false} StepsDrainQueue(queue: seq<seq<byte>>, room: nat)
    requires AllFit(queue, room)
    ensures StepsToDrain(queue, room) <= |queue|
    ensures LeftAfterDraining(queue, room) == []
    decreases |queue|
  {
    var n := PackCount(queue, room);
    if queue != [] {
      assert |queue[0]| <= room;
      var rest := queue[n..];
      assert AllFit(rest, room) by {
        forall i | 0 <= i < |rest| ensures |rest[i]| <= room {
          assert rest[i] == queue[n + i];
        }
      }
      StepsDrainQueue(rest, room);
    }
  }

  class SharedMemoryChannel {
    const rendererToNativeSize: nat
    const nativeToRendererSize: nat
    var sharedBuffer: array?<byte>
    var control: array?<int>
    var isProcessingQueue: bool
    var isReceiving: bool
    var hasMessageCallback: bool
    var hasEmptyCallback: bool
    var messageQueue: seq<seq<byte>>
    const queueUpdateThrottle: Throttle.Throttle

    /** The buffer and the control words exist together and have the laid-out sizes, and every
        queued message fits the renderer-to-native region. */
    ghost predicate Valid()
      reads this
    {
      && (sharedBuffer == null <==> control == null)
      && (sharedBuffer != null ==> sharedBuffer.Length == BufferSize(rendererToNativeSize, nativeToRendererSize))
      && (control != null ==> control.Length == CONTROL_WORDS)
      && AllFit(messageQueue, rendererToNativeSize)
    }

    /** `new SharedMemoryChannel(r2n, n2r)` (both default to 1024): a zeroed buffer of
        16 + r2n + n2r bytes, zeroed control words, an empty queue, nothing in progress, and a
        throttle with a 100 ms delay. */
    constructor (rendererToNativeSize: nat, nativeToRendererSize: nat)
      ensures Valid()
      ensures this.rendererToNativeSize == rendererToNativeSize && this.nativeToRendererSize == nativeToRendererSize
      ensures sharedBuffer != null && fresh(sharedBuffer) && fresh(control)
      ensures sharedBuffer.Length == BufferSize(rendererToNativeSize, nativeToRendererSize)
      ensures forall i :: 0 <= i < sharedBuffer.Length ==> sharedBuffer[i] == 0
      ensures control != null && control[..] == [0, 0, 0, 0]
      ensures messageQueue == [] && !isProcessingQueue && !isReceiving
      ensures !hasMessageCallback && !hasEmptyCallback
      ensures fresh(queueUpdateThrottle) && queueUpdateThrottle.delay == 100 && !queueUpdateThrottle.IsPending()
      ensures queueUpdateThrottle.Spaced() && queueUpdateThrottle.armed == map[]
    {
      this.rendererToNativeSize := rendererToNativeSize;
      this.nativeToRendererSize := nativeToRendererSize;
      messageQueue := [];
      isProcessingQueue := false;
      isReceiving := false;
      hasMessageCallback := false;
      hasEmptyCallback := false;
      queueUpdateThrottle := new Throttle.Throttle(100);
      sharedBuffer := new byte[BufferSize(rendererToNativeSize, nativeToRendererSize)](_ => 0);
      control := new int[CONTROL_WORDS](_ => 0);
      new;
      assert control[..] == [0, 0, 0, 0];
    }

    /** `send(messageBytes)`: a message longer than the renderer-to-native region is refused
        and nothing changes; otherwise it joins the back of the queue, and the first step is
        scheduled when no step was in progress. */
    method Send(message: seq<byte>) returns (r: SendResult)
      requires Valid()
      modifies this
      ensures Valid()
      ensures sharedBuffer == old(sharedBuffer) && control == old(control)
      ensures isReceiving == old(isReceiving) && hasMessageCallback == old(hasMessageCallback)
      ensures hasEmptyCallback == old(hasEmptyCallback)
      ensures old(sharedBuffer) == null ==> r == NotOpen && unchanged(this)
      ensures old(sharedBuffer) != null && |message| > rendererToNativeSize ==>
        r == MessageTooLong && unchanged(this)
      ensures old(sharedBuffer) != null && |message| <= rendererToNativeSize ==>
        && messageQueue == old(messageQueue) + [message]
        && isProcessingQueue
        && r == Queued(!old(isProcessingQueue))
    {
      if sharedBuffer == null {
        return NotOpen;
      }
      if |message| > rendererToNativeSize {
        return MessageTooLong;
      }
      messageQueue := messageQueue + [message];
      if !isProcessingQueue {
        isProcessingQueue := true;
        return Queued(true);
      }
      r := Queued(false);
    }

    /** The packing loop of `_processSendQueue`: copy the longest queue prefix that fits into
        the renderer-to-native region from its start, publish its length and raise the
        signal, and drop the packed messages from the queue. */
    method PackAndSignal() returns (packed: nat)
      requires Valid() && sharedBuffer != null && messageQueue != []
      modifies sharedBuffer, control, this
      ensures Valid()
      ensures sharedBuffer == old(sharedBuffer) && control == old(control)
      ensures isProcessingQueue == old(isProcessingQueue) && isReceiving == old(isReceiving)
      ensures hasMessageCallback == old(hasMessageCallback) && hasEmptyCallback == old(hasEmptyCallback)
      ensures packed == PackCount(old(messageQueue), rendererToNativeSize) && packed >= 1
      ensures sharedBuffer[..] ==
        Overwrite(old(sharedBuffer[..]), R2N_OFFSET, Packed(old(messageQueue), rendererToNativeSize))
      ensures control[..] == old(control[..])[R2N_LENGTH := ToInt32(|Packed(old(messageQueue), rendererToNativeSize)|)][R2N_SIGNAL := 1]
      ensures messageQueue == old(messageQueue)[packed..]
    {
      var q := messageQueue;
      var packOffset;
      packOffset, packed := PackInto(sharedBuffer, q, rendererToNativeSize);
      assert AllFit(q, rendererToNativeSize) && |q[0]| <= rendererToNativeSize;
      control[R2N_LENGTH] := ToInt32(packOffset);
      control[R2N_SIGNAL] := 1;
      messageQueue := messageQueue[packed..];
      assert AllFit(messageQueue, rendererToNativeSize) by {
        forall k | 0 <= k < |messageQueue| ensures |messageQueue[k]| <= rendererToNativeSize {
          assert messageQueue[k] == q[packed + k];
        }
      }
    }

    /** `_processSendQueue`, as written: with no buffer or no step in progress it does nothing;
        on an empty queue it ends the send loop. Otherwise, when the R→N signal is still
        raised it schedules a retry but does not return, so it packs and signals all the
        same, overwriting data the native side may not have read. When the queue becomes
        empty the empty callback fires and the loop ends; otherwise the next step is
        scheduled. */
    method ProcessSendQueue() returns (scheduled: nat, emptied: bool)
      requires Valid()
      modifies this, sharedBuffer, control
      ensures Valid()
      ensures sharedBuffer == old(sharedBuffer) && control == old(control)
      ensures isReceiving == old(isReceiving) && hasMessageCallback == old(hasMessageCallback)
      ensures hasEmptyCallback == old(hasEmptyCallback)
      ensures old(sharedBuffer) == null || !old(isProcessingQueue) ==>
        unchanged(this) && scheduled == 0 && !emptied
      ensures old(sharedBuffer) != null && old(isProcessingQueue) && old(messageQueue) == [] ==>
        messageQueue == [] && !isProcessingQueue && scheduled == 0 && !emptied
        && unchanged(sharedBuffer) && unchanged(control)
      ensures old(sharedBuffer) != null && old(isProcessingQueue) && old(messageQueue) != [] ==>
        var n := PackCount(old(messageQueue), rendererToNativeSize);
        var bytes := Packed(old(messageQueue), rendererToNativeSize);
        && n >= 1
        && sharedBuffer[..] == Overwrite(old(sharedBuffer[..]), R2N_OFFSET, bytes)
        && control[..] == old(control[..])[R2N_LENGTH := ToInt32(|bytes|)][R2N_SIGNAL := 1]
        && messageQueue == old(messageQueue)[n..]
        && isProcessingQueue == (messageQueue != [])
        && emptied == (messageQueue == [] && hasEmptyCallback)
        && scheduled == (if old(control[R2N_SIGNAL]) != 0 then 1 else 0) + (if messageQueue != [] then 1 else 0)
    {
      scheduled, emptied := 0, false;
      if sharedBuffer == null || !isProcessingQueue {
        return;
      }
      if |messageQueue| == 0 {
        isProcessingQueue := false;
        return;
      }
      if control[R2N_SIGNAL] != 0 {
        scheduled := 1;
      }
      var _ := PackAndSignal();
      if |messageQueue| == 0 {
        emptied := hasEmptyCallback;
        isProcessingQueue := false;
      }
      if isProcessingQueue {
        scheduled := scheduled + 1;
      }
    }

    /** `_processSendQueue` with a `return` after the retry is scheduled, as the frontend
        version of the channel has it: while the R→N signal is raised nothing is written and
        nothing leaves the queue; otherwise it behaves as written. */
    method ProcessSendQueueGuarded() returns (scheduled: nat, emptied: bool)
      requires Valid()
      modifies this, sharedBuffer, control
      ensures Valid()
      ensures sharedBuffer == old(sharedBuffer) && control == old(control)
      ensures isReceiving == old(isReceiving) && hasMessageCallback == old(hasMessageCallback)
      ensures hasEmptyCallback == old(hasEmptyCallback)
      ensures old(sharedBuffer) == null || !old(isProcessingQueue) ==>
        unchanged(this) && scheduled == 0 && !emptied
      ensures old(sharedBuffer) != null && old(isProcessingQueue) && old(messageQueue) == [] ==>
        messageQueue == [] && !isProcessingQueue && scheduled == 0 && !emptied
        && unchanged(sharedBuffer) && unchanged(control)
      ensures old(sharedBuffer) != null && old(isProcessingQueue) && old(messageQueue) != [] && old(control[R2N_SIGNAL]) != 0 ==>
        unchanged(this) && unchanged(sharedBuffer) && unchanged(control) && scheduled == 1 && !emptied
      ensures old(sharedBuffer) != null && old(isProcessingQueue) && old(messageQueue) != [] && old(control[R2N_SIGNAL]) == 0 ==>
        var n := PackCount(old(messageQueue), rendererToNativeSize);
        var bytes := Packed(old(messageQueue), rendererToNativeSize);
        && n >= 1
        && sharedBuffer[..] == Overwrite(old(sharedBuffer[..]), R2N_OFFSET, bytes)
        && control[..] == old(control[..])[R2N_LENGTH := ToInt32(|bytes|)][R2N_SIGNAL := 1]
        && messageQueue == old(messageQueue)[n..]
        && isProcessingQueue == (messageQueue != [])
        && emptied == (messageQueue == [] && hasEmptyCallback)
        && scheduled == (if messageQueue != [] then 1 else 0)
    {
      scheduled, emptied := 0, false;
      if sharedBuffer == null || !isProcessingQueue {
        return;
      }
      if |messageQueue| == 0 {
        isProcessingQueue := false;
        return;
      }
      if control[R2N_SIGNAL] != 0 {
        return 1, false;
      }
      var _ := PackAndSignal();
      if |messageQueue| == 0 {
        emptied := hasEmptyCallback;
        isProcessingQueue := false;
      }
      if isProcessingQueue {
        scheduled := 1;
      }
    }

    /** `stopReceiving`. */
    method StopReceiving()
      modifies this
      ensures !isReceiving
      ensures isProcessingQueue == old(isProcessingQueue) && messageQueue == old(messageQueue)
      ensures sharedBuffer == old(sharedBuffer) && control == old(control)
      ensures hasMessageCallback == old(hasMessageCallback) && hasEmptyCallback == old(hasEmptyCallback)
    {
      isReceiving := false;
    }

    /** `cleanup`: receiving and sending stop, the queue is emptied, the message callback is
        dropped, the throttle has nothing pending, and the buffer and its views are gone. */
    method Cleanup()
      modifies this, queueUpdateThrottle
      ensures Valid()
      ensures !isReceiving && !isProcessingQueue && messageQueue == [] && !hasMessageCallback
      ensures sharedBuffer == null && control == null
      ensures hasEmptyCallback == old(hasEmptyCallback)
      ensures !queueUpdateThrottle.IsPending()
      ensures queueUpdateThrottle.delay == old(queueUpdateThrottle.delay)
      ensures queueUpdateThrottle.lastRun == old(queueUpdateThrottle.lastRun)
      ensures old(queueUpdateThrottle.Tracked()) ==> queueUpdateThrottle.armed == map[] && queueUpdateThrottle.Spaced()
    {
      StopReceiving();
      isProcessingQueue := false;
      messageQueue := [];
      hasMessageCallback := false;
      queueUpdateThrottle.Cancel();
      sharedBuffer := null;
      control := null;
    }
  }

  /** The packing loop: copy queued messages into the region at `R2N_OFFSET`, back to back
      from its start, until one would overrun `room`; `count` messages, `packOffset` bytes. */
  method PackInto(buf: array<byte>, q: seq<seq<byte>>, room: nat) returns (packOffset: nat, count: nat)
    requires R2N_OFFSET + room <= buf.Length
    modifies buf
    ensures count == PackCount(q, room)
    ensures packOffset == |Packed(q, room)|
    ensures buf[..] == Overwrite(old(buf[..]), R2N_OFFSET, Packed(q, room))
  {
    packOffset := 0;
    var packLastIdx: int := -1;
    var i := 0;
    while i < |q|
      invariant 0 <= i <= |q| && packLastIdx == i - 1
      invariant packOffset == |Concat(q[..i])| <= room
      invariant PackCount(q, room) == i + PackCount(q[i..], room - packOffset)
      invariant buf[..] == Overwrite(old(buf[..]), R2N_OFFSET, Concat(q[..i]))
      decreases |q| - i
    {
      if packOffset + |q[i]| > room {
        break;
      }
      PackAdvance(old(buf[..]), q, i, room);
      CopyIn(buf, R2N_OFFSET + packOffset, q[i]);
      packOffset := packOffset + |q[i]|;
      packLastIdx := i;
      i := i + 1;
    }
    assert i < |q| ==> q[i..] != [] && q[i..][0] == q[i];
    count := packLastIdx + 1;
  }

  /** One turn of the packing loop: when message `i` fits the room left, copying it right
      after the messages already packed extends the packed bytes by it, and the count of
      messages packed from `i` on is one more than the count from `i + 1` on. */
  lemma PackAdvance(s0: seq<byte>, q: seq<seq<byte>>, i: nat, room: nat)
    requires i < |q| && |Concat(q[..i])| + |q[i]| <= room && R2N_OFFSET + room <= |s0|
    ensures Concat(q[..i + 1]) == Concat(q[..i]) + q[i]
    ensures Overwrite(Overwrite(s0, R2N_OFFSET, Concat(q[..i])), R2N_OFFSET + |Concat(q[..i])|, q[i])
      == Overwrite(s0, R2N_OFFSET, Concat(q[..i + 1]))
    ensures PackCount(q[i..], room - |Concat(q[..i])|) == 1 + PackCount(q[i + 1..], room - |Concat(q[..i + 1])|)
  {
    assert q[i..][0] == q[i] && q[i..][1..] == q[i + 1..];
    assert q[..i + 1] == q[..i] + [q[i]];
    ConcatSnoc(q[..i], q[i]);
    OverwriteAdjacent(s0, R2N_OFFSET, Concat(q[..i]), q[i]);
  }

  /** The overwrite the as-written step performs while the native side has not taken the last
      packet: with the R→N signal still raised over an unread one-byte message 5, a queued
      one-byte message 7 is packed over it. */
  lemma BusyStepOverwritesUnreadData()
    ensures var region: seq<byte> := [0, 0, 0, 0, 0, 0, 0, 0, 0, 0, 0, 0, 0, 0, 0, 0, 5];
      var queue: seq<seq<byte>> := [[7]];
      && PackCount(queue, 1) == 1
      && Overwrite(region, R2N_OFFSET, Packed(queue, 1))[R2N_OFFSET] == 7
      && region[R2N_OFFSET] == 5
  {
    var queue: seq<seq<byte>> := [[7]];
    assert PackCount(queue[1..], 0) == 0;
    assert queue[..1] == [[7]];
    assert Concat([[7]]) == [7] + Concat([]);
  }
}
