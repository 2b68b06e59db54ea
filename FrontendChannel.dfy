/** The frontend's version of the shared-memory channel
    (`APP/frontend/src/lib/SharedMemoryChannel.ts`): the same queue, layout and signals as the
    renderer version, but each step of the send loop waits until the native side has lowered
    the R→N signal and then sends only the message at the head of the queue. */
module FrontendChannel {
  import opened Bytes
  import opened ChannelMemory
  import Throttle

  /** What `send` did: returned at once for a closed channel, threw 'Message too long', or
      queued the message and possibly scheduled the first step. */
  datatype SendResult = NotOpen | MessageTooLong | Queued(scheduledStep: bool)

  /** What one step of the send loop did. */
  datatype StepResult =
    | Idle                                        // no buffer, or no step in progress
    | Finished                                    // the queue was empty: the loop ends
    | Busy                                        // the signal is raised: retry scheduled
    | Sent(emptied: bool, scheduledNext: bool)    // the head message went out

  class SharedMemoryChannel {
    const rendererToNativeSize: nat
    const nativeToRendererSize: nat
    var sharedBuffer: array?<byte>
    var control: array?<int>
    var isProcessingQueue: bool
    var isReceiving: bool
    var hasMessageCallback: bool
    var hasEmptyCallback: bool
    var messageQueue: seq<seq<byte>>
    const queueUpdateThrottle: Throttle.Throttle

    /** The buffer and the control words exist together and have the laid-out sizes, and every
        queued message fits the renderer-to-native region. */
    ghost predicate Valid()
      reads this
    {
      && (sharedBuffer == null <==> control == null)
      && (sharedBuffer != null ==> sharedBuffer.Length == BufferSize(rendererToNativeSize, nativeToRendererSize))
      && (control != null ==> control.Length == CONTROL_WORDS)
      && forall i :: 0 <= i < |messageQueue| ==> |messageQueue[i]| <= rendererToNativeSize
    }

    /** `new SharedMemoryChannel(r2n, n2r)` (both default to 1024): a zeroed buffer of
        16 + r2n + n2r bytes, zeroed control words, an empty queue, nothing in progress, and a
        throttle with a 100 ms delay. */
    constructor (rendererToNativeSize: nat, nativeToRendererSize: nat)
      ensures Valid()
      ensures this.rendererToNativeSize == rendererToNativeSize && this.nativeToRendererSize == nativeToRendererSize
      ensures sharedBuffer != null && fresh(sharedBuffer) && fresh(control)
      ensures sharedBuffer.Length == BufferSize(rendererToNativeSize, nativeToRendererSize)
      ensures forall i :: 0 <= i < sharedBuffer.Length ==> sharedBuffer[i] == 0
      ensures control != null && control[..] == [0, 0, 0, 0]
      ensures messageQueue == [] && !isProcessingQueue && !isReceiving
      ensures !hasMessageCallback && !hasEmptyCallback
      ensures fresh(queueUpdateThrottle) && queueUpdateThrottle.delay == 100 && !queueUpdateThrottle.IsPending()
      ensures queueUpdateThrottle.Spaced() && queueUpdateThrottle.armed == map[]
    {
      this.rendererToNativeSize := rendererToNativeSize;
      this.nativeToRendererSize := nativeToRendererSize;
      messageQueue := [];
      isProcessingQueue := false;
      isReceiving := false;
      hasMessageCallback := false;
      hasEmptyCallback := false;
      queueUpdateThrottle := new Throttle.Throttle(100);
      sharedBuffer := new byte[BufferSize(rendererToNativeSize, nativeToRendererSize)](_ => 0);
      control := new int[CONTROL_WORDS](_ => 0);
      new;
      assert control[..] == [0, 0, 0, 0];
    }

    /** `send(messageBytes)`: a message longer than the renderer-to-native region is refused
        and nothing changes; otherwise it joins the back of the queue, and the first step is
        scheduled when no step was in progress. */
    method Send(message: seq<byte>) returns (r: SendResult)
      requires Valid()
      modifies this
      ensures Valid()
      ensures sharedBuffer == old(sharedBuffer) && control == old(control)
      ensures isReceiving == old(isReceiving) && hasMessageCallback == old(hasMessageCallback)
      ensures hasEmptyCallback == old(hasEmptyCallback)
      ensures old(sharedBuffer) == null ==> r == NotOpen && unchanged(this)
      ensures old(sharedBuffer) != null && |message| > rendererToNativeSize ==>
        r == MessageTooLong && unchanged(this)
      ensures old(sharedBuffer) != null && |message| <= rendererToNativeSize ==>
        && messageQueue == old(messageQueue) + [message]
        && isProcessingQueue
        && r == Queued(!old(isProcessingQueue))
    {
      if sharedBuffer == null {
        return NotOpen;
      }
      if |message| > rendererToNativeSize {
        return MessageTooLong;
      }
      messageQueue := messageQueue + [message];
      if !isProcessingQueue {
        isProcessingQueue := true;
        return Queued(true);
      }
      r := Queued(false);
    }

    /** `_processSendQueue`: with no buffer or no step in progress it does nothing; on an empty
        queue it ends the send loop; while the R→N signal is raised it only schedules a retry.
        Otherwise the head message is copied to the start of the renderer-to-native region,
        its length is published, it leaves the queue, and the signal is raised; when the queue
        is then empty the empty callback fires and the loop ends, and otherwise the next step
        is scheduled. (The packing branch of the source is switched off by a constant and is
        not modelled.) */
    method ProcessSendQueue() returns (r: StepResult)
      requires Valid()
      modifies this, sharedBuffer, control
      ensures Valid()
      ensures sharedBuffer == old(sharedBuffer) && control == old(control)
      ensures isReceiving == old(isReceiving) && hasMessageCallback == old(hasMessageCallback)
      ensures hasEmptyCallback == old(hasEmptyCallback)
      ensures old(sharedBuffer) == null || !old(isProcessingQueue) ==> r == Idle && unchanged(this)
      ensures old(sharedBuffer) != null && old(isProcessingQueue) && old(messageQueue) == [] ==>
        r == Finished && messageQueue == [] && !isProcessingQueue
        && unchanged(sharedBuffer) && unchanged(control)
      ensures old(sharedBuffer) != null && old(isProcessingQueue) && old(messageQueue) != [] && old(control[R2N_SIGNAL]) != 0 ==>
        r == Busy && unchanged(this) && unchanged(sharedBuffer) && unchanged(control)
      ensures old(sharedBuffer) != null && old(isProcessingQueue) && old(messageQueue) != [] && old(control[R2N_SIGNAL]) == 0 ==>
        var head := old(messageQueue)[0];
        && sharedBuffer[..] == Overwrite(old(sharedBuffer[..]), R2N_OFFSET, head)
        && control[..] == old(control[..])[R2N_LENGTH := ToInt32(|head|)][R2N_SIGNAL := 1]
        && messageQueue == old(messageQueue)[1..]
        && isProcessingQueue == (messageQueue != [])
        && r == Sent(messageQueue == [] && hasEmptyCallback, messageQueue != [])
    {
      if sharedBuffer == null || !isProcessingQueue {
        return Idle;
      }
      if |messageQueue| == 0 {
        isProcessingQueue := false;
        return Finished;
      }
      if control[R2N_SIGNAL] != 0 {
        return Busy;
      }
      var head := messageQueue[0];
      assert |head| <= rendererToNativeSize;
      CopyIn(sharedBuffer, R2N_OFFSET, head);
      control[R2N_LENGTH] := ToInt32(|head|);
      messageQueue := messageQueue[1..];
      control[R2N_SIGNAL] := 1;
      var emptied := false;
      if |messageQueue| == 0 {
        emptied := hasEmptyCallback;
        isProcessingQueue := false;
      }
      r := Sent(emptied, isProcessingQueue);
    }

    /** `stopReceiving`. */
    method StopReceiving()
      modifies this
      ensures !isReceiving
      ensures isProcessingQueue == old(isProcessingQueue) && messageQueue == old(messageQueue)
      ensures sharedBuffer == old(sharedBuffer) && control == old(control)
      ensures hasMessageCallback == old(hasMessageCallback) && hasEmptyCallback == old(hasEmptyCallback)
    {
      isReceiving := false;
    }

    /** `cleanup`: receiving and sending stop, the queue is emptied, the message callback is
        dropped, the throttle has nothing pending, and the buffer and its views are gone. */
    method Cleanup()
      modifies this, queueUpdateThrottle
      ensures Valid()
      ensures !isReceiving && !isProcessingQueue && messageQueue == [] && !hasMessageCallback
      ensures sharedBuffer == null && control == null
      ensures hasEmptyCallback == old(hasEmptyCallback)
      ensures !queueUpdateThrottle.IsPending()
      ensures queueUpdateThrottle.delay == old(queueUpdateThrottle.delay)
      ensures queueUpdateThrottle.lastRun == old(queueUpdateThrottle.lastRun)
      ensures old(queueUpdateThrottle.Tracked()) ==> queueUpdateThrottle.armed == map[] && queueUpdateThrottle.Spaced()
    {
      StopReceiving();
      isProcessingQueue := false;
      messageQueue := [];
      hasMessageCallback := false;
      queueUpdateThrottle.Cancel();
      sharedBuffer := null;
      control := null;
    }
  }
}
