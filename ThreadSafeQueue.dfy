/** `ThreadSafeQueue<T>` (`native/thread_safe_queue.h`): a FIFO queue with an interrupt flag.
    An interrupted queue accepts nothing and hands nothing out until the flag is reset. The
    mutex and the condition variable are not modelled: each operation is one atomic step, and
    `wait_and_pop` is modelled from the moment its wait returns. */
module ThreadSafeQueue {

  /** The queue contents, front first, and the interrupt flag. */
  datatype QueueState<T> = QueueState(items: seq<T>, interrupted: bool)

  /** What a popping call returns, what its `item` reference holds afterwards, and the new
      queue state. */
  datatype PopOutcome<T> = PopOutcome(ok: bool, item: T, state: QueueState<T>)

  /** `push`: the item joins the back, unless the queue is interrupted. */
  function PushOnto<T>(s: QueueState<T>, x: T): (r: QueueState<T>)
    ensures r.interrupted == s.interrupted
    ensures s.interrupted ==> r == s
    ensures !s.interrupted ==> r.items == s.items + [x]
  {
    if s.interrupted then s else s.(items := s.items + [x])
  }

  /** `pop`: on an empty or interrupted queue it fails and leaves `item` and the queue as they
      were; otherwise it hands out the front item and removes it. */
  function PopFrom<T>(s: QueueState<T>, item: T): (r: PopOutcome<T>)
    ensures r.state.interrupted == s.interrupted
    ensures r.ok <==> s.items != [] && !s.interrupted
    ensures !r.ok ==> r.item == item && r.state == s
    ensures r.ok ==> r.item == s.items[0] && r.state.items == s.items[1..]
  {
    if s.items == [] || s.interrupted then PopOutcome(false, item, s)
    else PopOutcome(true, s.items[0], s.(items := s.items[1..]))
  }

  /** `wait_and_pop` once its wait has returned: it fails whenever the caller asked to stop or
      the queue is interrupted, even with items queued, and otherwise pops. */
  function WaitAndPopFrom<T>(s: QueueState<T>, shouldContinue: bool, item: T): (r: PopOutcome<T>)
    ensures !shouldContinue || s.interrupted ==> !r.ok && r.item == item && r.state == s
  {
    if !shouldContinue || s.interrupted then PopOutcome(false, item, s)
    else if s.items != [] then PopOutcome(true, s.items[0], s.(items := s.items[1..]))
    else PopOutcome(false, item, s)
  }

  /** A caller that wants to continue, woken on a queue that is not interrupted, gets exactly
      what `pop` would give it. */
  lemma WaitAndPopIsPop<T>(s: QueueState<T>, shouldContinue: bool, item: T)
    ensures shouldContinue ==> WaitAndPopFrom(s, shouldContinue, item) == PopFrom(s, item)
    ensures !shouldContinue ==> !WaitAndPopFrom(s, shouldContinue, item).ok
  {
  }

  /** The states reached by pushing `xs` one after another. */
  function PushAll<T>(s: QueueState<T>, xs: seq<T>): QueueState<T>
    decreases |xs|
  {
    if xs == [] then s else PushAll(PushOnto(s, xs[0]), xs[1..])
  }

  /** The items handed out by popping until a pop fails. */
  function PopAll<T>(s: QueueState<T>, item: T): seq<T>
    decreases |s.items|
  {
    var o := PopFrom(s, item);
    if !o.ok then [] else [o.item] + PopAll(o.state, item)
  }

  /** Pushing onto a queue that is not interrupted appends, in order. */
  lemma {:induction false} PushAllAppends<T>(s: QueueState<T>, xs: seq<T>)
    requires !s.interrupted
    ensures PushAll(s, xs) == QueueState(s.items + xs, false)
    decreases |xs|
  {
    if xs != [] {
      PushAllAppends(PushOnto(s, xs[0]), xs[1..]);
      assert s.items + [xs[0]] + xs[1..] == s.items + xs;
    }
  }

  /** Popping a queue that is not interrupted hands out its items front first. */
  lemma {:induction false} PopAllInOrder<T>(items: seq<T>, item: T)
    ensures PopAll(QueueState(items, false), item) == items
    decreases |items|
  {
    if items != [] {
      PopAllInOrder(items[1..], item);
    }
  }

  /** First in, first out: items pushed onto a fresh queue come out in the order they went in. */
  lemma FirstInFirstOut<T>(xs: seq<T>, item: T)
    ensures PopAll(PushAll(QueueState([], false), xs), item) == xs
  {
    PushAllAppends(QueueState([], false), xs);
    assert [] + xs == xs;
    PopAllInOrder(xs, item);
  }

  /** An interrupted queue keeps its contents whatever is pushed, and hands nothing out. */
  lemma {:induction false} InterruptedIgnoresPushes<T>(s: QueueState<T>, xs: seq<T>, item: T)
    requires s.interrupted
    ensures PushAll(s, xs) == s
    ensures PopAll(s, item) == []
    decreases |xs|
  {
    if xs != [] {
      InterruptedIgnoresPushes(s, xs[1..], item);
    }
  }

  class ThreadSafeQueue<T> {
    var items: seq<T>
    var interrupted: bool

    function State(): QueueState<T>
      reads this
    {
      QueueState(items, interrupted)
    }

    /** A new queue is empty and not interrupted. */
    constructor ()
      ensures State() == QueueState([], false)
    {
      items := [];
      interrupted := false;
    }

    /** `push` (both the copying and the moving overload). */
    method Push(item: T)
      modifies this
      ensures State() == PushOnto(old(State()), item)
    {
      if !interrupted {
        items := items + [item];
      }
    }

    /** `pop(item)`: `itemOut` is what the reference holds afterwards. */
    method Pop(item: T) returns (ok: bool, itemOut: T)
      modifies this
      ensures PopOutcome(ok, itemOut, State()) == PopFrom(old(State()), item)
    {
      if |items| == 0 || interrupted {
        return false, item;
      }
      itemOut := items[0];
      items := items[1..];
      ok := true;
    }

    /** `wait_and_pop(item, should_continue)` from the moment its wait returns. */
    method WaitAndPop(item: T, shouldContinue: bool) returns (ok: bool, itemOut: T)
      modifies this
      ensures PopOutcome(ok, itemOut, State()) == WaitAndPopFrom(old(State()), shouldContinue, item)
    {
      if !shouldContinue || interrupted {
        return false, item;
      }
      if |items| > 0 {
        itemOut := items[0];
        items := items[1..];
        return true, itemOut;
      }
      return false, item;
    }

    /** `empty`. */
    method Empty() returns (r: bool)
      ensures r <==> items == []
    {
      r := |items| == 0;
    }

    /** `size`. */
    method Size() returns (r: nat)
      ensures r == |items|
    {
      r := |items|;
    }

    /** `clear`: the queue is emptied; the interrupt flag is kept. */
    method Clear()
      modifies this
      ensures items == [] && interrupted == old(interrupted)
    {
      items := [];
    }

    /** `interrupt`: the flag is raised; the contents are kept. */
    method Interrupt()
      modifies this
      ensures interrupted && items == old(items)
    {
      interrupted := true;
    }

    /** `reset_interrupt`: the flag is lowered; the contents are kept. */
    method ResetInterrupt()
      modifies this
      ensures !interrupted && items == old(items)
    {
      interrupted := false;
    }

    /** `is_interrupted`. */
    method IsInterrupted() returns (r: bool)
      ensures r == interrupted
    {
      r := interrupted;
    }
  }
}
