/** `Throttle` (`throttle.js`): runs a function no sooner than `delay` milliseconds after its
    previous run. The clock reading (`Date.now()`) is passed in as `now`. Timeouts are given
    ids: `armed` holds the timeouts the runtime will still fire, and `timer` is the handle the
    object keeps (`this.timer`). `cancel` and `isPending` see only the handle, so they are
    right about what is pending exactly while the handle names the one armed timeout
    (`Tracked`). The expiry of a timeout is the separate step `Fire`, during which the
    throttled function may call `schedule` again. */
module Throttle {
  import opened Bytes

  /** A timeout: the time it was set and the wait it was given. */
  datatype Timer = Timer(setAt: int, wait: int)

  /** What the throttled function does to the throttle while a timeout runs it: nothing, or
      one `schedule(g, immediate)` call. */
  datatype Reentry = NoCall | Reschedule(immediate: bool)

  /** `Math.max(0, delay - (now - lastRun))`: how long to wait, at `now`, until a run respects
      the delay. It is zero exactly when the delay has passed since the last run, and it never
      exceeds the delay while the clock has not gone back before the last run. */
  function Wait(delay: int, lastRun: int, now: int): (r: int)
    ensures r >= 0
    ensures r == 0 <==> now - lastRun >= delay
    ensures now >= lastRun && delay >= 0 ==> r <= delay
  {
    var d := delay - (now - lastRun);
    if d > 0 then d else 0
  }

  /** A run that waits `Wait(delay, lastRun, now)` after `now` comes at least `delay` after the
      last run, and no later than needed: it comes exactly `delay` after the last run unless
      that moment has already passed, in which case it comes at `now`. */
  lemma WaitRespectsDelay(delay: int, lastRun: int, now: int)
    ensures now + Wait(delay, lastRun, now) - lastRun >= delay
    ensures now + Wait(delay, lastRun, now) == if lastRun + delay > now then lastRun + delay else now
  {
  }

  /** `clearTimeout(handle)` for a handle that may be null: the named timeout, if any, will no
      longer fire. */
  function Cleared(armed: map<nat, Timer>, handle: Option<nat>): (r: map<nat, Timer>)
    ensures handle.None? ==> r == armed
    ensures handle.Some? ==> handle.value !in r && forall id :: id in armed && id != handle.value ==> id in r && r[id] == armed[id]
    ensures r.Keys <= armed.Keys
  {
    if handle.Some? then armed - {handle.value} else armed
  }

  class Throttle {
    var delay: int
    var timer: Option<nat>
    var armed: map<nat, Timer>
    var nextId: nat
    var lastRun: int
    var queued: bool

    /** Timeout ids are handed out in order, so a new one is never already armed. */
    ghost predicate Valid()
      reads this
    {
      forall id :: id in armed ==> id < nextId
    }

    /** At most one timeout is armed, and the handle names it. */
    predicate Tracked()
      reads this
    {
      if timer.None? then armed == map[] else armed.Keys == {timer.value}
    }

    /** Tracked, and the one armed timeout waits exactly as long as the delay, counted from
        the last run, requires: the state in which a run never comes too soon. */
    predicate Spaced()
      reads this
    {
      Tracked() && forall id :: id in armed ==> armed[id].wait == Wait(delay, lastRun, armed[id].setAt)
    }

    /** `new Throttle(delay)` (the delay defaults to 100 ms): nothing pending, never run
        (last run at time 0). */
    constructor (delay: int)
      ensures this.delay == delay && timer == None && armed == map[] && nextId == 0 && lastRun == 0 && !queued
      ensures Valid() && Spaced()
    {
      this.delay := delay;
      timer := None;
      armed := map[];
      nextId := 0;
      lastRun := 0;
      queued := false;
    }

    /** `schedule(fn, immediate)` at time `now`: the timeout the handle names is cleared
        first; then `fn` runs at once (`ranNow`) when immediate execution is asked for and
        the delay has passed, and otherwise a new timeout is set for the remaining wait and
        the handle names it. (When `fn` runs at once it runs inside `schedule`, but after
        every change `schedule` makes to the state, so a call it makes back into the throttle
        acts as the caller's next call would.) */
    method Schedule(now: int, immediate: bool) returns (ranNow: bool)
      requires Valid()
      modifies this
      ensures Valid()
      ensures delay == old(delay) && queued == old(queued)
      ensures ranNow <==> immediate && now - old(lastRun) >= old(delay)
      ensures ranNow ==>
        lastRun == now && timer == None && armed == Cleared(old(armed), old(timer)) && nextId == old(nextId)
      ensures !ranNow ==>
        && lastRun == old(lastRun) && timer == Some(old(nextId)) && nextId == old(nextId) + 1
        && armed == Cleared(old(armed), old(timer))[old(nextId) := Timer(now, Wait(old(delay), old(lastRun), now))]
      ensures old(Tracked()) ==> Tracked()
      ensures old(Spaced()) ==> Spaced()
    {
      var timeSinceLastRun := now - lastRun;
      if timer.Some? {
        armed := armed - {timer.value};
        timer := None;
      }
      if timeSinceLastRun >= delay && immediate {
        lastRun := now;
        return true;
      }
      var wait := delay - timeSinceLastRun;
      armed := armed[nextId := Timer(now, if 0 > wait then 0 else wait)];
      timer := Some(nextId);
      nextId := nextId + 1;
      ranNow := false;
    }

    /** The timeout `id` expires at `now`, as written: the run is recorded, `fn` runs (and may
        call `schedule`), and only then is the handle set to null, whatever `fn` stored in
        it. */
    method Fire(id: nat, now: int, reentry: Reentry)
      requires Valid() && id in armed && now >= armed[id].setAt + armed[id].wait
      modifies this
      ensures Valid()
      ensures delay == old(delay) && queued == old(queued) && lastRun == now && timer == None
      ensures var rest := Cleared(old(armed) - {id}, if reentry.NoCall? then None else old(timer));
        if reentry.NoCall? || (reentry.immediate && old(delay) <= 0) then
          armed == rest && nextId == old(nextId)
        else
          armed == rest[old(nextId) := Timer(now, Wait(old(delay), now, now))] && nextId == old(nextId) + 1
      ensures old(Spaced()) ==> now - old(lastRun) >= old(delay)
    {
      if Spaced() {
        DeferredRunRespectsDelay(delay, lastRun, armed[id], now);
      }
      armed := armed - {id};
      lastRun := now;
      if reentry.Reschedule? {
        var _ := Schedule(now, reentry.immediate);
      }
      timer := None;
    }

    /** The timeout `id` expires at `now`, with the handle set to null before `fn` runs, so a
        timeout `fn` sets is the one the handle names afterwards. */
    method FireGuarded(id: nat, now: int, reentry: Reentry)
      requires Valid() && id in armed && now >= armed[id].setAt + armed[id].wait
      modifies this
      ensures Valid()
      ensures delay == old(delay) && queued == old(queued) && lastRun == now
      ensures if reentry.NoCall? || (reentry.immediate && old(delay) <= 0) then
          armed == old(armed) - {id} && timer == None && nextId == old(nextId)
        else
          && armed == (old(armed) - {id})[old(nextId) := Timer(now, Wait(old(delay), now, now))]
          && timer == Some(old(nextId)) && nextId == old(nextId) + 1
      ensures old(Tracked()) ==> Tracked()
      ensures old(Spaced()) ==> now - old(lastRun) >= old(delay) && Spaced()
    {
      if Spaced() {
        DeferredRunRespectsDelay(delay, lastRun, armed[id], now);
      }
      armed := armed - {id};
      lastRun := now;
      timer := None;
      if reentry.Reschedule? {
        var _ := Schedule(now, reentry.immediate);
      }
    }

    /** `cancel`: the timeout the handle names is cleared and nothing is pending afterwards;
        the last run is kept. While `Tracked`, no timeout is left armed. */
    method Cancel()
      modifies this
      ensures delay == old(delay) && lastRun == old(lastRun) && queued == old(queued) && nextId == old(nextId)
      ensures timer == None && armed == Cleared(old(armed), old(timer))
      ensures old(Tracked()) ==> armed == map[] && Spaced()
    {
      if timer.Some? {
        armed := armed - {timer.value};
        timer := None;
      }
    }

    /** `setDelay`: only the delay changes. */
    method SetDelay(newDelay: int)
      modifies this
      ensures delay == newDelay
      ensures timer == old(timer) && armed == old(armed) && nextId == old(nextId)
      ensures lastRun == old(lastRun) && queued == old(queued)
    {
      delay := newDelay;
    }

    /** `isPending`: the handle is set. While `Tracked`, that is exactly when a timeout is
        armed. */
    function IsPending(): (r: bool)
      reads this
      ensures Tracked() ==> (r <==> armed != map[])
    {
      timer.Some?
    }

    /** `getTimeUntilNextRun` at time `now`. */
    function TimeUntilNextRun(now: int): int
      reads this
    {
      Wait(delay, lastRun, now)
    }
  }

  /** A deferred run that fires when its timeout expires comes at least `delay` after the run
      before it, provided the delay was not changed in between. */
  lemma DeferredRunRespectsDelay(delay: int, lastRun: int, t: Timer, now: int)
    requires t.wait == Wait(delay, lastRun, t.setAt) && now >= t.setAt + t.wait
    ensures now - lastRun >= delay
  {
    WaitRespectsDelay(delay, lastRun, t.setAt);
  }

  /** As written: a throttled function that schedules again while its timeout runs leaves a
      live timeout that the handle no longer names. A later `schedule` then leaves two armed,
      and `cancel` stops only one; afterwards `isPending` is false while a run is still due. */
  method RescheduleLosesHandle() returns (armedAfterSchedule: nat, pendingAfterCancel: bool, armedAfterCancel: nat)
    ensures armedAfterSchedule == 2 && !pendingAfterCancel && armedAfterCancel == 1
  {
    var t := new Throttle(100);
    var _ := t.Schedule(0, false);
    assert t.armed == map[0 := Timer(0, 100)];
    t.Fire(0, 100, Reschedule(false));
    assert t.armed == map[1 := Timer(100, 100)] && t.timer == None;
    var _ := t.Schedule(150, false);
    assert t.armed == map[1 := Timer(100, 100), 2 := Timer(150, 50)];
    armedAfterSchedule := |t.armed|;
    t.Cancel();
    assert t.armed == map[1 := Timer(100, 100)];
    pendingAfterCancel := t.IsPending();
    armedAfterCancel := |t.armed|;
  }

  /** As written, the timeout the handle lost still fires: with a delay of 100, the function
      runs at 200 from the timeout set by the later `schedule`, and again at 200 from the one
      it set itself, 0 ms after the run before. */
  method RescheduleRunsTwice() returns (firstRun: int, secondRun: int)
    ensures firstRun == 200 && secondRun == 200
  {
    var t := new Throttle(100);
    var _ := t.Schedule(0, false);
    assert t.armed == map[0 := Timer(0, 100)];
    t.Fire(0, 100, Reschedule(false));
    assert t.armed == map[1 := Timer(100, 100)];
    var _ := t.Schedule(150, false);
    assert t.armed == map[1 := Timer(100, 100), 2 := Timer(150, 50)];
    t.Fire(2, 200, NoCall);
    firstRun := t.lastRun;
    assert t.armed == map[1 := Timer(100, 100)];
    t.Fire(1, 200, NoCall);
    secondRun := t.lastRun;
  }

  /** Corrected: with the handle cleared before the function runs, the same calls leave one
      timeout armed after the later `schedule`, and `cancel` stops it. */
  method GuardedRescheduleCancels() returns (armedAfterSchedule: nat, pendingAfterCancel: bool, armedAfterCancel: nat)
    ensures armedAfterSchedule == 1 && !pendingAfterCancel && armedAfterCancel == 0
  {
    var t := new Throttle(100);
    var _ := t.Schedule(0, false);
    assert t.armed == map[0 := Timer(0, 100)];
    t.FireGuarded(0, 100, Reschedule(false));
    assert t.armed == map[1 := Timer(100, 100)] && t.timer == Some(1);
    var _ := t.Schedule(150, false);
    assert t.armed == map[2 := Timer(150, 50)];
    armedAfterSchedule := |t.armed|;
    t.Cancel();
    pendingAfterCancel := t.IsPending();
    armedAfterCancel := |t.armed|;
  }
}
