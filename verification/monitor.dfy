/**
 The `JobBuffer.monitor` loop, one iteration split at its suspension point:
 `Guard` is the `while alive` test followed by the start of the sleep, and
 `Wake` is the end of the sleep followed by the timeout check under the lock.
 Splitting there shows that clearing `alive` during a sleep does not stop the
 wake that follows it.
 */
module Monitor {
  import opened Buffers

  /** Where the monitor coroutine stands: about to test `alive`, asleep since
      an instant, or returned from `monitor()`. */
  datatype Loop = AtGuard | Asleep(since: int) | Exited

  datatype Tick<J, S> = Tick(step: Step<J, S>, loop: Loop)

  /** True when a wake at `now` finds the buffer quiet for at least `timeout`. */
  predicate TimedOut<J, S>(b: Buffer<J, S>, now: int) {
    now - b.lastEventTime >= b.timeout
  }

  /** The loop test: go to sleep at `now` while `alive` is set, otherwise
      leave the loop. In any other position this is a stutter step. */
  function Guard<J, S>(b: Buffer<J, S>, loop: Loop, now: int): (r: Loop)
    ensures loop.AtGuard? && b.alive ==> r == Asleep(now)
    ensures loop.AtGuard? && !b.alive ==> r.Exited?
    ensures !loop.AtGuard? ==> r == loop
  {
    if loop.AtGuard? then (if b.alive then Asleep(now) else Exited) else loop
  }

  /** The end of one sleep: flush iff the time since the last accepted event
      is at least `timeout`. The monitor ignores `alive` here. A raising
      callback propagates out of `monitor()`, so the loop ends. Outside a
      sleep this is a stutter step. */
  function Wake<J, S>(b: Buffer<J, S>, loop: Loop, now: int, sinkOk: bool): (t: Tick<J, S>)
    ensures SameConfig(t.step.buf, b)
    ensures t.step.buf.lastEventTime == b.lastEventTime
    ensures !loop.Asleep? ==> t == Tick(Step(b, None), loop)
    ensures loop.Asleep? && !TimedOut(b, now) ==> t == Tick(Step(b, None), AtGuard)
    ensures loop.Asleep? && TimedOut(b, now) ==> t.step == Flush(b, sinkOk)
    ensures loop.Asleep? ==> (t.step.call.Some? <==> TimedOut(b, now) && |b.events| > 0)
    ensures loop.Asleep? ==> (t.loop.Exited? <==> t.step.Raised())
    ensures loop.Asleep? && !t.step.Raised() ==> t.loop.AtGuard?
  {
    if !loop.Asleep? then Tick(Step(b, None), loop)
    else if TimedOut(b, now) then
      var st := Flush(b, sinkOk);
      Tick(st, if st.Raised() then Exited else AtGuard)
    else Tick(Step(b, None), AtGuard)
  }

  /** A sleep of the full timeout with no add during it always ends in a
      timeout check that succeeds: the monitor's worst-case latency for a
      pending batch is one sleep after the last event. */
  lemma QuiescentSleepFlushes<J, S>(b: Buffer<J, S>, since: int, now: int, sinkOk: bool)
    requires b.lastEventTime <= since
    requires now >= since + b.timeout
    ensures Wake(b, Asleep(since), now, sinkOk).step == Flush(b, sinkOk)
    ensures |b.events| > 0 ==>
              Wake(b, Asleep(since), now, sinkOk).step.call == Some(Call(b.events, sinkOk))
  {
  }

  /** Clearing `alive` while the monitor sleeps does not cancel the wake: one
      more timeout check, and so one more flush, still runs, and only the
      next guard leaves the loop. */
  lemma ClearDuringSleep<J, S>(b: Buffer<J, S>, since: int, now: int, later: int)
    requires TimedOut(b, now) && |b.events| > 0
    ensures Wake(ClearAlive(b), Asleep(since), now, true).step.call == Some(Call(b.events, true))
    ensures Wake(ClearAlive(b), Asleep(since), now, true).loop == AtGuard
    ensures Guard(Wake(ClearAlive(b), Asleep(since), now, true).step.buf, AtGuard, later) == Exited
  {
  }
}
