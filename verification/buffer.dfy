/**
 A model of the PgQueuer `JobBuffer`: a batching buffer that collects
 (job, status) pairs and hands the whole pending batch to a flush callback
 when the count reaches `maxSize`. The job and status types are opaque type
 parameters. Clock readings are integer instants supplied by the caller, and
 the callback is an oracle: the caller says whether it returns or raises, and
 the step reports the batch the callback was handed.

 `add_job` and each monitor timeout check run under one lock; a direct
 `flush_jobs` call does not. Each operation is modelled as one atomic step
 over an immutable state record, which leaves that manual-flush race out.
 */
module Buffers {

  datatype Option<T> = None | Some(value: T)

  /** The buffer's state. `maxSize` and `timeout` are fixed at construction;
      `alive` is the flag the monitor loop tests before each sleep. */
  datatype Buffer<J, S> = Buffer(
    maxSize: int,
    timeout: int,
    events: seq<(J, S)>,
    lastEventTime: int,
    alive: bool)

  /** One invocation of the flush callback: the batch it was handed, and
      whether it returned (`ok`) or raised. */
  datatype Call<J, S> = Call(batch: seq<(J, S)>, ok: bool)

  /** The state after an operation, and the callback invocation it made, if any. */
  datatype Step<J, S> = Step(buf: Buffer<J, S>, call: Option<Call<J, S>>)
  {
    /** True when the operation ended by propagating a callback failure. */
    predicate Raised() {
      call.Some? && !call.value.ok
    }
  }

  /** Same thresholds and monitor flag: what no add or flush ever changes. */
  predicate SameConfig<J, S>(a: Buffer<J, S>, b: Buffer<J, S>) {
    a.maxSize == b.maxSize && a.timeout == b.timeout && a.alive == b.alive
  }

  /** `JobBuffer.__init__`: nothing pending, the clock read once, the flag set. */
  function New<J, S>(maxSize: int, timeout: int, now: int): (b: Buffer<J, S>)
    ensures b.maxSize == maxSize && b.timeout == timeout
    ensures |b.events| == 0
    ensures b.lastEventTime == now
    ensures b.alive
  {
    Buffer(maxSize, timeout, [], now, true)
  }

  /** `JobBuffer.flush_jobs`: an empty buffer makes no call and stays as it is;
      otherwise the callback gets every pending event in insertion order, and
      the events are dropped only if it returns. */
  function Flush<J, S>(b: Buffer<J, S>, sinkOk: bool): (st: Step<J, S>)
    ensures SameConfig(st.buf, b)
    ensures st.buf.lastEventTime == b.lastEventTime
    ensures |b.events| == 0 <==> st.call.None?
    ensures |b.events| == 0 ==> st.buf == b
    ensures st.call.Some? ==> st.call.value == Call(b.events, sinkOk)
    ensures st.Raised() ==> st.buf == b
    ensures sinkOk ==> |st.buf.events| == 0
    ensures !sinkOk ==> st.buf == b
  {
    if |b.events| == 0 then Step(b, None)
    else if sinkOk then Step(b.(events := []), Some(Call(b.events, true)))
    else Step(b, Some(Call(b.events, false)))
  }

  /** `JobBuffer.add_job`: append the pair, stamp the clock, and flush once the
      count reaches `maxSize`. A raising callback leaves the new event pending. */
  function Add<J, S>(b: Buffer<J, S>, job: J, status: S, now: int, sinkOk: bool): (st: Step<J, S>)
    ensures SameConfig(st.buf, b)
    ensures st.buf.lastEventTime == now
    ensures |b.events| + 1 < b.maxSize ==>
              st.call.None? && st.buf.events == b.events + [(job, status)]
    ensures |b.events| + 1 >= b.maxSize ==>
              st.call == Some(Call(b.events + [(job, status)], sinkOk))
    ensures st.call.Some? && sinkOk ==> |st.buf.events| == 0
    ensures !sinkOk ==> st.buf.events == b.events + [(job, status)]
  {
    var pending := b.(events := b.events + [(job, status)], lastEventTime := now);
    if |pending.events| >= pending.maxSize then Flush(pending, sinkOk)
    else Step(pending, None)
  }

  /** Clearing the `alive` event from outside: only the monitor reads it. */
  function ClearAlive<J, S>(b: Buffer<J, S>): (r: Buffer<J, S>)
    ensures !r.alive
    ensures r.maxSize == b.maxSize && r.timeout == b.timeout
    ensures r.events == b.events && r.lastEventTime == b.lastEventTime
  {
    b.(alive := false)
  }

  /** While the pending count is below `maxSize`, an add calls the callback
      exactly when it brings the count up to `maxSize`, and that batch holds
      exactly `maxSize` events. */
  lemma AddTriggersAtCapacity<J, S>(b: Buffer<J, S>, job: J, status: S, now: int, sinkOk: bool)
    requires |b.events| < b.maxSize
    ensures Add(b, job, status, now, sinkOk).call.Some? <==> |b.events| + 1 == b.maxSize
    ensures Add(b, job, status, now, sinkOk).call.Some? ==>
              |Add(b, job, status, now, sinkOk).call.value.batch| == b.maxSize
  {
  }
}
