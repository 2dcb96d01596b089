/**
 Traces of serialised operations on one `JobBuffer` and its monitor task.
 `add_job` and each monitor timeout check run under one lock, so they are
 whole steps; a direct `flush_jobs` call takes no lock and is treated as a
 whole step too, which leaves its race with a locked add out. `Run` folds a
 sequence of operations into the final state and the log of every callback
 invocation, tagged with the path that made it.
 */
module Trace {
  import opened Buffers
  import opened Monitor

  /** One serialised step. Each step that may call the callback carries
      whether that call returns (`true`) or raises (`false`). */
  datatype Op<J, S> =
    | AddJob(job: J, status: S, now: int, sinkOk: bool)
    | FlushJobs(sinkOk: bool)
    | MonitorGuard(now: int)
    | MonitorWake(now: int, sinkOk: bool)
    | StopMonitor

  /** Which path invoked the callback: the size check in `add_job`, an outside
      call of `flush_jobs`, or the monitor's timeout check. */
  datatype Trigger = BySize | ByCaller | ByMonitor

  datatype Entry<J, S> = Entry(call: Call<J, S>, via: Trigger)

  datatype Sys<J, S> = Sys(buf: Buffer<J, S>, loop: Loop)

  /** A state reached, with the callback invocations made on the way. */
  datatype Moved<J, S> = Moved(sys: Sys<J, S>, log: seq<Entry<J, S>>)

  function Logged<J, S>(c: Option<Call<J, S>>, via: Trigger): (log: seq<Entry<J, S>>)
    ensures |log| <= 1
  {
    if c.Some? then [Entry(c.value, via)] else []
  }

  /** A fresh buffer with its monitor task about to enter the loop. */
  function Start<J, S>(maxSize: int, timeout: int, now: int): (sys: Sys<J, S>)
    ensures sys.buf == New(maxSize, timeout, now)
    ensures sys.loop.AtGuard?
  {
    Sys(New(maxSize, timeout, now), AtGuard)
  }

  /** One operation as a whole step: the state it leaves and the callback
      invocation it made, tagged with its path. */
  function Apply<J, S>(sys: Sys<J, S>, op: Op<J, S>): (m: Moved<J, S>)
    ensures |m.log| <= 1
    ensures m.sys.buf.maxSize == sys.buf.maxSize && m.sys.buf.timeout == sys.buf.timeout
    ensures !sys.buf.alive ==> !m.sys.buf.alive
  {
    match op
    case AddJob(job, status, now, ok) =>
      var st := Add(sys.buf, job, status, now, ok);
      Moved(Sys(st.buf, sys.loop), Logged(st.call, BySize))
    case FlushJobs(ok) =>
      var st := Flush(sys.buf, ok);
      Moved(Sys(st.buf, sys.loop), Logged(st.call, ByCaller))
    case MonitorGuard(now) =>
      Moved(Sys(sys.buf, Guard(sys.buf, sys.loop, now)), [])
    case MonitorWake(now, ok) =>
      var t := Wake(sys.buf, sys.loop, now, ok);
      Moved(Sys(t.step.buf, t.loop), Logged(t.step.call, ByMonitor))
    case StopMonitor =>
      Moved(Sys(ClearAlive(sys.buf), sys.loop), [])
  }

  /** Every operation of a trace in order. Each operation invokes the
      callback at most once, the thresholds never change, and nothing sets
      `alive` again once it is cleared. */
  function Run<J, S>(sys: Sys<J, S>, ops: seq<Op<J, S>>): (m: Moved<J, S>)
    ensures |m.log| <= |ops|
    ensures m.sys.buf.maxSize == sys.buf.maxSize && m.sys.buf.timeout == sys.buf.timeout
    ensures !sys.buf.alive ==> !m.sys.buf.alive
    decreases |ops|
  {
    if |ops| == 0 then Moved(sys, [])
    else
      var first := Apply(sys, ops[0]);
      var rest := Run(first.sys, ops[1..]);
      Moved(rest.sys, first.log + rest.log)
  }

  /** The event one operation offers the buffer: an add's pair, or nothing. */
  function Offered<J, S>(op: Op<J, S>): seq<(J, S)> {
    if op.AddJob? then [(op.job, op.status)] else []
  }

  /** The events a trace adds, in the order they are accepted. */
  function Added<J, S>(ops: seq<Op<J, S>>): seq<(J, S)>
    decreases |ops|
  {
    if |ops| == 0 then [] else Offered(ops[0]) + Added(ops[1..])
  }

  /** Everything the callback has taken responsibility for: the batches of
      the invocations that returned, in order. */
  function Delivered<J, S>(log: seq<Entry<J, S>>): seq<(J, S)>
    decreases |log|
  {
    if |log| == 0 then []
    else (if log[0].call.ok then log[0].call.batch else []) + Delivered(log[1..])
  }

  /** The clock reading of the latest add in a trace, or `t` if it adds nothing. */
  function LastAddTime<J, S>(ops: seq<Op<J, S>>, t: int): int
    decreases |ops|
  {
    if |ops| == 0 then t
    else LastAddTime(ops[1..], if ops[0].AddJob? then ops[0].now else t)
  }

  predicate SinkSucceeds<J, S>(op: Op<J, S>) {
    match op
    case AddJob(_, _, _, ok) => ok
    case FlushJobs(ok) => ok
    case MonitorWake(_, ok) => ok
    case _ => true
  }

  predicate AllSucceed<J, S>(ops: seq<Op<J, S>>) {
    forall i :: 0 <= i < |ops| ==> SinkSucceeds(ops[i])
  }

  /** The callback raises on every call any step of the trace makes. */
  predicate SinkRaises<J, S>(op: Op<J, S>) {
    match op
    case AddJob(_, _, _, ok) => !ok
    case FlushJobs(ok) => !ok
    case MonitorWake(_, ok) => !ok
    case _ => true
  }

  predicate AllRaise<J, S>(ops: seq<Op<J, S>>) {
    forall i :: 0 <= i < |ops| ==> SinkRaises(ops[i])
  }

  predicate NoneDelivered<J, S>(log: seq<Entry<J, S>>) {
    forall i :: 0 <= i < |log| ==> !log[i].call.ok
  }

  function MonitorCalls<J, S>(log: seq<Entry<J, S>>): nat
    decreases |log|
  {
    if |log| == 0 then 0
    else (if log[0].via.ByMonitor? then 1 else 0) + MonitorCalls(log[1..])
  }

  lemma {:induction false} DeliveredAppend<J, S>(a: seq<Entry<J, S>>, b: seq<Entry<J, S>>)
    ensures Delivered(a + b) == Delivered(a) + Delivered(b)
    decreases |a|
  {
    if |a| > 0 {
      assert (a + b)[0] == a[0];
      assert (a + b)[1..] == a[1..] + b;
      DeliveredAppend(a[1..], b);
    } else {
      assert a + b == b;
    }
  }

  lemma {:induction false} MonitorCallsAppend<J, S>(a: seq<Entry<J, S>>, b: seq<Entry<J, S>>)
    ensures MonitorCalls(a + b) == MonitorCalls(a) + MonitorCalls(b)
    decreases |a|
  {
    if |a| > 0 {
      assert (a + b)[0] == a[0];
      assert (a + b)[1..] == a[1..] + b;
      MonitorCallsAppend(a[1..], b);
    } else {
      assert a + b == b;
    }
  }

  lemma NoneDeliveredAppend<J, S>(a: seq<Entry<J, S>>, b: seq<Entry<J, S>>)
    ensures NoneDelivered(a + b) <==> NoneDelivered(a) && NoneDelivered(b)
  {
    if NoneDelivered(a + b) {
      forall i | 0 <= i < |a| ensures !a[i].call.ok {
        assert (a + b)[i] == a[i];
      }
      forall i | 0 <= i < |b| ensures !b[i].call.ok {
        assert (a + b)[|a| + i] == b[i];
      }
    }
    if NoneDelivered(a) && NoneDelivered(b) {
      forall i | 0 <= i < |a + b| ensures !(a + b)[i].call.ok {
        if i < |a| {
          assert (a + b)[i] == a[i];
        } else {
          assert (a + b)[i] == b[i - |a|];
        }
      }
    }
  }

  /** One step neither loses nor duplicates an event: what it delivers
      followed by what is left pending is what was pending plus what it adds. */
  lemma ApplyConserves<J, S>(sys: Sys<J, S>, op: Op<J, S>)
    ensures Delivered(Apply(sys, op).log) + Apply(sys, op).sys.buf.events
            == sys.buf.events + Offered(op)
  {
  }

  /** No loss, no duplication, order kept: over any trace, the concatenated
      batches of the callback invocations that returned, followed by the
      events still pending, are exactly the initially pending events followed
      by every added event in acceptance order. */
  lemma {:induction false} Conservation<J, S>(sys: Sys<J, S>, ops: seq<Op<J, S>>)
    ensures Delivered(Run(sys, ops).log) + Run(sys, ops).sys.buf.events
            == sys.buf.events + Added(ops)
    decreases |ops|
  {
    if |ops| > 0 {
      var first := Apply(sys, ops[0]);
      var rest := Run(first.sys, ops[1..]);
      Conservation(first.sys, ops[1..]);
      ApplyConserves(sys, ops[0]);
      DeliveredAppend(first.log, rest.log);
      assert Run(sys, ops) == Moved(rest.sys, first.log + rest.log);
      assert Added(ops) == Offered(ops[0]) + Added(ops[1..]);
      Regroup(Delivered(first.log), Delivered(rest.log), first.sys.buf.events,
              rest.sys.buf.events, sys.buf.events, Offered(ops[0]), Added(ops[1..]));
    }
  }

  /** The bookkeeping step of `Conservation`, on plain sequences. */
  lemma Regroup<T>(d: seq<T>, f: seq<T>, p: seq<T>, r: seq<T>, s: seq<T>, o: seq<T>, a: seq<T>)
    requires f + r == p + a
    requires d + p == s + o
    ensures (d + f) + r == s + (o + a)
  {
    calc {
      (d + f) + r;
      d + (f + r);
      d + (p + a);
      (d + p) + a;
      (s + o) + a;
      s + (o + a);
    }
  }

  /** Only adds move the clock stamp: after any trace it is the reading of the
      latest add, or the initial stamp if the trace adds nothing. */
  lemma {:induction false} LastEventTimeIsLastAdd<J, S>(sys: Sys<J, S>, ops: seq<Op<J, S>>)
    ensures Run(sys, ops).sys.buf.lastEventTime == LastAddTime(ops, sys.buf.lastEventTime)
    decreases |ops|
  {
    if |ops| > 0 {
      LastEventTimeIsLastAdd(Apply(sys, ops[0]).sys, ops[1..]);
    }
  }

  /** With a callback that never raises, the pending count stays below
      `maxSize` after every step, and every size-triggered batch holds
      exactly `maxSize` events. */
  lemma {:induction false} SizeBound<J, S>(sys: Sys<J, S>, ops: seq<Op<J, S>>)
    requires |sys.buf.events| < sys.buf.maxSize
    requires AllSucceed(ops)
    ensures |Run(sys, ops).sys.buf.events| < sys.buf.maxSize
    ensures forall k :: 0 <= k < |Run(sys, ops).log| && Run(sys, ops).log[k].via.BySize? ==>
              |Run(sys, ops).log[k].call.batch| == sys.buf.maxSize
    decreases |ops|
  {
    if |ops| > 0 {
      var first := Apply(sys, ops[0]);
      var rest := Run(first.sys, ops[1..]);
      assert SinkSucceeds(ops[0]);
      match ops[0] {
        case AddJob(job, status, now, ok) =>
          AddTriggersAtCapacity(sys.buf, job, status, now, ok);
        case _ =>
      }
      assert |first.sys.buf.events| < sys.buf.maxSize;
      assert forall k :: 0 <= k < |first.log| && first.log[k].via.BySize? ==>
               |first.log[k].call.batch| == sys.buf.maxSize;
      assert AllSucceed(ops[1..]) by {
        forall i | 0 <= i < |ops[1..]| ensures SinkSucceeds(ops[1..][i]) {
          assert ops[1..][i] == ops[i + 1];
        }
      }
      SizeBound(first.sys, ops[1..]);
      var log := first.log + rest.log;
      forall k | 0 <= k < |log| && log[k].via.BySize?
        ensures |log[k].call.batch| == sys.buf.maxSize
      {
        if k >= |first.log| {
          assert log[k] == rest.log[k - |first.log|];
        } else {
          assert log[k] == first.log[k];
        }
      }
    }
  }

  /** What one step does to the pending events, as seen by the callback:
      every batch it hands over starts with the events pending before the
      step, a batch that raised is exactly what the step leaves pending, and
      a step whose call did not return only extends the pending events. */
  lemma ApplyPending<J, S>(sys: Sys<J, S>, op: Op<J, S>)
    ensures forall k :: 0 <= k < |Apply(sys, op).log| ==>
              sys.buf.events <= Apply(sys, op).log[k].call.batch
    ensures forall k :: 0 <= k < |Apply(sys, op).log| && !Apply(sys, op).log[k].call.ok ==>
              Apply(sys, op).log[k].call.batch == Apply(sys, op).sys.buf.events
    ensures NoneDelivered(Apply(sys, op).log) ==> sys.buf.events <= Apply(sys, op).sys.buf.events
  {
    var m := Apply(sys, op);
    if |m.log| > 0 && m.log[0].call.ok {
      assert !NoneDelivered(m.log);
    } else if op.AddJob? {
      var grown := sys.buf.events + [(op.job, op.status)];
      assert grown[..|sys.buf.events|] == sys.buf.events;
    }
  }

  /** Until some invocation returns, every batch the callback is handed
      starts with the events that were pending at the start, and those
      events are still pending afterwards. */
  lemma {:induction false} PendingSurvives<J, S>(sys: Sys<J, S>, ops: seq<Op<J, S>>)
    ensures forall k :: 0 <= k < |Run(sys, ops).log| && NoneDelivered(Run(sys, ops).log[..k]) ==>
              sys.buf.events <= Run(sys, ops).log[k].call.batch
    ensures NoneDelivered(Run(sys, ops).log) ==> sys.buf.events <= Run(sys, ops).sys.buf.events
    decreases |ops|
  {
    if |ops| > 0 {
      var first := Apply(sys, ops[0]);
      var rest := Run(first.sys, ops[1..]);
      var log := first.log + rest.log;
      var n := |first.log|;
      PendingSurvives(first.sys, ops[1..]);
      ApplyPending(sys, ops[0]);
      forall k | 0 <= k < |log| && NoneDelivered(log[..k])
        ensures sys.buf.events <= log[k].call.batch
      {
        if k < n {
          assert log[k] == first.log[k];
        } else {
          assert log[..k] == first.log + rest.log[..k - n];
          NoneDeliveredAppend(first.log, rest.log[..k - n]);
          assert log[k] == rest.log[k - n];
        }
      }
      NoneDeliveredAppend(first.log, rest.log);
    }
  }

  /** At-least-once delivery: once the callback raises on a batch, every later
      batch up to and including the next one that returns starts with it, so
      the failed events are handed over again, in their original order, with
      newer events after them. */
  lemma {:induction false} AtLeastOnce<J, S>(sys: Sys<J, S>, ops: seq<Op<J, S>>, i: nat, k: nat)
    requires i <= k < |Run(sys, ops).log|
    requires NoneDelivered(Run(sys, ops).log[i..k])
    ensures Run(sys, ops).log[i].call.batch <= Run(sys, ops).log[k].call.batch
    decreases |ops|
  {
    var first := Apply(sys, ops[0]);
    var rest := Run(first.sys, ops[1..]);
    var log := first.log + rest.log;
    var n := |first.log|;
    if i >= n {
      assert log[i] == rest.log[i - n];
      assert log[k] == rest.log[k - n];
      assert log[i..k] == rest.log[i - n..k - n];
      AtLeastOnce(first.sys, ops[1..], i - n, k - n);
    } else if i < k {
      // the first step's call raised, so its batch is what it left pending
      assert log[i..k] == first.log + rest.log[..k - n];
      NoneDeliveredAppend(first.log, rest.log[..k - n]);
      ApplyPending(sys, ops[0]);
      assert log[i] == first.log[i];
      PendingSurvives(first.sys, ops[1..]);
      assert log[k] == rest.log[k - n];
    }
  }

  /** No hard cap: while the callback keeps raising, nothing is ever dropped,
      so every add stays pending and the count grows by one per add, past
      `maxSize` if the trace adds enough. */
  lemma {:induction false} RaisingSinkKeepsEverything<J, S>(sys: Sys<J, S>, ops: seq<Op<J, S>>)
    requires AllRaise(ops)
    ensures Run(sys, ops).sys.buf.events == sys.buf.events + Added(ops)
    ensures |Run(sys, ops).sys.buf.events| == |sys.buf.events| + |Added(ops)|
    decreases |ops|
  {
    if |ops| > 0 {
      var first := Apply(sys, ops[0]);
      assert SinkRaises(ops[0]);
      assert first.sys.buf.events == sys.buf.events + Offered(ops[0]);
      assert AllRaise(ops[1..]) by {
        forall i | 0 <= i < |ops[1..]| ensures SinkRaises(ops[1..][i]) {
          assert ops[1..][i] == ops[i + 1];
        }
      }
      RaisingSinkKeepsEverything(first.sys, ops[1..]);
      assert Added(ops) == Offered(ops[0]) + Added(ops[1..]);
      assert (sys.buf.events + Offered(ops[0])) + Added(ops[1..])
             == sys.buf.events + (Offered(ops[0]) + Added(ops[1..]));
    }
  }

  /** Shutdown latency: once `alive` is cleared the monitor invokes the
      callback at most once more, and only if it is asleep at that moment. */
  lemma {:induction false} StoppedMonitorAtMostOnce<J, S>(sys: Sys<J, S>, ops: seq<Op<J, S>>)
    requires !sys.buf.alive
    ensures MonitorCalls(Run(sys, ops).log) <= (if sys.loop.Asleep? then 1 else 0)
    decreases |ops|
  {
    if |ops| > 0 {
      var first := Apply(sys, ops[0]);
      var rest := Run(first.sys, ops[1..]);
      StoppedMonitorAtMostOnce(first.sys, ops[1..]);
      MonitorCallsAppend(first.log, rest.log);
      if !sys.loop.Asleep? {
        assert !first.sys.loop.Asleep?;
        assert MonitorCalls(first.log) == 0;
      } else if ops[0].MonitorWake? {
        assert !first.sys.loop.Asleep?;
      } else {
        assert MonitorCalls(first.log) == 0;
      }
    }
  }
}
