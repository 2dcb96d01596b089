# JobBuffer: a verified model of PgQueuer's batching buffer

PgQueuer's `JobBuffer` collects `(job, status)` pairs that workers report, and
it hands the whole pending batch to a flush callback. This happens when the
pending count reaches `max_size`, or when the background `monitor` task wakes
and finds that at least `timeout` has passed since the last accepted event.
The callback is awaited before the batch is cleared, so a raising callback
leaves the batch pending. The next flush that succeeds hands the batch over
again. Delivery is therefore at least once.

`add_job` and each monitor timeout check run under one `asyncio.Lock`
(buffers.py:59, 81); a direct `flush_jobs` call does not (see Left out). The
model is sequential: each operation is one whole step.

- `buffer.dfy`, module `Buffers`: the state record (`Buffer`) and the
  operations `New` (`__init__`), `Add` (`add_job`), `Flush` (`flush_jobs`) and
  `ClearAlive` (clearing the `alive` event). Each is a pure function. Whether
  the callback returns or raises is an input. The result reports the batch
  the callback was handed, if any.
- `monitor.dfy`, module `Monitor`: one iteration of the `monitor` loop, split
  at its sleep. `Guard` is the `while alive` test followed by the start of the
  sleep. `Wake` is the end of the sleep followed by the timeout check under
  the lock. A raising callback propagates out of `monitor()`, so `Wake` then
  ends the loop.
- `trace.dfy`, module `Trace`: operations as data (`Op`) and `Run`, which folds
  a sequence of them. `Run` returns the final state and a log of every callback
  invocation. Each entry holds the batch, the outcome and the path that made
  the call. The trace lemmas are stated over `Run`.
- `scenario.dfy`, module `Scenario`: a worked run with capacity 3 and timeout 5.

The job and status types are opaque type parameters `J` and `S`. Clock
readings are integer instants. The timeout is an integer duration.

## Model

| member | source | states |
|---|---|---|
| Buffers.New | src/PgQueuer/buffers.py:37-52 | a new buffer keeps the given thresholds, has nothing pending, holds the clock reading taken at construction, and has `alive` set |
| Buffers.Flush | src/PgQueuer/buffers.py:65-72 | an empty buffer makes no call and stays as it is; otherwise the callback gets all pending events in insertion order; the events are cleared only if it returns, and a raise leaves the state unchanged; the clock stamp and thresholds never change |
| Buffers.Add | src/PgQueuer/buffers.py:54-63 | the pair goes at the end and earlier entries keep their order; the clock stamp becomes the add's reading; below `max_size` there is no call; at or above it there is exactly one call with the whole sequence, new pair last; a return empties the buffer and a raise keeps the pair pending |
| Buffers.ClearAlive | src/PgQueuer/buffers.py:47-48 | clearing the flag changes nothing else: same events, same clock stamp, same thresholds |
| Buffers.AddTriggersAtCapacity | src/PgQueuer/buffers.py:60-63 | while the count is below `max_size`, an add calls the callback if and only if it brings the count to `max_size`; that batch holds exactly `max_size` events |
| Monitor.Guard | src/PgQueuer/buffers.py:79-80 | at the loop test, a set flag starts a sleep and a cleared flag leaves the loop; in any other position nothing happens |
| Monitor.Wake | src/PgQueuer/buffers.py:80-83 | after a sleep, the callback is called if and only if `now - last_event_time >= timeout` and something is pending; the flag is not consulted; the loop ends if and only if that call raised, and otherwise returns to the test |
| Monitor.QuiescentSleepFlushes | src/PgQueuer/buffers.py:80-83 | a full-timeout sleep with no add during it always ends in a flush of everything pending |
| Monitor.ClearDuringSleep | src/PgQueuer/buffers.py:79-83 | clearing `alive` during a sleep does not cancel the wake that follows, so one more flush still happens; only the next loop test exits |
| Trace.Apply | src/PgQueuer/buffers.py:54-83 | one serialised operation calls the callback at most once; it keeps the thresholds; it never sets a cleared `alive` flag again |
| Trace.Run | src/PgQueuer/buffers.py:59-83 | a trace makes at most as many callback calls as it has operations; the thresholds never change; no operation of the model sets `alive` again once it is cleared |
| Trace.ApplyConserves | src/PgQueuer/buffers.py:60-72 | in one step, the delivered batch followed by what stays pending equals what was pending followed by the added pair |
| Trace.Conservation | src/PgQueuer/buffers.py:60-72 | over any trace, the batches of returning calls, then the still-pending events, are exactly the initial events followed by every added pair in acceptance order: no loss, no duplicate among successful deliveries, order kept |
| Trace.LastEventTimeIsLastAdd | src/PgQueuer/buffers.py:51-72 | after any trace the clock stamp is the reading of the latest add, or the initial stamp if nothing was added; no flush path moves it |
| Trace.SizeBound | src/PgQueuer/buffers.py:60-72 | if the callback never raises, the pending count stays below `max_size` after every step, and every size-triggered batch has exactly `max_size` events |
| Trace.ApplyPending | src/PgQueuer/buffers.py:60-72 | every batch a step hands over starts with the events pending before it; a batch that raised is exactly what stays pending; a step without a returning call only extends the pending events |
| Trace.PendingSurvives | src/PgQueuer/buffers.py:60-72 | until some call returns, every batch handed over starts with the events pending at the start, and those events are still pending |
| Trace.AtLeastOnce | src/PgQueuer/buffers.py:70-72 | after a call raises on a batch, every later batch up to and including the next returning one starts with that batch, in the same order |
| Trace.RaisingSinkKeepsEverything | src/PgQueuer/buffers.py:60-72 | while the callback keeps raising, every added pair stays pending in order and the count grows by one per add, past `max_size` if enough are added: there is no hard cap |
| Trace.StoppedMonitorAtMostOnce | src/PgQueuer/buffers.py:79-83 | once `alive` is cleared, the monitor makes at most one more call, and only if it is asleep at that moment |
| Scenario.FlushAtCapacity | src/PgQueuer/buffers.py:60-63 | with capacity 3, the third add hands over all three pairs in order and empties the buffer; a later idle wake makes no call |
| Scenario.FlushOnTimeout | src/PgQueuer/buffers.py:80-83 | a lone event added at 10 is flushed by a wake at 15 when the timeout is 5 |
| Scenario.RetryAfterFailure | src/PgQueuer/buffers.py:70-72 | a manual flush that raises keeps the event; the next successful flush delivers it again with the newer event after it |

## Left out

- The asyncio machinery is not modelled: the lock, the `alive` event object, `asyncio.sleep` and task scheduling. Each operation is one atomic step. That is faithful for `add_job` and the monitor's timeout check, which run under the lock (buffers.py:59, 81). It is an assumption for a direct `flush_jobs` call and for clearing `alive`, which take no lock.
- `flush_jobs` does not take the lock itself, so a direct outside call could interleave with a locked add at its `await`. The model treats a manual flush as one atomic step and leaves that race out.
- The clock is an integer instant supplied with each step. `_perf_counter_dt` turns a float performance counter into a UTC `datetime`, and `timeout` is a `timedelta` slept for as float seconds; neither float conversion is modelled.
- Monitor.Wake: the sleep's real length is not enforced. A wake may come at any instant. Monitor.QuiescentSleepFlushes states what follows when the sleep lasted at least `timeout`.
- The internals of `Job` and `STATUS_LOG` live in `models.py`, which is not part of this model. They are opaque type parameters.
- The callback's own effect, such as the database write, is not modelled. The model records only the batch it receives and whether it returned or raised.
- The callback receives the live `events` list, which is then cleared. The model takes a value snapshot of the batch at call time.
- Exceptions other than a callback failure are not modelled, such as the monitor task being cancelled.
- The source does not check that `max_size` is positive or that `timeout` is positive. The model accepts any integers, and the lemmas that need `max_size >= 1` require a pending count below `max_size`, which implies it.
- A `MonitorGuard` step when the loop is not at its test, or a `MonitorWake` step when the loop is not asleep, is a stutter step that changes nothing.
- Setting `alive` again from outside is not modelled. `alive` is a public `asyncio.Event` (buffers.py:47-48), and a `set()` during a sleep would keep the loop running. The model only clears it, so stopping is one-way. The flag clauses of Trace.Apply and Trace.Run, and Trace.StoppedMonitorAtMostOnce, rest on this.
- A failed callback inside `monitor()` propagates out of the loop and ends the task. The model follows the code here: `Wake` moves to `Exited`. The `monitor` docstring (buffers.py:76-77) says it runs until `alive` is cleared; it does not say that a raising callback also ends it.
