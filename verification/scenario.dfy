/**
 A worked run of the buffer with `maxSize` 3 and `timeout` 5: three adds
 fill it and flush it, a lone add is flushed by the monitor's timeout check,
 and a batch that raises is handed over again with the next event behind it.
 Each segment is stated from the exact state the previous one ends in.
 */
module Scenario {
  import opened Buffers
  import opened Monitor
  import opened Trace

  /** The scenario's buffer: capacity 3, timeout 5, monitor flag set. */
  function At(events: seq<(int, int)>, lastEventTime: int, loop: Loop): Sys<int, int> {
    Sys(Buffer(3, 5, events, lastEventTime, true), loop)
  }

  /** Two adds below capacity: nothing is handed over, both are pending in order. */
  lemma Fill()
    ensures Run(Start<int, int>(3, 5, 0), [MonitorGuard(0), AddJob(1, 10, 1, true), AddJob(2, 20, 2, true)])
            == Moved(At([(1, 10), (2, 20)], 2, Asleep(0)), [])
  {
    Unfold3(Start<int, int>(3, 5, 0), MonitorGuard(0), AddJob(1, 10, 1, true), AddJob(2, 20, 2, true));
  }

  /** The third add reaches capacity: one call with all three in order, then
      an idle wake finds the buffer empty and calls nothing. */
  lemma FlushAtCapacity()
    ensures Run(At([(1, 10), (2, 20)], 2, Asleep(0)),
                [AddJob(3, 30, 3, true), MonitorWake(8, true), MonitorGuard(8)])
            == Moved(At([], 3, Asleep(8)),
                     [Entry(Call([(1, 10), (2, 20), (3, 30)], true), BySize)])
  {
    var s0 := At([(1, 10), (2, 20)], 2, Asleep(0));
    var m1 := Apply(s0, AddJob(3, 30, 3, true));
    assert [(1, 10), (2, 20)] + [(3, 30)] == [(1, 10), (2, 20), (3, 30)];
    assert m1 == Moved(At([], 3, Asleep(0)), [Entry(Call([(1, 10), (2, 20), (3, 30)], true), BySize)]);
    var m2 := Apply(m1.sys, MonitorWake(8, true));
    assert m2 == Moved(At([], 3, AtGuard), []);
    var m3 := Apply(m2.sys, MonitorGuard(8));
    assert m3 == Moved(At([], 3, Asleep(8)), []);
    Unfold3(s0, AddJob(3, 30, 3, true), MonitorWake(8, true), MonitorGuard(8));
    assert m1.log + m2.log + m3.log == m1.log;
  }

  /** A lone add at 10 is flushed by the wake at 15, five units later. */
  lemma FlushOnTimeout()
    ensures Run(At([], 3, Asleep(8)),
                [AddJob(4, 40, 10, true), MonitorWake(15, true), MonitorGuard(15)])
            == Moved(At([], 10, Asleep(15)),
                     [Entry(Call([(4, 40)], true), ByMonitor)])
  {
    var s0 := At([], 3, Asleep(8));
    var m1 := Apply(s0, AddJob(4, 40, 10, true));
    assert [] + [(4, 40)] == [(4, 40)];
    assert m1 == Moved(At([(4, 40)], 10, Asleep(8)), []);
    var m2 := Apply(m1.sys, MonitorWake(15, true));
    assert m2 == Moved(At([], 10, AtGuard), [Entry(Call([(4, 40)], true), ByMonitor)]);
    var m3 := Apply(m2.sys, MonitorGuard(15));
    assert m3 == Moved(At([], 10, Asleep(15)), []);
    Unfold3(s0, AddJob(4, 40, 10, true), MonitorWake(15, true), MonitorGuard(15));
    assert m1.log + m2.log + m3.log == m2.log;
  }

  /** A manual flush that raises keeps the event; the next successful one
      hands it over again with the newer event after it. */
  lemma RetryAfterFailure()
    ensures Run(At([], 10, Asleep(15)),
                [AddJob(5, 50, 16, true), FlushJobs(false), AddJob(6, 60, 17, true)])
            == Moved(At([(5, 50), (6, 60)], 17, Asleep(15)),
                     [Entry(Call([(5, 50)], false), ByCaller)])
    ensures Run(At([(5, 50), (6, 60)], 17, Asleep(15)),
                [FlushJobs(true)])
            == Moved(At([], 17, Asleep(15)),
                     [Entry(Call([(5, 50), (6, 60)], true), ByCaller)])
  {
    var s0 := At([], 10, Asleep(15));
    var m1 := Apply(s0, AddJob(5, 50, 16, true));
    assert [] + [(5, 50)] == [(5, 50)];
    assert m1 == Moved(At([(5, 50)], 16, Asleep(15)), []);
    var m2 := Apply(m1.sys, FlushJobs(false));
    assert m2 == Moved(At([(5, 50)], 16, Asleep(15)), [Entry(Call([(5, 50)], false), ByCaller)]);
    var m3 := Apply(m2.sys, AddJob(6, 60, 17, true));
    assert [(5, 50)] + [(6, 60)] == [(5, 50), (6, 60)];
    assert m3 == Moved(At([(5, 50), (6, 60)], 17, Asleep(15)), []);
    Unfold3(s0, AddJob(5, 50, 16, true), FlushJobs(false), AddJob(6, 60, 17, true));
    assert m1.log + m2.log + m3.log == m2.log;
    var last: seq<Op<int, int>> := [FlushJobs(true)];
    assert last[1..] == [];
  }

  /** A three-step run is its steps one after the other. */
  lemma Unfold3<J, S>(sys: Sys<J, S>, x: Op<J, S>, y: Op<J, S>, z: Op<J, S>)
    ensures
      var m1 := Apply(sys, x);
      var m2 := Apply(m1.sys, y);
      var m3 := Apply(m2.sys, z);
      Run(sys, [x, y, z]) == Moved(m3.sys, m1.log + m2.log + m3.log)
  {
    var m1 := Apply(sys, x);
    var m2 := Apply(m1.sys, y);
    var m3 := Apply(m2.sys, z);
    assert [z][1..] == [];
    assert Run(m2.sys, [z]) == Moved(m3.sys, m3.log + []);
    assert [y, z][1..] == [z];
    assert Run(m1.sys, [y, z]) == Moved(m3.sys, m2.log + m3.log);
    assert [x, y, z][1..] == [y, z];
    assert Run(sys, [x, y, z]) == Moved(m3.sys, m1.log + (m2.log + m3.log));
  }
}
