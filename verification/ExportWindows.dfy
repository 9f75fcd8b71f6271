/** What the Metal lanes of the trace show of every buffer, told from the events and the lanes alone. */
module ExportWindows {
  import opened Bytes
  import opened Events
  import opened Windows
  import opened OpClamp
  import opened Pairing
  import opened Export
  import opened ExportRun

  // ----- lifetimes, told by positions -----

  /** The event at `c` holds `id` open up to position `k`: nothing of that id in between. */
  ghost predicate OpensUntil(events: seq<Event>, role: Payload -> Role, id: u64, c: nat, k: nat)
    requires k <= |events|
  {
    && c < k && role(events[c].payload) == Opens(id)
    && forall m :: c < m < k ==> role(events[m].payload) != Opens(id) && role(events[m].payload) != Closes(id)
  }

  lemma {:induction false} OpenAtIs(events: seq<Event>, k: nat, role: Payload -> Role, id: u64, c: nat)
    requires k <= |events|
    ensures OpenAt(events, k, role, id) == Some(c) <==> OpensUntil(events, role, id, c, k)
  {
    if k > 0 {
      OpenAtIs(events, k - 1, role, id, c);
    }
  }

  /** The buffer that completes at `k` was committed at `c`, in the same lifetime of its id. */
  ghost predicate Lifetime(events: seq<Event>, c: nat, k: nat)
  {
    && c < k < |events| && events[k].payload.CbCompleted? && events[c].payload.CbCommitted?
    && events[c].payload.cb == events[k].payload.cb
    && forall m :: c < m < k ==>
         !((events[m].payload.CbCommitted? || events[m].payload.CbCompleted?)
             && events[m].payload.cb == events[k].payload.cb)
  }

  lemma CommitIs(events: seq<Event>, c: nat, k: nat)
    requires k < |events|
    ensures CommitOf(events, k) == Some(c) <==> Lifetime(events, c, k)
  {
    if events[k].payload.CbCompleted? {
      OpenAtIs(events, k, CommitRole, events[k].payload.cb, c);
      assert OpensUntil(events, CommitRole, events[k].payload.cb, c, k) <==> Lifetime(events, c, k) by {
        if c < k {
          assert CommitRole(events[c].payload) == Opens(events[k].payload.cb)
              <==> events[c].payload.CbCommitted? && events[c].payload.cb == events[k].payload.cb;
        }
      }
    }
  }

  /** The last scheduling of the buffer within its lifetime. */
  ghost predicate Scheduled(events: seq<Event>, c: nat, k: nat, m: int)
    requires c < k < |events| && events[k].payload.CbCompleted?
  {
    var cb := events[k].payload.cb;
    && c < m < k && events[m].payload.CbScheduled? && events[m].payload.cb == cb
    && forall j :: m < j < k ==> !(events[j].payload.CbScheduled? && events[j].payload.cb == cb)
  }

  lemma {:induction false} SchedSinceIs(events: seq<Event>, n: nat, c: nat, cb: u64)
    requires c < n <= |events|
    ensures match SchedSince(events, n, c, cb)
            case None => forall j :: c < j < n ==> !(events[j].payload.CbScheduled? && events[j].payload.cb == cb)
            case Some(t) =>
              exists m :: c < m < n && events[m].payload.CbScheduled? && events[m].payload.cb == cb
                && t == events[m].ts as real / 1000.0
                && forall j :: m < j < n ==> !(events[j].payload.CbScheduled? && events[j].payload.cb == cb)
    decreases n
  {
    if n > c + 1 {
      SchedSinceIs(events, n - 1, c, cb);
      if events[n - 1].payload.CbScheduled? && events[n - 1].payload.cb == cb {
        assert SchedSince(events, n, c, cb) == Some(events[n - 1].ts as real / 1000.0);
      } else {
        assert SchedSince(events, n, c, cb) == SchedSince(events, n - 1, c, cb);
      }
    }
  }

  /** The window before window `n` on its queue. */
  ghost predicate Before(ws: seq<GpuWindow>, queue: u64, n: nat, j: int)
    requires n <= |ws|
  {
    0 <= j < n && ws[j].queue == queue && forall i :: j < i < n ==> ws[i].queue != queue
  }

  lemma {:induction false} BusyUntilIs(ws: seq<GpuWindow>, queue: u64)
    ensures (exists j :: Before(ws, queue, |ws|, j) && BusyUntil(ws, queue) == ws[j].end)
         || (BusyUntil(ws, queue) == 0.0 && forall j :: 0 <= j < |ws| ==> ws[j].queue != queue)
    decreases |ws|
  {
    if ws != [] {
      var init := ws[..|ws| - 1];
      if ws[|ws| - 1].queue == queue {
        assert Before(ws, queue, |ws|, |ws| - 1);
      } else {
        BusyUntilIs(init, queue);
        if j :| Before(init, queue, |init|, j) && BusyUntil(init, queue) == init[j].end {
          assert Before(ws, queue, |ws|, j);
        }
      }
    }
  }

  // ----- every window -----

  lemma {:induction false} WindowOfCompletion(events: seq<Event>, m: nat, n: nat)
    requires m <= |events| && n < |Completions(events, m)|
    ensures |WindowsUpTo(events, m)| == |Completions(events, m)|
    ensures var k := Completions(events, m)[n];
            && |WindowsUpTo(events, k)| == n && WindowsUpTo(events, k) == WindowsUpTo(events, m)[..n]
            && WindowsUpTo(events, m)[n] == WindowFor(events, k, WindowsUpTo(events, k))
    decreases m
  {
    hide CommitOf, WindowFor;
    if m > 0 {
      if n < |Completions(events, m - 1)| {
        WindowOfCompletion(events, m - 1, n);
      } else {
        assert WindowsUpTo(events, m)[..n] == WindowsUpTo(events, m - 1);
      }
    }
  }

  /** Start and end of a window as its buffer's own times and its queue give them. */
  ghost predicate Told(events: seq<Event>, ws: seq<GpuWindow>, n: nat, c: nat, k: nat)
    requires n < |ws| && Lifetime(events, c, k)
  {
    var w, commit := ws[n], events[c].ts as real / 1000.0;
    var done := commit + events[k].payload.inFlightNs as real / 1000.0;
    && w.queue == events[c].payload.queue
    && w.start >= commit
    && (forall m :: Scheduled(events, c, k, m) ==> w.start >= events[m].ts as real / 1000.0)
    && (forall j :: Before(ws, w.queue, n, j) ==> w.start >= ws[j].end)
    && (|| w.start == commit
        || (exists m :: Scheduled(events, c, k, m) && w.start == events[m].ts as real / 1000.0)
        || (exists j :: Before(ws, w.queue, n, j) && w.start == ws[j].end))
    && w.end == if done >= w.start then done else w.start
  }

  /** Every window of the trace belongs to one completed lifetime; it starts at the latest of commit, last scheduling
      and the end of its queue's previous window, and ends with the flight, or at once if that is over by then. */
  lemma WindowsAreTold(events: seq<Event>, n: nat) returns (c: nat, k: nat)
    requires n < |WindowLane(events)|
    ensures Lifetime(events, c, k) && k == Completions(events, |events|)[n]
    ensures Told(events, WindowLane(events), n, c, k)
  {
    hide CommitOf, WindowFor, Lifetime, WindowsUpTo, Told;
    WindowOfCompletion(events, |events|, n);
    k := Completions(events, |events|)[n];
    c := CommitOf(events, k).value;
    CommitIs(events, c, k);
    WindowForIsTold(events, WindowLane(events), n, c, k);
  }

  lemma WindowForIsTold(events: seq<Event>, ws: seq<GpuWindow>, n: nat, c: nat, k: nat)
    requires n < |ws| && Lifetime(events, c, k) && CommitOf(events, k) == Some(c)
    requires ws[n] == WindowFor(events, k, ws[..n])
    ensures Told(events, ws, n, c, k)
  {
    hide CommitOf, SchedSince, BusyUntil, Scheduled, Before;
    var queue := events[c].payload.queue;
    var busy := BusyUntil(ws[..n], queue);
    BusyBefore(ws, queue, n);
    var sched := SchedSince(events, k, c, events[k].payload.cb);
    SchedIs(events, c, k);
  }

  lemma SchedIs(events: seq<Event>, c: nat, k: nat)
    requires Lifetime(events, c, k)
    ensures match SchedSince(events, k, c, events[k].payload.cb)
            case None => forall m :: !Scheduled(events, c, k, m)
            case Some(t) =>
              && (forall m :: Scheduled(events, c, k, m) ==> t == events[m].ts as real / 1000.0)
              && exists m :: Scheduled(events, c, k, m) && t == events[m].ts as real / 1000.0
  {
    hide SchedSince;
    SchedSinceIs(events, k, c, events[k].payload.cb);
    if SchedSince(events, k, c, events[k].payload.cb).Some? {
      var t := SchedSince(events, k, c, events[k].payload.cb).value;
      var last :| c < last < k && events[last].payload.CbScheduled? && events[last].payload.cb == events[k].payload.cb
        && t == events[last].ts as real / 1000.0
        && forall j :: last < j < k ==>
             !(events[j].payload.CbScheduled? && events[j].payload.cb == events[k].payload.cb);
      assert Scheduled(events, c, k, last);
      forall m | Scheduled(events, c, k, m)
        ensures m == last
      {
      }
    }
  }

  lemma BusyBefore(ws: seq<GpuWindow>, queue: u64, n: nat)
    requires n <= |ws|
    ensures var busy := BusyUntil(ws[..n], queue);
            && (forall j :: Before(ws, queue, n, j) ==> busy == ws[j].end)
            && (busy == 0.0 || exists j :: Before(ws, queue, n, j) && busy == ws[j].end)
  {
    hide BusyUntil;
    var init := ws[..n];
    BusyUntilIs(init, queue);
    if exists j :: Before(init, queue, |init|, j) && BusyUntil(init, queue) == init[j].end {
      var last :| Before(init, queue, |init|, last) && BusyUntil(init, queue) == init[last].end;
      assert Before(ws, queue, n, last);
      forall j | Before(ws, queue, n, j)
        ensures j == last
      {
      }
    }
  }

  /** Every completion whose buffer was committed in the same lifetime has a window, in the order of completion. */
  lemma EveryLifetimeHasAWindow(events: seq<Event>, c: nat, k: nat)
    requires Lifetime(events, c, k)
    ensures k in Completions(events, |events|) && |WindowLane(events)| == |Completions(events, |events|)|
    ensures forall p, q :: 0 <= p < q < |Completions(events, |events|)| ==>
              Completions(events, |events|)[p] < Completions(events, |events|)[q]
  {
    hide CommitOf;
    CommitIs(events, c, k);
    CompletionsHold(events, |events|, k);
    CompletionsIncrease(events, |events|);
  }

  lemma {:induction false} CompletionsHold(events: seq<Event>, n: nat, k: nat)
    requires k < n <= |events| && CommitOf(events, k).Some?
    ensures k in Completions(events, n)
    decreases n
  {
    hide CommitOf;
    if k < n - 1 {
      CompletionsHold(events, n - 1, k);
    }
  }

  // ----- every kernel -----

  /** The kernels of one batch: from the window's start, one behind the other; with the measured times when they fit,
      and else in their proportions up to exactly the window's end. */
  ghost predicate Laid(w: GpuWindow, ops: seq<OpSample>, ks: seq<Kernel>)
  {
    && |ks| == |ops|
    && (ks != [] ==> ks[0].ts == w.start)
    && (forall i :: 0 <= i < |ks| - 1 ==> ks[i + 1].ts == ks[i].ts + ks[i].dur)
    && (SumGpu(ops) as real / 1000.0 <= w.end - w.start ==>
          forall i :: 0 <= i < |ks| ==> ks[i].dur == ops[i].gpuNs as real / 1000.0)
    && (SumGpu(ops) as real / 1000.0 > w.end - w.start ==>
          && ks != [] && ks[|ks| - 1].ts + ks[|ks| - 1].dur == w.end
          && forall i :: 0 <= i < |ks| ==> ks[i].dur * SumGpu(ops) as real == (w.end - w.start) * ops[i].gpuNs as real)
  }

  lemma {:induction false} MeasuredTotal(ops: seq<OpSample>)
    ensures TotalMicros(ops) == SumGpu(ops) as real / 1000.0
  {
    if ops != [] {
      MeasuredTotal(ops[..|ops| - 1]);
    }
  }

  lemma {:induction false} RowAt(w: GpuWindow, ops: seq<OpSample>, scale: real, i: nat)
    requires i < |ops|
    ensures Row(w, ops, scale)[i].dur == Scaled(Micros(ops[i].gpuNs), scale)
    decreases |ops|
  {
    hide Scaled, Micros, TotalMicros;
    if i < |ops| - 1 {
      RowAt(w, ops[..|ops| - 1], scale, i);
    }
  }

  lemma KernelsAreLaid(w: GpuWindow, ops: seq<OpSample>)
    requires w.start <= w.end
    ensures Laid(w, ops, Kernels(w, ops))
  {
    hide Kernels, Row, KernelScale, Scaled, TotalMicros, SumGpu;
    RowsOf(w, ops);
    OneBehindTheOther(w, ops);
    if SumGpu(ops) as real / 1000.0 > w.end - w.start {
      FillTheWindow(w, ops);
    } else {
      KeepTheirTimes(w, ops);
    }
  }

  lemma OneBehindTheOther(w: GpuWindow, ops: seq<OpSample>)
    ensures |Kernels(w, ops)| == |ops|
    ensures ops != [] ==> Kernels(w, ops)[0].ts == w.start
    ensures forall i :: 0 <= i < |ops| - 1 ==>
              Kernels(w, ops)[i + 1].ts == Kernels(w, ops)[i].ts + Kernels(w, ops)[i].dur
  {
    hide Kernels, Row, KernelScale, Scaled, TotalMicros;
    var scale, ks := KernelScale(w, ops), Kernels(w, ops);
    RowsOf(w, ops);
    forall i | 0 <= i < |ops|
      ensures ks[i].ts == w.start + Scaled(TotalMicros(ops[..i]), scale)
      ensures ks[i].ts + ks[i].dur == w.start + Scaled(TotalMicros(ops[..i + 1]), scale)
    {
      RowIsConsecutive(w, ops, scale, i);
    }
    NoTimeYet(scale);
    assert ops[..0] == [];
  }

  lemma FillTheWindow(w: GpuWindow, ops: seq<OpSample>)
    requires w.start <= w.end && SumGpu(ops) as real / 1000.0 > w.end - w.start
    ensures var ks := Kernels(w, ops);
            && |ks| == |ops| && ks != [] && ks[|ks| - 1].ts + ks[|ks| - 1].dur == w.end
            && forall i :: 0 <= i < |ks| ==> ks[i].dur * SumGpu(ops) as real == (w.end - w.start) * ops[i].gpuNs as real
  {
    hide Kernels, Row, KernelScale, Scaled, TotalMicros, SumGpu;
    var scale, ks := KernelScale(w, ops), Kernels(w, ops);
    RowsOf(w, ops);
    ScaleIs(w, ops);
    TotalOfNothing(ops);
    Filled(SumGpu(ops) as real, w.end - w.start);
    RowIsConsecutive(w, ops, scale, |ops| - 1);
    assert ops[..|ops|] == ops;
    forall i | 0 <= i < |ops|
      ensures ks[i].dur * SumGpu(ops) as real == (w.end - w.start) * ops[i].gpuNs as real
    {
      RowAt(w, ops, scale, i);
      Proportional(ops[i].gpuNs as real, SumGpu(ops) as real, w.end - w.start);
    }
  }

  lemma KeepTheirTimes(w: GpuWindow, ops: seq<OpSample>)
    requires w.start <= w.end && SumGpu(ops) as real / 1000.0 <= w.end - w.start
    ensures |Kernels(w, ops)| == |ops|
    ensures forall i :: 0 <= i < |ops| ==> Kernels(w, ops)[i].dur == ops[i].gpuNs as real / 1000.0
  {
    hide Kernels, Row, KernelScale, Scaled, TotalMicros, SumGpu;
    RowsOf(w, ops);
    ScaleIs(w, ops);
    forall i | 0 <= i < |ops|
      ensures Kernels(w, ops)[i].dur == ops[i].gpuNs as real / 1000.0
    {
      RowAt(w, ops, 1.0, i);
      Unscaled(ops[i].gpuNs as real / 1000.0);
    }
  }

  lemma ScaleIs(w: GpuWindow, ops: seq<OpSample>)
    requires w.start <= w.end
    ensures TotalMicros(ops) == SumGpu(ops) as real / 1000.0
    ensures KernelScale(w, ops) ==
            if SumGpu(ops) as real / 1000.0 > w.end - w.start then (w.end - w.start) / (SumGpu(ops) as real / 1000.0)
                else 1.0
  {
    hide TotalMicros, SumGpu;
    MeasuredTotal(ops);
  }

  lemma RowsOf(w: GpuWindow, ops: seq<OpSample>)
    ensures Kernels(w, ops) == Row(w, ops, KernelScale(w, ops)) && |Kernels(w, ops)| == |ops|
  {
  }

  lemma NoTimeYet(scale: real)
    ensures Scaled(TotalMicros([]), scale) == 0.0
  {
  }

  lemma TotalOfNothing(ops: seq<OpSample>)
    ensures SumGpu(ops) > 0 ==> ops != []
  {
  }

  lemma Unscaled(t: real)
    ensures Scaled(t, 1.0) == t
  {
  }

  lemma Filled(sum: real, window: real)
    requires sum > 0.0
    ensures Scaled(sum / 1000.0, window / (sum / 1000.0)) == window
  {
    DivideThenMultiply(window, sum / 1000.0);
  }

  lemma Proportional(g: real, sum: real, window: real)
    requires sum > 0.0
    ensures Scaled(g / 1000.0, window / (sum / 1000.0)) * sum == window * g
  {
    var t := sum / 1000.0;
    DivideThenMultiply(window, t);
    calc {
      (g / 1000.0) * (window / t) * sum;
      (g / 1000.0) * (window / t) * (t * 1000.0);
      g * (t * (window / t));
      window * g;
    }
  }

  /** Every batch of the trace is one stretch of the kernel lane, laid out in its own window. */
  lemma BatchesAreLaid(events: seq<Event>, b: nat) returns (p: nat)
    requires b < |BatchesUpTo(events, |events|)|
    ensures var batch := BatchesUpTo(events, |events|)[b];
            && batch.window < |WindowLane(events)| && p + |batch.ops| <= |KernelLane(events)|
            && Laid(WindowLane(events)[batch.window], batch.ops, KernelLane(events)[p..p + |batch.ops|])
  {
    hide Rows, WindowsUpTo, BatchesUpTo, Laid, Kernels;
    var windows, batches := WindowLane(events), BatchesUpTo(events, |events|);
    WindowsAreUsedOnce(events);
    p := |Rows(windows, batches[..b])|;
    BatchInRows(windows, batches, b);
    RowsOf(windows[batches[b].window], batches[b].ops);
    KernelsAreLaid(windows[batches[b].window], batches[b].ops);
  }

  lemma {:induction false} BatchInRows(ws: seq<GpuWindow>, batches: seq<Batch>, b: nat)
    requires b < |batches| && forall i :: 0 <= i < |batches| ==> batches[i].window < |ws|
    ensures var ks, p := Kernels(ws[batches[b].window], batches[b].ops), |Rows(ws, batches[..b])|;
            p + |ks| <= |Rows(ws, batches)| && Rows(ws, batches)[p..p + |ks|] == ks
    decreases |batches|
  {
    hide Kernels;
    var init := batches[..|batches| - 1];
    var ks, p := Kernels(ws[batches[b].window], batches[b].ops), |Rows(ws, batches[..b])|;
    if b < |init| {
      BatchInRows(ws, init, b);
      assert init[..b] == batches[..b];
      assert Rows(ws, init) <= Rows(ws, batches);
      assert Rows(ws, batches)[p..p + |ks|] == Rows(ws, init)[p..p + |ks|];
    } else {
      assert batches[..b] == init && Rows(ws, batches) == Rows(ws, init) + ks;
    }
  }

  // ----- one buffer -----

  /** Committed at 0, scheduled at 6 us, 10 us in flight: it ran from 6 to 10, and 8 us of measured kernels fill
      that. */
  function OneBuffer(): (r: seq<Event>)
  {
    [ Event(0, 0, MetalHook, CbCommitted(1, 7)),
      Event(6000, 1, MetalHook, CbScheduled(1, 7)),
      Event(10000, 2, MetalHook, CbCompleted(1, 7, 10000)),
      Event(11000, 3, MetalHook, CbOps(1, [A, B])) ]
  }

  const A: OpSample := OpSample("a", None, 6000, 1, None)
  const B: OpSample := OpSample("b", Some("gemm"), 2000, 1, None)

  lemma OneBufferIsDrawn()
    ensures WindowLane(OneBuffer()) == [GpuWindow(6.0, 10.0, 7)]
    ensures KernelLane(OneBuffer()) == [Kernel("a", 6.0, 3.0, 7), Kernel("gemm", 9.0, 1.0, 7)]
  {
    hide Kernels, WindowFor, WindowsUpTo, BatchesUpTo;
    OneWindow();
    TwoKernels(GpuWindow(6.0, 10.0, 7));
    var batches := [Batch(0, [A, B])];
    assert batches[..0] == [];
    assert Rows([GpuWindow(6.0, 10.0, 7)], batches)
        == Rows([GpuWindow(6.0, 10.0, 7)], []) + Kernels(GpuWindow(6.0, 10.0, 7), [A, B]);
  }

  lemma OneWindow()
    ensures WindowLane(OneBuffer()) == [GpuWindow(6.0, 10.0, 7)]
    ensures BatchesUpTo(OneBuffer(), 4) == [Batch(0, [A, B])]
  {
    hide WindowFor, WindowsUpTo, BatchesUpTo;
    OneCompletion();
    OneWindowFor();
    OneBatchHere();
  }

  lemma OneCompletion()
    ensures CommitOf(OneBuffer(), 2) == Some(0) && CommitOf(OneBuffer(), 3).None?
    ensures CommitOf(OneBuffer(), 0).None? && CommitOf(OneBuffer(), 1).None?
  {
  }

  lemma OneWindowFor()
    ensures WindowsUpTo(OneBuffer(), 4) == [GpuWindow(6.0, 10.0, 7)]
  {
    hide CommitOf;
    OneCompletion();
    assert SchedSince(OneBuffer(), 2, 0, 1) == Some(6.0);
    assert WindowsUpTo(OneBuffer(), 2) == [];
    assert WindowFor(OneBuffer(), 2, []) == GpuWindow(6.0, 10.0, 7);
    assert WindowsUpTo(OneBuffer(), 3) == [GpuWindow(6.0, 10.0, 7)];
  }

  lemma OneBatchHere()
    ensures BatchesUpTo(OneBuffer(), 4) == [Batch(0, [A, B])]
  {
    hide CommitOf;
    OneCompletion();
    assert SlotAt(OneBuffer(), 2, 1) == Empty;
    assert SlotAt(OneBuffer(), 3, 1) == Waits(2);
    assert Completions(OneBuffer(), 2) == [];
    assert BatchesUpTo(OneBuffer(), 2) == [];
    assert BatchesUpTo(OneBuffer(), 3) == [];
  }

  lemma TwoKernels(w: GpuWindow)
    requires w == GpuWindow(6.0, 10.0, 7)
    ensures Kernels(w, [A, B]) == [Kernel("a", 6.0, 3.0, 7), Kernel("gemm", 9.0, 1.0, 7)]
  {
    assert [A, B][..1] == [A] && [A][..0] == [];
    assert TotalMicros([A]) == 6.0 && TotalMicros([A, B]) == 8.0;
    assert KernelScale(w, [A, B]) == 0.5;
    assert Row(w, [A], 0.5) == [Kernel("a", 6.0, 3.0, 7)];
  }
}
