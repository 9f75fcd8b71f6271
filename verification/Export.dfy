/** The Metal lanes of the exported trace: one serialized GPU window per command buffer, its kernels inside it.
    Times are exact microseconds. */
module Export {
  import opened Bytes
  import opened Events
  import opened Pairing
  import opened Tallies

  /** When a buffer ran on its queue. */
  datatype GpuWindow = GpuWindow(start: real, end: real, queue: u64)

  datatype Kernel = Kernel(name: string, ts: real, dur: real, queue: u64)

  function Micros(ns: nat): (r: real) { ns as real / 1000.0 }

  function RMax(a: real, b: real): (r: real) { if a >= b then a else b }

  // ----- the kernels of one buffer -----

  function Scaled(t: real, scale: real): (r: real) { t * scale }

  function TotalMicros(ops: seq<OpSample>): (r: real)
  {
    if ops == [] then 0.0 else TotalMicros(ops[..|ops| - 1]) + Micros(ops[|ops| - 1].gpuNs)
  }

  /** Shrinks the measured times when together they exceed the window. */
  function KernelScale(w: GpuWindow, ops: seq<OpSample>): (r: real)
  {
    var window := RMax(w.end - w.start, 0.0);
    if TotalMicros(ops) > window && TotalMicros(ops) > 0.0 then window / TotalMicros(ops) else 1.0
  }

  /** The kernels drawn for the ops, one after the other from the window's start. */
  function Row(w: GpuWindow, ops: seq<OpSample>, scale: real): (r: seq<Kernel>)
    ensures |r| == |ops|
  {
    if ops == [] then []
    else
      var init, op := ops[..|ops| - 1], ops[|ops| - 1];
      Row(w, init, scale) + [Kernel(OpKey(op), w.start + Scaled(TotalMicros(init), scale),
          Scaled(Micros(op.gpuNs), scale), w.queue)]
  }

  function Kernels(w: GpuWindow, ops: seq<OpSample>): (r: seq<Kernel>) { Row(w, ops, KernelScale(w, ops)) }

  method SumMicros(ops: seq<OpSample>) returns (total: real)
    ensures total == TotalMicros(ops)
  {
    total := 0.0;
    for i := 0 to |ops|
      invariant total == TotalMicros(ops[..i])
    {
      assert ops[..i + 1][..i] == ops[..i];
      total := total + Micros(ops[i].gpuNs);
    }
    assert ops[..|ops|] == ops;
  }

  method PushKernels(out: seq<Kernel>, w: GpuWindow, ops: seq<OpSample>) returns (r: seq<Kernel>)
    ensures r == out + Kernels(w, ops)
  {
    hide Scaled, Micros;
    var total := SumMicros(ops);
    var window := RMax(w.end - w.start, 0.0);
    var scale := if total > window && total > 0.0 then window / total else 1.0;
    var cursor := w.start;
    r := out;
    NothingScaled(scale);
    for i := 0 to |ops|
      invariant cursor == w.start + Scaled(TotalMicros(ops[..i]), scale)
      invariant r == out + Row(w, ops[..i], scale)
    {
      assert ops[..i + 1][..i] == ops[..i];
      var dur := Scaled(Micros(ops[i].gpuNs), scale);
      r := r + [Kernel(OpKey(ops[i]), cursor, dur, w.queue)];
      Distributes(TotalMicros(ops[..i]), Micros(ops[i].gpuNs), scale);
      cursor := cursor + dur;
    }
    assert ops[..|ops|] == ops;
  }

  lemma NothingScaled(scale: real)
    ensures Scaled(0.0, scale) == 0.0
  {
  }

  lemma Distributes(a: real, b: real, scale: real)
    ensures Scaled(a + b, scale) == Scaled(a, scale) + Scaled(b, scale)
  {
  }

  /** Kernel `i` starts where the ones before it end, and ends where the next may start. */
  lemma {:induction false} RowIsConsecutive(w: GpuWindow, ops: seq<OpSample>, scale: real, i: nat)
    requires i < |ops|
    ensures var k := Row(w, ops, scale)[i];
            && k.queue == w.queue
            && k.ts == w.start + Scaled(TotalMicros(ops[..i]), scale)
            && k.ts + k.dur == w.start + Scaled(TotalMicros(ops[..i + 1]), scale)
    decreases |ops|
  {
    hide Scaled, Micros;
    var init := ops[..|ops| - 1];
    if i < |init| {
      RowIsConsecutive(w, init, scale, i);
      assert init[..i] == ops[..i] && init[..i + 1] == ops[..i + 1];
    } else {
      assert ops[..i + 1] == ops && ops[..i] == init;
      Distributes(TotalMicros(init), Micros(ops[i].gpuNs), scale);
    }
  }

  lemma {:induction false} TotalGrows(ops: seq<OpSample>, i: nat, j: nat)
    requires i <= j <= |ops|
    ensures 0.0 <= TotalMicros(ops[..i]) <= TotalMicros(ops[..j])
    decreases j
  {
    if i < j {
      TotalGrows(ops, i, j - 1);
      assert ops[..j][..j - 1] == ops[..j - 1];
    } else if i > 0 {
      TotalGrows(ops, i - 1, i - 1);
      assert ops[..i][..i - 1] == ops[..i - 1];
    }
  }

  lemma ScaleKeepsOrder(a: real, b: real, scale: real)
    requires a <= b && 0.0 <= scale
    ensures Scaled(a, scale) <= Scaled(b, scale)
  {
  }

  lemma DivideThenMultiply(a: real, b: real)
    requires b > 0.0
    ensures b * (a / b) == a
  {
  }

  /** The scaled total never exceeds the window. */
  lemma ScaledTotalFits(w: GpuWindow, ops: seq<OpSample>)
    requires w.start <= w.end
    ensures 0.0 <= KernelScale(w, ops) <= 1.0
    ensures w.start + Scaled(TotalMicros(ops), KernelScale(w, ops)) <= w.end
  {
    if TotalMicros(ops) > w.end - w.start && TotalMicros(ops) > 0.0 {
      DivideThenMultiply(w.end - w.start, TotalMicros(ops));
    }
  }

  /** Every kernel lies inside its buffer's window. */
  lemma KernelsStayInside(w: GpuWindow, ops: seq<OpSample>, i: nat)
    requires w.start <= w.end && i < |ops|
    ensures var k := Kernels(w, ops)[i]; k.queue == w.queue && w.start <= k.ts <= k.ts + k.dur <= w.end
  {
    hide TotalMicros, Row, KernelScale, Scaled;
    var scale := KernelScale(w, ops);
    ScaledTotalFits(w, ops);
    NothingScaled(scale);
    RowIsConsecutive(w, ops, scale, i);
    TotalGrows(ops, 0, i);
    TotalGrows(ops, i, i + 1);
    TotalGrows(ops, i + 1, |ops|);
    assert ops[..|ops|] == ops;
    ScaleKeepsOrder(0.0, TotalMicros(ops[..i]), scale);
    ScaleKeepsOrder(TotalMicros(ops[..i]), TotalMicros(ops[..i + 1]), scale);
    ScaleKeepsOrder(TotalMicros(ops[..i + 1]), TotalMicros(ops), scale);
  }

  lemma KernelsKeepNames(w: GpuWindow, ops: seq<OpSample>, i: nat)
    requires i < |ops|
    ensures Kernels(w, ops)[i].name == OpKey(ops[i])
  {
    RowKeepsNames(w, ops, KernelScale(w, ops), i);
  }

  lemma {:induction false} RowKeepsNames(w: GpuWindow, ops: seq<OpSample>, scale: real, i: nat)
    requires i < |ops|
    ensures Row(w, ops, scale)[i].name == OpKey(ops[i])
    decreases |ops|
  {
    hide Scaled, Micros, TotalMicros;
    if i < |ops| - 1 {
      RowKeepsNames(w, ops[..|ops| - 1], scale, i);
    }
  }

  /** The kernels of one buffer come one after the other. */
  lemma KernelsOfABufferAreDisjoint(w: GpuWindow, ops: seq<OpSample>, i: nat, j: nat)
    requires w.start <= w.end && i < j < |ops|
    ensures var ks := Kernels(w, ops); ks[i].ts + ks[i].dur <= ks[j].ts
  {
    hide TotalMicros, Row, KernelScale, Scaled;
    var scale := KernelScale(w, ops);
    ScaledTotalFits(w, ops);
    RowIsConsecutive(w, ops, scale, i);
    RowIsConsecutive(w, ops, scale, j);
    TotalGrows(ops, i + 1, j);
    ScaleKeepsOrder(TotalMicros(ops[..i + 1]), TotalMicros(ops[..j]), scale);
  }

  // ----- the windows, told from the events -----

  /** The latest scheduling of the buffer since its commit at `c`. */
  function SchedSince(events: seq<Event>, n: nat, c: nat, cb: u64): (r: Option<real>)
    requires c < n <= |events|
  {
    if n == c + 1 then None
    else match events[n - 1].payload
      case CbScheduled(x, _) => if x == cb then Some(Micros(events[n - 1].ts)) else SchedSince(events, n - 1, c, cb)
      case _ => SchedSince(events, n - 1, c, cb)
  }

  /** The end of the queue's last window. */
  function BusyUntil(ws: seq<GpuWindow>, queue: u64): (r: real)
  {
    if ws == [] then 0.0
    else if ws[|ws| - 1].queue == queue then ws[|ws| - 1].end
    else BusyUntil(ws[..|ws| - 1], queue)
  }

  /** From the buffer's scheduling or the queue's previous window, whichever is later, to the end of its flight. */
  function WindowFrom(commit: real, sched: Option<real>, inFlightNs: u64, busy: real, queue: u64): (w: GpuWindow)
    ensures w.start <= w.end && busy <= w.start && commit <= w.start
  {
    var start := RMax(RMax(match sched case Some(t) => t case None => commit, commit), busy);
    GpuWindow(start, RMax(commit + Micros(inFlightNs), start), queue)
  }

  function WindowFor(events: seq<Event>, k: nat, ws: seq<GpuWindow>): (w: GpuWindow)
    requires k < |events| && CommitOf(events, k).Some?
    ensures w.start <= w.end && BusyUntil(ws, w.queue) <= w.start
  {
    var c := CommitOf(events, k).value;
    var queue := events[c].payload.queue;
    WindowFrom(Micros(events[c].ts), SchedSince(events, k, c, events[k].payload.cb), events[k].payload.inFlightNs,
        BusyUntil(ws, queue), queue)
  }

  /** One window per paired completion, in completion order. */
  function WindowsUpTo(events: seq<Event>, n: nat): (r: seq<GpuWindow>)
    requires n <= |events|
    ensures |r| == |Completions(events, n)|
  {
    if n == 0 then []
    else
      var ws := WindowsUpTo(events, n - 1);
      if CommitOf(events, n - 1).Some? then ws + [WindowFor(events, n - 1, ws)] else ws
  }

  /** On each queue, windows come one after the other. */
  ghost predicate Serialized(ws: seq<GpuWindow>)
  {
    && (forall i :: 0 <= i < |ws| ==> ws[i].start <= ws[i].end)
    && forall i, j :: 0 <= i < j < |ws| && ws[i].queue == ws[j].queue ==> ws[i].end <= ws[j].start
  }

  lemma {:induction false} BusyIsLatest(ws: seq<GpuWindow>, i: nat)
    requires Serialized(ws) && i < |ws|
    ensures ws[i].end <= BusyUntil(ws, ws[i].queue)
    decreases |ws|
  {
    var init := ws[..|ws| - 1];
    if i < |init| {
      if ws[|ws| - 1].queue != ws[i].queue {
        BusyIsLatest(init, i);
      }
    }
  }

  lemma SerializedMore(ws: seq<GpuWindow>, w: GpuWindow)
    requires Serialized(ws) && w.start <= w.end && BusyUntil(ws, w.queue) <= w.start
    ensures Serialized(ws + [w])
  {
    hide BusyUntil;
    forall i | 0 <= i < |ws| && ws[i].queue == w.queue
      ensures ws[i].end <= w.start
    {
      BusyIsLatest(ws, i);
    }
  }

  /** GPU windows on one queue never overlap, whatever the interleaving and however ids are reused. */
  lemma {:induction false} WindowsNeverOverlap(events: seq<Event>, n: nat)
    requires n <= |events|
    ensures Serialized(WindowsUpTo(events, n))
  {
    hide Serialized, WindowFor, CommitOf;
    if n == 0 {
      NothingSerialized();
    } else {
      WindowsNeverOverlap(events, n - 1);
      if CommitOf(events, n - 1).Some? {
        SerializedMore(WindowsUpTo(events, n - 1), WindowFor(events, n - 1, WindowsUpTo(events, n - 1)));
      }
    }
  }

  lemma NothingSerialized()
    ensures Serialized([])
  {
  }

  // ----- which ops are drawn in which window -----

  /** The ops drawn in one window. */
  datatype Batch = Batch(window: nat, ops: seq<OpSample>)

  function Rows(ws: seq<GpuWindow>, batches: seq<Batch>): (r: seq<Kernel>)
    requires forall i :: 0 <= i < |batches| ==> batches[i].window < |ws|
  {
    if batches == [] then []
    else Rows(ws, batches[..|batches| - 1]) + Kernels(ws[batches[|batches| - 1].window], batches[|batches| - 1].ops)
  }

  /** Every batch has a window of its own, and no window still waiting for ops has been used. */
  ghost predicate OneBatchPerWindow(ws: seq<GpuWindow>, batches: seq<Batch>, waiting: map<u64, nat>)
  {
    && (forall i :: 0 <= i < |batches| ==> batches[i].window < |ws|)
    && (forall i, j :: 0 <= i < j < |batches| ==> batches[i].window != batches[j].window)
    && (forall cb :: cb in waiting ==> waiting[cb] < |ws|)
    && (forall a, b :: a in waiting && b in waiting && a != b ==> waiting[a] != waiting[b])
    && (forall cb, i :: cb in waiting && 0 <= i < |batches| ==> waiting[cb] != batches[i].window)
  }

  /** Where kernel `p` of the lane comes from: its batch and its place in it. */
  lemma {:induction false} KernelComesFrom(ws: seq<GpuWindow>, batches: seq<Batch>, p: nat) returns (b: nat, i: nat)
    requires forall i :: 0 <= i < |batches| ==> batches[i].window < |ws|
    requires p < |Rows(ws, batches)|
    ensures b < |batches| && i < |batches[b].ops|
    ensures Rows(ws, batches)[p] == Kernels(ws[batches[b].window], batches[b].ops)[i]
    ensures p == |Rows(ws, batches[..b])| + i
    decreases |batches|
  {
    hide Kernels;
    var init, last := batches[..|batches| - 1], batches[|batches| - 1];
    RowLength(ws[last.window], last.ops);
    if p < |Rows(ws, init)| {
      b, i := KernelComesFrom(ws, init, p);
      assert init[..b] == batches[..b];
    } else {
      b, i := |init|, p - |Rows(ws, init)|;
    }
  }

  lemma RowLength(w: GpuWindow, ops: seq<OpSample>)
    ensures |Kernels(w, ops)| == |ops|
  {
  }

  predicate Apart(a: Kernel, b: Kernel)
  {
    a.ts + a.dur <= b.ts || b.ts + b.dur <= a.ts
  }

  /** Kernels of one queue never overlap: within a buffer they follow each other, across buffers the
      windows keep them apart. */
  lemma KernelsNeverOverlap(ws: seq<GpuWindow>, batches: seq<Batch>, waiting: map<u64, nat>, p: nat, q: nat)
    requires Serialized(ws) && OneBatchPerWindow(ws, batches, waiting)
    requires p < q < |Rows(ws, batches)| && Rows(ws, batches)[p].queue == Rows(ws, batches)[q].queue
    ensures Apart(Rows(ws, batches)[p], Rows(ws, batches)[q])
  {
    hide Kernels, Rows;
    var a, i := KernelComesFrom(ws, batches, p);
    var b, j := KernelComesFrom(ws, batches, q);
    KernelsStayInside(ws[batches[a].window], batches[a].ops, i);
    KernelsStayInside(ws[batches[b].window], batches[b].ops, j);
    if a == b {
      KernelsOfABufferAreDisjoint(ws[batches[a].window], batches[a].ops, i, j);
    } else {
      assert batches[a].window != batches[b].window;
    }
  }
}
