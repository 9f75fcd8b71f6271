/** The exporter's pass over the events, keeping the Metal lanes' invariants. */
module ExportRun {
  import opened Bytes
  import opened Events
  import opened Windows
  import opened Pairing
  import opened Export
  import Tallies

  datatype OpenCb = OpenCb(commit: real, queue: u64, sched: Option<real>)

  /** The maps the pass updates, and the two lanes drawn so far. */
  datatype Lanes = Lanes(
    open: map<u64, OpenCb>,
    awaiting: map<u64, GpuWindow>,
    pending: map<u64, seq<OpSample>>,
    busy: map<u64, real>,
    windows: seq<GpuWindow>,
    kernels: seq<Kernel>)

  // ----- buffers in flight -----

  ghost predicate TracksOpen(open: map<u64, OpenCb>, events: seq<Event>, n: nat)
    requires n <= |events|
  {
    && (forall id: u64 :: id in open <==> OpenAt(events, n, CommitRole, id).Some?)
    && (forall id: u64 :: id in open ==>
          var c := OpenAt(events, n, CommitRole, id).value;
          open[id] == OpenCb(Micros(events[c].ts), events[c].payload.queue, SchedSince(events, n, c, id)))
  }

  function AfterOpen(open: map<u64, OpenCb>, e: Event): (r: map<u64, OpenCb>)
  {
    match e.payload
    case CbCommitted(cb, queue) => open[cb := OpenCb(Micros(e.ts), queue, None)]
    case CbScheduled(cb, _) => if cb in open then open[cb := open[cb].(sched := Some(Micros(e.ts)))] else open
    case CbCompleted(cb, _, _) => open - {cb}
    case _ => open
  }

  lemma OpenStep(open: map<u64, OpenCb>, events: seq<Event>, n: nat)
    requires n < |events| && TracksOpen(open, events, n)
    ensures TracksOpen(AfterOpen(open, events[n]), events, n + 1)
  {
    hide Micros;
  }

  lemma OpenFound(open: map<u64, OpenCb>, events: seq<Event>, n: nat)
    requires n < |events| && TracksOpen(open, events, n) && events[n].payload.CbCompleted?
    ensures CommitOf(events, n).Some? <==> events[n].payload.cb in open
    ensures CommitOf(events, n).Some? ==>
              var c := CommitOf(events, n).value;
              open[events[n].payload.cb] == OpenCb(Micros(events[c].ts), events[c].payload.queue,
                  SchedSince(events, n, c, events[n].payload.cb))
  {
  }

  ghost predicate TracksBusy(busy: map<u64, real>, ws: seq<GpuWindow>)
  {
    forall q: u64 :: BusyUntil(ws, q) == if q in busy then busy[q] else 0.0
  }

  lemma BusyStep(busy: map<u64, real>, ws: seq<GpuWindow>, w: GpuWindow)
    requires TracksBusy(busy, ws)
    ensures TracksBusy(busy[w.queue := w.end], ws + [w])
  {
    assert (ws + [w])[..|ws|] == ws;
  }

  // ----- one buffer id on its own -----

  /** What a buffer id is waiting for: nothing, the ops of the completion at `at`, or the completion of the ops it
      holds. */
  datatype Slot = Empty | Waits(at: nat) | Holds(ops: seq<OpSample>)

  function SlotAt(events: seq<Event>, n: nat, cb: u64): (r: Slot)
    requires n <= |events|
    ensures r.Waits? ==> r.at < n && CommitOf(events, r.at).Some? && events[r.at].payload.cb == cb
  {
    if n == 0 then Empty
    else
      var before := SlotAt(events, n - 1, cb);
      if CommitOf(events, n - 1).Some? && events[n - 1].payload.cb == cb then
        if before.Holds? then Empty else Waits(n - 1)
      else match events[n - 1].payload
        case CbOps(x, ops) =>
          if x != cb then before
          else (match before case Waits(_) => Empty case Holds(held) => Holds(held + ops) case Empty => Holds(ops))
        case _ => before
  }

  /** The place of the completion at `k` among the paired completions. */
  function WindowOf(events: seq<Event>, k: nat): (r: nat)
    requires k < |events|
  {
    |Completions(events, k)|
  }

  /** Which ops are drawn in which window: a completion takes the ops its id holds, later ops go to the
      completion that waits for them. */
  function BatchesUpTo(events: seq<Event>, n: nat): (r: seq<Batch>)
    requires n <= |events|
  {
    if n == 0 then []
    else
      var before := BatchesUpTo(events, n - 1);
      if CommitOf(events, n - 1).Some? then
        match SlotAt(events, n - 1, events[n - 1].payload.cb)
        case Holds(ops) => before + [Batch(WindowOf(events, n - 1), ops)]
        case _ => before
      else match events[n - 1].payload
        case CbOps(cb, ops) =>
          (match SlotAt(events, n - 1, cb) case Waits(k) => before + [Batch(WindowOf(events, k), ops)] case _ => before)
        case _ => before
  }

  /** A waiting completion is its id's latest. */
  lemma {:induction false} TheLatestWaits(events: seq<Event>, n: nat, cb: u64)
    requires n <= |events| && SlotAt(events, n, cb).Waits?
    ensures LastPaired(events, n, cb) == Some(SlotAt(events, n, cb).at)
  {
    hide CommitOf;
    if n > 0 && !(CommitOf(events, n - 1).Some? && events[n - 1].payload.cb == cb) {
      TheLatestWaits(events, n - 1, cb);
    }
  }

  /** When every id repeats committed, completed, optional ops, no id ever holds ops, and after its
      completion it waits for them: each ops event is drawn in its own buffer's window. */
  lemma {:induction false} OrderlyOpsAreDrawnAtOnce(events: seq<Event>, n: nat, cb: u64)
    requires WellFormedLifetimes(events) && n <= |events|
    ensures !SlotAt(events, n, cb).Holds?
    ensures FollowsCompletion(events, n, cb) ==> SlotAt(events, n, cb) == Waits(PrevTouch(events, n, cb).value)
  {
    hide CommitOf, WellFormedLifetimes;
    if n > 0 {
      OrderlyOpsAreDrawnAtOnce(events, n - 1, cb);
      OrderlyAt(events, n - 1);
    }
  }

  lemma OrderlyAt(events: seq<Event>, n: nat)
    requires WellFormedLifetimes(events) && n < |events|
    ensures InLifetimeOrder(events, n) && (events[n].payload.CbCompleted? <==> CommitOf(events, n).Some?)
  {
    hide OpenAt;
    if events[n].payload.CbCompleted? {
      CompletionGetsItsCommit(events, n);
    }
  }

  // ----- the lanes' invariant -----

  /** The maps say of every id what its slot says; `waiting` names the waiting windows by their place. */
  ghost predicate SlotHolds(s: Lanes, waiting: map<u64, nat>, slot: Slot, cb: u64, events: seq<Event>)
    requires slot.Waits? ==> slot.at < |events|
  {
    match slot
    case Empty => cb !in s.awaiting && cb !in waiting && cb !in s.pending
    case Waits(k) =>
      && cb in s.awaiting && cb in waiting && cb !in s.pending
      && waiting[cb] == WindowOf(events, k) < |s.windows| && s.awaiting[cb] == s.windows[waiting[cb]]
    case Holds(ops) => cb !in s.awaiting && cb !in waiting && cb in s.pending && s.pending[cb] == ops
  }

  ghost predicate SlotsHold(s: Lanes, waiting: map<u64, nat>, events: seq<Event>, n: nat)
    requires n <= |events|
  {
    forall cb: u64 :: SlotHolds(s, waiting, SlotAt(events, n, cb), cb, events)
  }

  ghost predicate LanesHold(s: Lanes, waiting: map<u64, nat>, events: seq<Event>, n: nat)
    requires n <= |events|
  {
    && s.windows == WindowsUpTo(events, n) && TracksBusy(s.busy, s.windows)
    && OneBatchPerWindow(s.windows, BatchesUpTo(events, n), waiting)
    && s.kernels == Rows(s.windows, BatchesUpTo(events, n))
    && SlotsHold(s, waiting, events, n)
  }

  lemma NothingDrawnYet(events: seq<Event>)
    ensures LanesHold(Lanes(map[], map[], map[], map[], [], []), map[], events, 0)
    ensures TracksOpen(map[], events, 0)
  {
  }

  /** An event that neither completes a buffer nor carries ops changes nothing here. */
  lemma QuietStep(s: Lanes, waiting: map<u64, nat>, events: seq<Event>, n: nat)
    requires n < |events| && LanesHold(s, waiting, events, n)
    requires CommitOf(events, n).None? && !events[n].payload.CbOps?
    ensures LanesHold(s, waiting, events, n + 1)
  {
    hide CommitOf, OneBatchPerWindow, Rows, TracksBusy, SlotHolds;
    var m := n + 1;
    forall cb: u64
      ensures SlotHolds(s, waiting, SlotAt(events, m, cb), cb, events)
    {
      assert SlotAt(events, m, cb) == SlotAt(events, n, cb);
      assert SlotHolds(s, waiting, SlotAt(events, n, cb), cb, events);
    }
  }

  lemma {:induction false} RowsIgnoreLaterWindows(ws: seq<GpuWindow>, w: GpuWindow, batches: seq<Batch>)
    requires forall i :: 0 <= i < |batches| ==> batches[i].window < |ws|
    ensures Rows(ws + [w], batches) == Rows(ws, batches)
    decreases |batches|
  {
    hide Kernels;
    if batches != [] {
      RowsIgnoreLaterWindows(ws, w, batches[..|batches| - 1]);
    }
  }

  lemma RowsMore(ws: seq<GpuWindow>, batches: seq<Batch>, b: Batch)
    requires b.window < |ws| && forall i :: 0 <= i < |batches| ==> batches[i].window < |ws|
    ensures Rows(ws, batches + [b]) == Rows(ws, batches) + Kernels(ws[b.window], b.ops)
  {
    hide Kernels;
    assert (batches + [b])[..|batches|] == batches;
  }

  // ----- the pass -----

  function Drawing(s: Lanes, w: GpuWindow): (r: Lanes)
  {
    s.(busy := s.busy[w.queue := w.end], windows := s.windows + [w])
  }

  lemma SlotAfterCompletion(events: seq<Event>, n: nat, cb: u64)
    requires n < |events| && CommitOf(events, n).Some?
    ensures SlotAt(events, n + 1, cb) ==
            if events[n].payload.cb != cb then SlotAt(events, n, cb)
            else if SlotAt(events, n, cb).Holds? then Empty else Waits(n)
  {
    hide CommitOf;
  }

  lemma SlotAfterOps(events: seq<Event>, n: nat, cb: u64)
    requires n < |events| && events[n].payload.CbOps?
    ensures SlotAt(events, n + 1, cb) ==
            if events[n].payload.cb != cb then SlotAt(events, n, cb)
            else match SlotAt(events, n, cb)
              case Waits(_) => Empty
              case Holds(held) => Holds(held + events[n].payload.ops)
              case Empty => Holds(events[n].payload.ops)
    ensures BatchesUpTo(events, n + 1) ==
            BatchesUpTo(events, n)
            + match SlotAt(events, n, events[n].payload.cb)
              case Waits(k) => [Batch(WindowOf(events, k), events[n].payload.ops)]
              case _ => []
  {
  }

  lemma BatchesAfterCompletion(events: seq<Event>, n: nat)
    requires n < |events| && CommitOf(events, n).Some?
    ensures BatchesUpTo(events, n + 1) ==
            BatchesUpTo(events, n)
            + match SlotAt(events, n, events[n].payload.cb)
              case Holds(ops) => [Batch(WindowOf(events, n), ops)]
              case _ => []
  {
    hide CommitOf;
  }

  lemma CompleteWithPending(s: Lanes, waiting: map<u64, nat>, events: seq<Event>, n: nat, w: GpuWindow, cb: u64)
    requires n < |events| && LanesHold(s, waiting, events, n) && WindowsUpTo(events, n + 1) == s.windows + [w]
    requires CommitOf(events, n).Some? && events[n].payload.cb == cb && cb in s.pending
    ensures LanesHold(
              Drawing(s, w).(pending := s.pending - {cb}, kernels := s.kernels + Kernels(w, s.pending[cb])),
              waiting, events, n + 1)
  {
    hide Kernels, CommitOf, BusyUntil, OneBatchPerWindow, Rows, TracksBusy, WindowsUpTo, SlotAt, BatchesUpTo;
    var batches, ops := BatchesUpTo(events, n), s.pending[cb];
    assert SlotHolds(s, waiting, SlotAt(events, n, cb), cb, events);
    BusyStep(s.busy, s.windows, w);
    BatchesBelow(s.windows, batches, waiting);
    RowsIgnoreLaterWindows(s.windows, w, batches);
    NewBatch(s.windows, w, batches, waiting, ops);
    RowsMore(s.windows + [w], batches, Batch(|s.windows|, ops));
    BatchesAfterCompletion(events, n);
    var next, m := Drawing(s, w).(pending := s.pending - {cb}, kernels := s.kernels + Kernels(w, ops)), n + 1;
    forall id: u64
      ensures SlotHolds(next, waiting, SlotAt(events, m, id), id, events)
    {
      SlotAfterCompletion(events, n, id);
      assert SlotHolds(s, waiting, SlotAt(events, n, id), id, events);
    }
  }

  lemma CompleteAndWait(s: Lanes, waiting: map<u64, nat>, events: seq<Event>, n: nat, w: GpuWindow, cb: u64)
    requires n < |events| && LanesHold(s, waiting, events, n) && WindowsUpTo(events, n + 1) == s.windows + [w]
    requires CommitOf(events, n).Some? && events[n].payload.cb == cb && cb !in s.pending
    ensures LanesHold(Drawing(s, w).(awaiting := s.awaiting[cb := w]), waiting[cb := |s.windows|], events, n + 1)
  {
    hide Kernels, CommitOf, BusyUntil, OneBatchPerWindow, Rows, TracksBusy, WindowsUpTo, SlotAt, BatchesUpTo;
    var batches := BatchesUpTo(events, n);
    assert SlotHolds(s, waiting, SlotAt(events, n, cb), cb, events);
    BusyStep(s.busy, s.windows, w);
    BatchesBelow(s.windows, batches, waiting);
    RowsIgnoreLaterWindows(s.windows, w, batches);
    NewWaiting(s.windows, w, batches, waiting, cb);
    BatchesAfterCompletion(events, n);
    assert batches + [] == batches;
    var next, more, m := Drawing(s, w).(awaiting := s.awaiting[cb := w]), waiting[cb := |s.windows|], n + 1;
    forall id: u64
      ensures SlotHolds(next, more, SlotAt(events, m, id), id, events)
    {
      SlotAfterCompletion(events, n, id);
      assert SlotHolds(s, waiting, SlotAt(events, n, id), id, events);
    }
  }

  method Complete(s: Lanes, cb: u64, open: OpenCb, inFlightNs: u64, ghost before: map<u64, nat>,
      ghost events: seq<Event>, ghost n: nat)
    returns (r: Lanes, ghost waiting: map<u64, nat>)
    requires n < |events| && LanesHold(s, before, events, n)
    requires events[n].payload.CbCompleted? && events[n].payload.cb == cb && events[n].payload.inFlightNs == inFlightNs
    requires CommitOf(events, n).Some?
    requires var c := CommitOf(events, n).value;
             open == OpenCb(Micros(events[c].ts), events[c].payload.queue, SchedSince(events, n, c, cb))
    ensures LanesHold(r, waiting, events, n + 1) && r.open == s.open
  {
    hide Kernels, Micros, SchedSince, CommitOf, WindowsUpTo, OneBatchPerWindow, Rows, TracksBusy, SlotsHold,
         BatchesUpTo;
    var inFlightEnd := open.commit + Micros(inFlightNs);
    var busy := if open.queue in s.busy then s.busy[open.queue] else 0.0;
    var start := RMax(RMax(if open.sched.Some? then open.sched.value else open.commit, open.commit), busy);
    var window := GpuWindow(start, RMax(inFlightEnd, start), open.queue);
    WindowIs(events, n, s.windows, s.busy, open, window);
    r := Drawing(s, window);
    if cb in s.pending {
      CompleteWithPending(s, before, events, n, window, cb);
      var kernels := PushKernels(s.kernels, window, s.pending[cb]);
      r := r.(pending := s.pending - {cb}, kernels := kernels);
      waiting := before;
    } else {
      CompleteAndWait(s, before, events, n, window, cb);
      r := r.(awaiting := s.awaiting[cb := window]);
      waiting := before[cb := |s.windows|];
    }
  }

  lemma BatchesBelow(ws: seq<GpuWindow>, batches: seq<Batch>, waiting: map<u64, nat>)
    requires OneBatchPerWindow(ws, batches, waiting)
    ensures forall i :: 0 <= i < |batches| ==> batches[i].window < |ws|
  {
  }

  lemma WindowIs(events: seq<Event>, n: nat, ws: seq<GpuWindow>, busy: map<u64, real>, open: OpenCb, w: GpuWindow)
    requires n < |events| && CommitOf(events, n).Some? && ws == WindowsUpTo(events, n) && TracksBusy(busy, ws)
    requires var c := CommitOf(events, n).value;
             open == OpenCb(Micros(events[c].ts), events[c].payload.queue,
                 SchedSince(events, n, c, events[n].payload.cb))
    requires w == WindowFrom(open.commit, open.sched, events[n].payload.inFlightNs,
                             if open.queue in busy then busy[open.queue] else 0.0, open.queue)
    ensures WindowsUpTo(events, n + 1) == ws + [w]
  {
    hide BusyUntil, Micros, SchedSince, WindowFrom, CommitOf;
  }

  lemma NewBatch(ws: seq<GpuWindow>, w: GpuWindow, batches: seq<Batch>, waiting: map<u64, nat>, ops: seq<OpSample>)
    requires OneBatchPerWindow(ws, batches, waiting)
    ensures OneBatchPerWindow(ws + [w], batches + [Batch(|ws|, ops)], waiting)
  {
  }

  lemma NewWaiting(ws: seq<GpuWindow>, w: GpuWindow, batches: seq<Batch>, waiting: map<u64, nat>, cb: u64)
    requires OneBatchPerWindow(ws, batches, waiting)
    ensures OneBatchPerWindow(ws + [w], batches, waiting[cb := |ws|])
  {
  }

  lemma UseWaiting(ws: seq<GpuWindow>, batches: seq<Batch>, waiting: map<u64, nat>, cb: u64, ops: seq<OpSample>)
    requires OneBatchPerWindow(ws, batches, waiting) && cb in waiting
    ensures OneBatchPerWindow(ws, batches + [Batch(waiting[cb], ops)], waiting - {cb})
  {
  }

  lemma DrawInWaiting(s: Lanes, waiting: map<u64, nat>, events: seq<Event>, n: nat, cb: u64, ops: seq<OpSample>)
    requires n < |events| && LanesHold(s, waiting, events, n) && events[n].payload == CbOps(cb, ops) && cb in s.awaiting
    ensures LanesHold(
              s.(awaiting := s.awaiting - {cb}, kernels := s.kernels + Kernels(s.awaiting[cb], ops)), waiting - {cb},
                  events, n + 1)
  {
    hide Kernels, CommitOf, BusyUntil, OneBatchPerWindow, Rows, TracksBusy, SlotAt, BatchesUpTo;
    var batches := BatchesUpTo(events, n);
    NotPaired(events, n);
    assert SlotHolds(s, waiting, SlotAt(events, n, cb), cb, events);
    BatchesBelow(s.windows, batches, waiting);
    RowsMore(s.windows, batches, Batch(waiting[cb], ops));
    UseWaiting(s.windows, batches, waiting, cb, ops);
    SlotAfterOps(events, n, cb);
    var next, fewer, m := s.(awaiting := s.awaiting - {cb}, kernels := s.kernels + Kernels(s.awaiting[cb], ops)),
        waiting - {cb}, n + 1;
    forall id: u64
      ensures SlotHolds(next, fewer, SlotAt(events, m, id), id, events)
    {
      SlotAfterOps(events, n, id);
      assert SlotHolds(s, waiting, SlotAt(events, n, id), id, events);
    }
  }

  lemma KeepForLater(s: Lanes, waiting: map<u64, nat>, events: seq<Event>, n: nat, cb: u64, ops: seq<OpSample>)
    requires n < |events| && LanesHold(s, waiting, events, n) && events[n].payload == CbOps(cb, ops)
             && cb !in s.awaiting
    ensures LanesHold(
              s.(pending := s.pending[cb := (if cb in s.pending then s.pending[cb] else []) + ops]),
              waiting, events, n + 1)
  {
    hide Kernels, CommitOf, BusyUntil, OneBatchPerWindow, Rows, TracksBusy, SlotAt, BatchesUpTo;
    NotPaired(events, n);
    assert SlotHolds(s, waiting, SlotAt(events, n, cb), cb, events);
    SlotAfterOps(events, n, cb);
    assert BatchesUpTo(events, n) + [] == BatchesUpTo(events, n) && [] + ops == ops;
    var next, m := s.(pending := s.pending[cb := (if cb in s.pending then s.pending[cb] else []) + ops]), n + 1;
    forall id: u64
      ensures SlotHolds(next, waiting, SlotAt(events, m, id), id, events)
    {
      SlotAfterOps(events, n, id);
      assert SlotHolds(s, waiting, SlotAt(events, n, id), id, events);
    }
  }

  method DrawOps(s: Lanes, cb: u64, ops: seq<OpSample>, ghost before: map<u64, nat>, ghost events: seq<Event>,
      ghost n: nat)
    returns (r: Lanes, ghost waiting: map<u64, nat>)
    requires n < |events| && LanesHold(s, before, events, n) && events[n].payload == CbOps(cb, ops)
    ensures LanesHold(r, waiting, events, n + 1) && r.open == s.open
  {
    hide Kernels, LanesHold;
    if cb in s.awaiting {
      DrawInWaiting(s, before, events, n, cb, ops);
      var kernels := PushKernels(s.kernels, s.awaiting[cb], ops);
      r := s.(awaiting := s.awaiting - {cb}, kernels := kernels);
      waiting := before - {cb};
    } else {
      KeepForLater(s, before, events, n, cb, ops);
      var held := if cb in s.pending then s.pending[cb] else [];
      r := s.(pending := s.pending[cb := held + ops]);
      waiting := before;
    }
  }

  lemma NotPaired(events: seq<Event>, n: nat)
    requires n < |events| && !events[n].payload.CbCompleted?
    ensures CommitOf(events, n).None?
  {
  }

  /** Every batch goes to a window of its own. */
  ghost predicate BatchesFit(windows: seq<GpuWindow>, batches: seq<Batch>)
  {
    && (forall i :: 0 <= i < |batches| ==> batches[i].window < |windows|)
    && (forall i, j :: 0 <= i < j < |batches| ==> batches[i].window != batches[j].window)
  }

  /** The GPU windows of the session. */
  function WindowLane(events: seq<Event>): (r: seq<GpuWindow>) { WindowsUpTo(events, |events|) }

  /** The kernels of the session: every batch in its window. */
  ghost function KernelLane(events: seq<Event>): (r: seq<Kernel>)
  {
    var windows, batches := WindowLane(events), BatchesUpTo(events, |events|);
    if BatchesFit(windows, batches) then Rows(windows, batches) else []
  }

  /** The Metal lanes of the trace are exactly what the definitions give. */
  method ToChromeTrace(events: seq<Event>) returns (windows: seq<GpuWindow>, kernels: seq<Kernel>)
    ensures windows == WindowLane(events)
    ensures kernels == KernelLane(events)
  {
    hide LanesHold, TracksOpen, CommitOf, Serialized, Rows, WindowsUpTo, Apart, BatchesUpTo;
    var s := Lanes(map[], map[], map[], map[], [], []);
    ghost var waiting: map<u64, nat> := map[];
    NothingDrawnYet(events);
    for i := 0 to |events|
      invariant LanesHold(s, waiting, events, i) && TracksOpen(s.open, events, i)
    {
      var ev := events[i];
      OpenStep(s.open, events, i);
      var open := AfterOpen(s.open, ev);
      match ev.payload {
        case CbCompleted(cb, _, inFlightNs) =>
          OpenFound(s.open, events, i);
          if cb in s.open {
            s, waiting := Complete(s, cb, s.open[cb], inFlightNs, waiting, events, i);
          } else {
            QuietStep(s, waiting, events, i);
          }
        case CbOps(cb, ops) =>
          s, waiting := DrawOps(s, cb, ops, waiting, events, i);
        case _ =>
          NotPaired(events, i);
          QuietStep(s, waiting, events, i);
      }
      OpenIsApart(s, waiting, events, i + 1, open);
      s := s.(open := open);
    }
    windows, kernels := s.windows, s.kernels;
    Finished(s, waiting, events);
  }

  lemma OpenIsApart(s: Lanes, waiting: map<u64, nat>, events: seq<Event>, n: nat, open: map<u64, OpenCb>)
    requires n <= |events| && LanesHold(s, waiting, events, n)
    ensures LanesHold(s.(open := open), waiting, events, n)
  {
    hide SlotAt, BatchesUpTo, Rows, OneBatchPerWindow, WindowsUpTo, TracksBusy;
    forall cb: u64
      ensures SlotHolds(s.(open := open), waiting, SlotAt(events, n, cb), cb, events)
    {
      assert SlotHolds(s, waiting, SlotAt(events, n, cb), cb, events);
    }
  }

  lemma Finished(s: Lanes, waiting: map<u64, nat>, events: seq<Event>)
    requires LanesHold(s, waiting, events, |events|)
    ensures s.windows == WindowLane(events) && s.kernels == KernelLane(events)
  {
    hide Rows, WindowsUpTo, SlotsHold, BatchesUpTo;
  }

  // ----- what the lanes look like -----

  lemma WindowsStep(events: seq<Event>, n: nat)
    requires n < |events| && CommitOf(events, n).Some?
    ensures WindowsUpTo(events, n + 1) == WindowsUpTo(events, n) + [WindowFor(events, n, WindowsUpTo(events, n))]
  {
    hide CommitOf, WindowFor;
  }

  /** Some state of the maps goes with every prefix of the session. */
  lemma {:induction false} LanesExist(events: seq<Event>, n: nat) returns (s: Lanes, waiting: map<u64, nat>)
    requires n <= |events|
    ensures LanesHold(s, waiting, events, n)
  {
    hide LanesHold, CommitOf, WindowFor, WindowsUpTo, Kernels;
    if n == 0 {
      NothingDrawnYet(events);
      s, waiting := Lanes(map[], map[], map[], map[], [], []), map[];
    } else {
      var k := n - 1;
      var t, before := LanesExist(events, k);
      if CommitOf(events, k).Some? {
        var cb, w := events[k].payload.cb, WindowFor(events, k, WindowsUpTo(events, k));
        WindowsStep(events, k);
        LaneWindows(t, before, events, k);
        if cb in t.pending {
          CompleteWithPending(t, before, events, k, w, cb);
          s, waiting := Drawing(t, w).(pending := t.pending - {cb}, kernels := t.kernels + Kernels(w, t.pending[cb])),
              before;
        } else {
          CompleteAndWait(t, before, events, k, w, cb);
          s, waiting := Drawing(t, w).(awaiting := t.awaiting[cb := w]), before[cb := |t.windows|];
        }
      } else if events[k].payload.CbOps? {
        var cb, ops := events[k].payload.cb, events[k].payload.ops;
        if cb in t.awaiting {
          DrawInWaiting(t, before, events, k, cb, ops);
          s, waiting := t.(awaiting := t.awaiting - {cb}, kernels := t.kernels + Kernels(t.awaiting[cb], ops)),
              before - {cb};
        } else {
          KeepForLater(t, before, events, k, cb, ops);
          s, waiting := t.(pending := t.pending[cb := (if cb in t.pending then t.pending[cb] else []) + ops]), before;
        }
      } else {
        QuietStep(t, before, events, k);
        s, waiting := t, before;
      }
    }
  }

  lemma LaneWindows(s: Lanes, waiting: map<u64, nat>, events: seq<Event>, n: nat)
    requires n <= |events| && LanesHold(s, waiting, events, n)
    ensures s.windows == WindowsUpTo(events, n)
  {
  }

  /** Every window is drawn at most one batch of kernels, and the windows of a queue follow each other. */
  lemma WindowsAreUsedOnce(events: seq<Event>)
    ensures Serialized(WindowLane(events)) && BatchesFit(WindowLane(events), BatchesUpTo(events, |events|))
  {
    hide Rows, WindowsUpTo, SlotsHold, BatchesUpTo, TracksBusy;
    var s, waiting := LanesExist(events, |events|);
    WindowsNeverOverlap(events, |events|);
  }

  /** Every kernel is the `i`-th of some batch and lies inside the window of that batch, in any session. */
  lemma KernelsLieInTheirWindows(events: seq<Event>, p: nat) returns (b: nat, i: nat)
    requires p < |KernelLane(events)|
    ensures b < |BatchesUpTo(events, |events|)| && i < |BatchesUpTo(events, |events|)[b].ops|
    ensures var batch, k := BatchesUpTo(events, |events|)[b], KernelLane(events)[p];
            && batch.window < |WindowLane(events)|
            && var w := WindowLane(events)[batch.window];
               && k.name == Tallies.OpKey(batch.ops[i]) && k.queue == w.queue
               && w.start <= k.ts <= k.ts + k.dur <= w.end
  {
    hide Rows, Kernels, WindowsUpTo, BatchesUpTo;
    WindowsNeverOverlap(events, |events|);
    var windows, batches := WindowLane(events), BatchesUpTo(events, |events|);
    b, i := KernelComesFrom(windows, batches, p);
    KernelsStayInside(windows[batches[b].window], batches[b].ops, i);
    KernelsKeepNames(windows[batches[b].window], batches[b].ops, i);
  }

  /** No two kernels of a queue overlap, in any session. */
  lemma KernelsOfAQueueAreDisjoint(events: seq<Event>, p: nat, q: nat)
    requires p < q < |KernelLane(events)| && KernelLane(events)[p].queue == KernelLane(events)[q].queue
    ensures Apart(KernelLane(events)[p], KernelLane(events)[q])
  {
    hide Rows, WindowsUpTo, SlotsHold, BatchesUpTo, TracksBusy;
    var s, waiting := LanesExist(events, |events|);
    WindowsNeverOverlap(events, |events|);
    KernelsNeverOverlap(WindowLane(events), BatchesUpTo(events, |events|), waiting, p, q);
  }
}
