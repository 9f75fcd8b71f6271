/** What the clamp makes of every ops event, told from the recorded times alone. */
module ClampExact {
  import opened Arithmetic
  import opened Bytes
  import opened Events
  import opened Windows
  import opened OpClamp
  import opened Breakdown
  import opened ExportWindows

  // ----- the time a buffer had its queue, told by positions -----

  predicate Touches(events: seq<Event>, m: nat, cb: u64)
    requires m < |events|
  {
    (events[m].payload.CbCompleted? || events[m].payload.CbOps?) && events[m].payload.cb == cb
  }

  /** The ops event at `j` follows the completion at `k` of its buffer, which was last scheduled at `i`. */
  ghost predicate Ran(events: seq<Event>, j: nat, k: nat, i: nat)
  {
    && i < k < j < |events| && events[j].payload.CbOps? && events[k].payload.CbCompleted?
       && events[i].payload.CbScheduled?
    && events[i].payload.cb == events[k].payload.cb == events[j].payload.cb
    && (forall m :: k < m < j ==> !Touches(events, m, events[j].payload.cb))
    && (forall m :: i < m < k ==>
          !((events[m].payload.CbScheduled? || events[m].payload.CbCompleted?)
              && events[m].payload.cb == events[k].payload.cb))
  }

  /** The queue of the completion at `k` was free from `t` on: its previous completion, or the start of time. */
  ghost predicate FreeFrom(events: seq<Event>, k: nat, t: nat)
    requires k < |events| && events[k].payload.CbCompleted?
  {
    var queue := events[k].payload.queue;
    || (t == 0 && forall m :: 0 <= m < k ==> !(events[m].payload.CbCompleted? && events[m].payload.queue == queue))
    || (exists m ::
          && 0 <= m < k && events[m].payload.CbCompleted? && events[m].payload.queue == queue
          && t == events[m].ts
          && forall d :: m < d < k ==> !(events[d].payload.CbCompleted? && events[d].payload.queue == queue))
  }

  lemma {:induction false} LastDoneIs(events: seq<Event>, k: nat, queue: u64)
    requires k <= |events|
    ensures match LastDone(events, k, queue)
            case None => forall m :: 0 <= m < k ==>
                  !(events[m].payload.CbCompleted? && events[m].payload.queue == queue)
            case Some(t) =>
              exists m ::
                && 0 <= m < k && events[m].payload.CbCompleted? && events[m].payload.queue == queue
                && t == events[m].ts
                && forall d :: m < d < k ==> !(events[d].payload.CbCompleted? && events[d].payload.queue == queue)
  {
    if k > 0 {
      LastDoneIs(events, k - 1, queue);
    }
  }

  lemma FreeFromIs(events: seq<Event>, k: nat, t: nat)
    requires k < |events| && events[k].payload.CbCompleted? && FreeFrom(events, k, t)
    ensures OrZero(LastDone(events, k, events[k].payload.queue)) == t
  {
    hide LastDone;
    LastDoneIs(events, k, events[k].payload.queue);
  }

  lemma SchedIs(events: seq<Event>, j: nat, k: nat, i: nat)
    requires Ran(events, j, k, i)
    ensures SchedOf(events, k) == Some(i)
  {
    hide OpenAt;
    OpenAtIs(events, k, SchedRole, events[k].payload.cb, i);
  }

  /** The latest completion or ops event of the buffer decides. */
  lemma {:induction false} PendingIs(events: seq<Event>, j: nat, k: nat, cb: u64)
    requires k < j <= |events| && events[k].payload.CbCompleted? && events[k].payload.cb == cb
    requires forall m :: k < m < j ==> !Touches(events, m, cb)
    ensures PendingWindow(events, j, cb) == if SchedOf(events, k).Some? then Some(k) else None
    decreases j
  {
    hide SchedOf;
    if k < j - 1 {
      assert !Touches(events, j - 1, cb);
      PendingIs(events, j - 1, k, cb);
    }
  }

  lemma {:induction false} PendingWas(events: seq<Event>, j: nat, cb: u64)
    requires j <= |events| && PendingWindow(events, j, cb).Some?
    ensures var k := PendingWindow(events, j, cb).value; forall m :: k < m < j ==> !Touches(events, m, cb)
  {
    hide SchedOf;
    if j > 0 && PendingWindow(events, j, cb) != Some(j - 1) {
      PendingWas(events, j - 1, cb);
    }
  }

  lemma RanWhenPending(events: seq<Event>, j: nat) returns (k: nat, i: nat)
    requires j < |events| && events[j].payload.CbOps? && PendingWindow(events, j, events[j].payload.cb).Some?
    ensures Ran(events, j, k, i) && PendingWindow(events, j, events[j].payload.cb) == Some(k)
  {
    hide OpenAt, PendingWindow;
    k := PendingWindow(events, j, events[j].payload.cb).value;
    i := SchedOf(events, k).value;
    PendingWas(events, j, events[j].payload.cb);
    OpenAtIs(events, k, SchedRole, events[k].payload.cb, i);
  }

  // ----- sums of scaled times -----

  /** Together they stay below the window by less than one nanosecond an op. */
  lemma {:induction false} ScaledSums(before: seq<OpSample>, after: seq<OpSample>, window: nat, sum: nat)
    requires AllScaledDown(before, after, window, sum)
    ensures SumGpu(after) * sum <= SumGpu(before) * window
    ensures if before == [] then SumGpu(before) == 0 else SumGpu(before) * window < (SumGpu(after) + |after|) * sum
    decreases |before|
  {
    if before != [] {
      var n := |before| - 1;
      var g, x, gs, xs := before[n].gpuNs, after[n].gpuNs, SumGpu(before[..n]), SumGpu(after[..n]);
      ScaledSums(before[..n], after[..n], window, sum);
      assert ScaledDown(g, x, window, sum);
      Distribute(xs, x, sum);
      Distribute(gs, g, window);
      Distribute(xs + n, x + 1, sum);
    }
  }

  /** What rounding takes away is nothing exactly when every scaled time is whole. */
  lemma {:induction false} RestsAddUp(before: seq<OpSample>, after: seq<OpSample>, window: nat, sum: nat)
    requires AllScaledDown(before, after, window, sum)
    ensures SumGpu(after) * sum <= SumGpu(before) * window
    ensures SumGpu(after) * sum == SumGpu(before) * window <==>
            forall p :: 0 <= p < |before| ==> after[p].gpuNs * sum == before[p].gpuNs * window
    decreases |before|
  {
    if before != [] {
      var n := |before| - 1;
      var g, x, gs, xs := before[n].gpuNs, after[n].gpuNs, SumGpu(before[..n]), SumGpu(after[..n]);
      RestsAddUp(before[..n], after[..n], window, sum);
      assert ScaledDown(g, x, window, sum);
      Distribute(xs, x, sum);
      Distribute(gs, g, window);
    }
  }

  lemma BelowTheSum(a: nat, b: nat, sum: nat)
    requires a * sum < b * sum
    ensures a < b
  {
  }

  lemma AtMostTheSum(a: nat, b: nat, sum: nat)
    requires a * sum <= b * sum && sum > 0
    ensures a <= b
  {
  }

  lemma SumGpuOfNothing()
    ensures SumGpu([]) == 0
  {
  }

  lemma SameFactor(a: nat, b: nat, c: nat)
    requires c > 0
    ensures a == b <==> a * c == b * c
  {
  }

  // ----- the rewritten events -----

  /** The ops of the event at `j` after the clamp. */
  function OpsAfter(events: seq<Event>, j: nat): (r: seq<OpSample>)
    requires j < |events| && events[j].payload.CbOps?
  {
    Clamped(events)[j].payload.ops
  }

  lemma RewrittenBy(events: seq<Event>, j: nat)
    requires DistinctOpsSeq(events) && j < |events| && events[j].payload.CbOps?
    ensures OpsAfter(events, j) == ScaleOps(ScaleAt(events, j), events[j].payload.ops)
    ensures Clamped(events)[j] == events[j].(payload := CbOps(events[j].payload.cb, OpsAfter(events, j)))
  {
    hide ScaleAt, DistinctOpsSeq;
    FactorIsItsOwn(events, |events|, j);
  }

  /** The clamp on an ops event, from the recorded times alone. The buffer had its queue from its scheduling, or the
      queue's previous completion if that was later, to its own completion. Ops that fit are left as they are.
      The others are scaled down in their proportions: they add up to at most that time, and to less than one
      nanosecond an op below it. */
  lemma ClampIsExact(events: seq<Event>, j: nat, k: nat, i: nat, free: nat)
    requires DistinctOpsSeq(events) && Ran(events, j, k, i) && FreeFrom(events, k, free)
    ensures var before, after := events[j].payload.ops, OpsAfter(events, j);
            var from := if events[i].ts >= free then events[i].ts as nat else free;
            var window := if events[k].ts >= from then events[k].ts - from else 0;
            if SumGpu(before) <= window then after == before
            else
              && AllScaledDown(before, after, window, SumGpu(before))
              && SumGpu(after) <= window < SumGpu(after) + |after|
              && (SumGpu(after) == window <==>
                    forall p :: 0 <= p < |before| ==> after[p].gpuNs * SumGpu(before) == before[p].gpuNs * window)
  {
    hide PendingWindow, SumGpu, DistinctOpsSeq, LastDone, SchedOf, AllScaledDown, FreeFrom;
    var before := events[j].payload.ops;
    RewrittenBy(events, j);
    WindowIs(events, j, k, i, free);
    ScaledByNothing(before);
    var window, sum := WindowLen(events, k), SumGpu(before);
    if sum > window {
      OpsAreScaledDown(before, Scale(window, sum));
      SumsUp(before, OpsAfter(events, j), window);
    }
  }

  lemma SumsUp(before: seq<OpSample>, after: seq<OpSample>, window: nat)
    requires AllScaledDown(before, after, window, SumGpu(before)) && SumGpu(before) > window
    ensures SumGpu(after) <= window < SumGpu(after) + |after|
    ensures SumGpu(after) == window <==>
            forall p :: 0 <= p < |before| ==> after[p].gpuNs * SumGpu(before) == before[p].gpuNs * window
  {
    hide AllScaledDown, SumGpu;
    var sum := SumGpu(before);
    SumGpuOfNothing();
    RestsAddUp(before, after, window, sum);
    SameFactor(SumGpu(after), window, sum);
    ScaledSums(before, after, window, sum);
    AtMostTheSum(SumGpu(after), window, sum);
    BelowTheSum(window, SumGpu(after) + |after|, sum);
  }

  lemma WindowIs(events: seq<Event>, j: nat, k: nat, i: nat, free: nat)
    requires Ran(events, j, k, i) && FreeFrom(events, k, free)
    ensures PendingWindow(events, j, events[j].payload.cb) == Some(k) && SchedOf(events, k) == Some(i)
    ensures var from := if events[i].ts >= free then events[i].ts as nat else free;
            WindowLen(events, k) == if events[k].ts >= from then events[k].ts - from else 0
  {
    hide PendingWindow, LastDone, SchedOf, FreeFrom;
    SchedIs(events, j, k, i);
    FreeFromIs(events, k, free);
    PendingIs(events, j, k, events[j].payload.cb);
  }

  /** Without such a run - never scheduled, never completed, or its time already claimed by other ops - ops stay raw. */
  lemma OthersStayRaw(events: seq<Event>, j: nat)
    requires DistinctOpsSeq(events) && j < |events| && events[j].payload.CbOps?
    requires forall k, i :: !Ran(events, j, k, i)
    ensures Clamped(events)[j] == events[j]
  {
    hide PendingWindow, SumGpu, DistinctOpsSeq, LastDone, SchedOf, Ran;
    RewrittenBy(events, j);
    ScaledByNothing(events[j].payload.ops);
    if PendingWindow(events, j, events[j].payload.cb).Some? {
      var k, i := RanWhenPending(events, j);
    }
  }

  /** Nothing but ops events is touched. */
  lemma OtherEventsStay(events: seq<Event>, j: nat)
    requires j < |events| && !events[j].payload.CbOps?
    ensures Clamped(events)[j] == events[j]
  {
    hide ScalesUpTo;
  }

  // ----- how many were clamped -----

  /** The ops events among the first `n` that are changed by the clamp. */
  ghost function ClampedOps(events: seq<Event>, n: nat): (r: set<nat>)
    requires n <= |events|
  {
    set j: nat | j < n && ExceedsItsTime(events, j)
  }

  /** The ops of the event add up to more than the time their buffer had its queue. */
  ghost predicate ExceedsItsTime(events: seq<Event>, j: nat)
  {
    exists k: nat, i: nat, free: nat :: ExceedsIn(events, j, k, i, free)
  }

  ghost predicate ExceedsIn(events: seq<Event>, j: nat, k: nat, i: nat, free: nat)
  {
    && Ran(events, j, k, i) && FreeFrom(events, k, free)
    && var from: nat := if events[i].ts >= free then events[i].ts else free;
       SumGpu(events[j].payload.ops) > Gap(from, events[k].ts)
  }

  function Gap(from: nat, to: nat): (r: nat) { if to >= from then to - from else 0 }

  lemma FreeFromSome(events: seq<Event>, k: nat)
    requires k < |events| && events[k].payload.CbCompleted?
    ensures FreeFrom(events, k, OrZero(LastDone(events, k, events[k].payload.queue)))
  {
    hide LastDone;
    LastDoneIs(events, k, events[k].payload.queue);
  }

  lemma ExceedsIs(events: seq<Event>, j: nat)
    requires j < |events|
    ensures ScaleAt(events, j).Some? <==> ExceedsItsTime(events, j)
  {
    hide PendingWindow, SumGpu, LastDone, SchedOf, Ran, FreeFrom;
    if ScaleAt(events, j).Some? {
      var k, i := RanWhenPending(events, j);
      RanInside(events, j, k, i);
      var free := OrZero(LastDone(events, k, events[k].payload.queue));
      FreeFromSome(events, k);
      WindowIs(events, j, k, i, free);
      assert ExceedsIn(events, j, k, i, free);
    }
    if ExceedsItsTime(events, j) {
      var k: nat, i: nat, free: nat :| ExceedsIn(events, j, k, i, free);
      RanInside(events, j, k, i);
      WindowIs(events, j, k, i, free);
    }
  }

  lemma RanInside(events: seq<Event>, j: nat, k: nat, i: nat)
    requires Ran(events, j, k, i)
    ensures i < k < j < |events| && events[j].payload.CbOps? && events[k].payload.CbCompleted?
  {
  }

  /** The count of clamped buffers is the number of ops events that exceed their buffers' time. */
  lemma {:induction false} FactorsCounted(events: seq<Event>, n: nat)
    requires n <= |events| && DistinctOpsSeq(events)
    ensures |ScalesUpTo(events, n)| == |ClampedOps(events, n)|
  {
    hide ScaleAt, DistinctOpsSeq, ExceedsItsTime;
    if n > 0 {
      FactorsCounted(events, n - 1);
      ExceedsIs(events, n - 1);
      OneMoreClamped(events, n - 1);
      if ScaleAt(events, n - 1).Some? {
        FactorIsItsOwnYet(events, n - 1);
        OneMoreKey(ScalesUpTo(events, n - 1), events[n - 1].seqNo, ScaleAt(events, n - 1).value);
      }
    }
  }

  lemma FactorIsItsOwnYet(events: seq<Event>, j: nat)
    requires DistinctOpsSeq(events) && j < |events| && ScaleAt(events, j).Some?
    ensures events[j].seqNo !in ScalesUpTo(events, j)
  {
    hide PendingWindow, WindowLen, SumGpu, DistinctOpsSeq;
    FactorIsItsOwn(events, j, j);
  }

  lemma OneMoreKey(m: map<u64, Scale>, k: u64, f: Scale)
    requires k !in m
    ensures |m[k := f]| == |m| + 1
  {
    assert m[k := f].Keys == m.Keys + {k};
  }

  lemma OneMoreClamped(events: seq<Event>, n: nat)
    requires n < |events|
    ensures |ClampedOps(events, n + 1)| == |ClampedOps(events, n)| + if ExceedsItsTime(events, n) then 1 else 0
  {
    hide ExceedsItsTime;
    if ExceedsItsTime(events, n) {
      assert ClampedOps(events, n + 1) == ClampedOps(events, n) + {n};
    } else {
      assert ClampedOps(events, n + 1) == ClampedOps(events, n);
    }
  }

  // ----- one clamped buffer -----

  const A: OpSample := OpSample("a", None, 150, 1, None)
  const B: OpSample := OpSample("b", None, 50, 1, Some(20))

  /** 200 ns of ops in a window of 100 ns. */
  function Overlapping(): (r: seq<Event>)
  {
    [ Event(0, 0, MetalHook, CbCommitted(1, 7)),
      Event(0, 1, MetalHook, CbScheduled(1, 7)),
      Event(100, 2, MetalHook, CbCompleted(1, 7, 100)),
      Event(110, 3, MetalHook, CbOps(1, [A, B])) ]
  }

  lemma OverlappingIsHalved()
    ensures OpsAfter(Overlapping(), 3) == [A.(gpuNs := 75), B.(gpuNs := 25, apportioned := Some(10))]
  {
    hide ScalesUpTo, ScaleAt, OpsAfter;
    RewrittenBy(Overlapping(), 3);
    OverlappingFactor();
  }

  lemma OverlappingFactor()
    ensures ScaleAt(Overlapping(), 3) == Some(Scale(100, 200))
    ensures ScaleOps(Some(Scale(100, 200)), [A, B]) == [A.(gpuNs := 75), B.(gpuNs := 25, apportioned := Some(10))]
  {
    hide WindowLen, PendingWindow, SchedOf, Ran, FreeFrom;
    OverlappingRan();
    WindowIs(Overlapping(), 3, 2, 1, 0);
    assert [A, B][..1] == [A] && [A][..0] == [];
    assert SumGpu([A]) == 150;
    assert SumGpu([A, B]) == 200;
  }

  lemma OverlappingRan()
    ensures Ran(Overlapping(), 3, 2, 1) && FreeFrom(Overlapping(), 2, 0)
  {
  }
}
