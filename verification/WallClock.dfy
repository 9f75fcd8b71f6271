/** The breakdown of a whole run never exceeds the wall-clock spans of its queues. */
module WallClock {
  import opened Bytes
  import opened Events
  import opened Sorting
  import opened OpClamp
  import opened Pairing
  import opened Tallies
  import opened CallTree
  import opened Attribution
  import opened Breakdown
  import opened Conservation
  import opened ClampedSession

  function TimeFromOps(): (r: CompletedCb -> nat) { (cb: CompletedCb) => TimeOfBuffer(cb, true) }

  /** The op times of the first `n` events. */
  function OpsTotal(events: seq<Event>, n: nat): (r: nat)
    requires n <= |events|
  {
    if n == 0 then 0
    else OpsTotal(events, n - 1) + match events[n - 1].payload case CbOps(_, ops) => SumGpu(ops) case _ => 0
  }

  lemma UnscaledOps(events: seq<Event>, j: nat)
    requires j < |events| && events[j].payload.CbOps?
    ensures OpsAt(events, j, map[]) == events[j].payload.ops
  {
  }

  /** Every ops event is counted by at most one completion, so the completions hold no more than all of them. */
  lemma {:induction false} CompletionsHoldAtMostTheOps(events: seq<Event>, n: nat) returns (last: map<u64, nat>)
    requires n <= |events|
    ensures TracksLast(last, events, n)
    ensures SumBy(PairSpec(events, n, map[]), TimeFromOps()) <= OpsTotal(events, n)
  {
    hide PairSpec, CommitOf, TracksLast, SumBy, SumGpu, OpsAt;
    if n == 0 {
      last := map[];
      NothingPaired(events, map[]);
      EmptySumBy(TimeFromOps());
    } else {
      var m := n - 1;
      var before := CompletionsHoldAtMostTheOps(events, m);
      last := if CommitOf(events, m).Some? then before[events[m].payload.cb := |Completions(events, m)|] else before;
      LastStep(before, events, m);
      PairStep(events, m, map[], before);
      var cbs := PairSpec(events, m, map[]);
      if CommitOf(events, m).Some? {
        SumByMore(cbs, CompletedCb(events[CommitOf(events, m).value].ts, events[m].payload.inFlightNs, None),
            TimeFromOps());
      } else if events[m].payload.CbOps? && events[m].payload.cb in before {
        UnscaledOps(events, m);
        var i := before[events[m].payload.cb];
        SumByUpdate(cbs, i, cbs[i].(ops := Some(OpsAt(events, m, map[]))), TimeFromOps());
      }
    }
  }

  lemma EmptySumBy<T>(f: T -> nat)
    ensures SumBy([], f) == 0
  {
  }

  /** Each ops event was scaled by its own factor. */
  lemma {:induction false} OpsTotalIsClamped(events: seq<Event>, n: nat)
    requires n <= |events| && DistinctOpsSeq(events)
    ensures OpsTotal(Clamped(events), n) == ClampedTotal(events, n)
    decreases n
  {
    hide SumGpu, ScaleAt, ScalesUpTo;
    if n > 0 {
      OpsTotalIsClamped(events, n - 1);
      if events[n - 1].payload.CbOps? {
        FactorIsItsOwn(events, |events|, n - 1);
      }
    }
  }

  lemma {:induction false} TotalIsOpTime(completed: seq<CompletedCb>)
    ensures Total(Charges(completed, true), Gpu) == SumBy(completed, TimeFromOps())
    decreases |completed|
  {
    hide SumGpu;
    if completed != [] {
      TotalIsOpTime(completed[..|completed| - 1]);
      assert Charges(completed, true)[..|completed| - 1] == Charges(completed[..|completed| - 1], true);
    }
  }

  /** Wall-clock bound on the tree: with ops sampled, each ops event following its own scheduling and completion,
      and completions in time order on every queue, the whole breakdown fits the spans of the queues. */
  lemma BreakdownFitsTheWallClock(events: seq<Event>, qs: seq<u64>, roots: seq<u64>)
    requires events != [] && AnyOps(events) && DistinctOpsSeq(events) && DistinctCalls(events)
    requires Distinct(qs) && EveryOpsHasAWindow(events, qs)
    requires forall q :: q in qs ==> CompletionsInOrder(events, q)
    requires RootList(ChargedCalls(Clamped(events)), roots)
    ensures TreeOf(Clamped(events), roots).gpuSubtree <= SumOver(qs, q => QueueSpan(events, |events|, q))
  {
    hide AnyOps, DistinctOpsSeq, DistinctCalls, Distinct, EveryOpsHasAWindow, CompletionsInOrder, RootList,
         ChargedCalls, TreeOf, SumOver, QueueSpan, ScalesUpTo, PairSpec, Total;
    var seen := Clamped(events);
    assert |seen| == |events|;
    ClampKeepsShape(events);
    TreeNeverOvercounts(seen, roots);
    TotalIsOpTime(PairSpec(seen, |seen|, map[]));
    var _ := CompletionsHoldAtMostTheOps(seen, |seen|);
    OpsTotalIsClamped(events, |events|);
    ClampedTotalFitsTheSpans(events, qs);
  }
}
