/** The clamp rewrites op times and nothing else: both ways to the clamped buffers agree, and the tree that is computed
    conserves the time of the recorded session. */
module ClampedSession {
  import opened Bytes
  import opened Events
  import opened Windows
  import opened OpClamp
  import opened Pairing
  import opened Tallies
  import opened CallTree
  import opened Attribution
  import opened Breakdown
  import opened Conservation

  // ----- pairing does not see the factors -----

  lemma {:induction false} SameOpenAt(events: seq<Event>, scales: map<u64, Scale>, n: nat, id: u64)
    requires n <= |events|
    ensures OpenAt(ScaleEvents(scales, events), n, CommitRole, id) == OpenAt(events, n, CommitRole, id)
  {
    hide ScaleOps;
    if n > 0 {
      SameOpenAt(events, scales, n - 1, id);
    }
  }

  lemma SameCommit(events: seq<Event>, scales: map<u64, Scale>, k: nat)
    requires k < |events|
    ensures CommitOf(ScaleEvents(scales, events), k) == CommitOf(events, k)
  {
    hide ScaleOps, OpenAt;
    if events[k].payload.CbCompleted? {
      SameOpenAt(events, scales, k, events[k].payload.cb);
    }
  }

  lemma {:induction false} SameLastPaired(events: seq<Event>, scales: map<u64, Scale>, n: nat, cb: u64)
    requires n <= |events|
    ensures LastPaired(ScaleEvents(scales, events), n, cb) == LastPaired(events, n, cb)
  {
    hide ScaleOps, CommitOf;
    if n > 0 {
      SameCommit(events, scales, n - 1);
      SameLastPaired(events, scales, n - 1, cb);
    }
  }

  lemma {:induction false} SameOps(events: seq<Event>, scales: map<u64, Scale>, n: nat, k: nat)
    requires n <= |events|
    ensures OpsOf(ScaleEvents(scales, events), n, k) == OpsOf(events, n, k)
  {
    hide ScaleOps, LastPaired;
    if n > 0 {
      if events[n - 1].payload.CbOps? {
        SameLastPaired(events, scales, n - 1, events[n - 1].payload.cb);
      }
      SameOps(events, scales, n - 1, k);
    }
  }

  lemma {:induction false} SameCompletions(events: seq<Event>, scales: map<u64, Scale>, n: nat)
    requires n <= |events|
    ensures Completions(ScaleEvents(scales, events), n) == Completions(events, n)
  {
    hide ScaleOps, CommitOf;
    if n > 0 {
      SameCommit(events, scales, n - 1);
      SameCompletions(events, scales, n - 1);
    }
  }

  // ----- the two ways to the clamped buffers -----

  /** Equal for whoever reads the times: only the apportioned part of an op, which one way leaves raw, may differ. */
  predicate SameTimes(a: CompletedCb, b: CompletedCb)
  {
    && a.commitTs == b.commitTs && a.inFlightNs == b.inFlightNs
    && match (a.ops, b.ops)
       case (None, None) => true
       case (Some(x), Some(y)) =>
         |x| == |y| && forall p :: 0 <= p < |x| ==> y[p] == x[p].(apportioned := y[p].apportioned)
       case _ => false
  }

  lemma SameCompleted(events: seq<Event>, scales: map<u64, Scale>, n: nat, k: nat)
    requires n <= |events| && k < |events| && CommitOf(events, k).Some?
    ensures CommitOf(ScaleEvents(scales, events), k).Some?
    ensures SameTimes(CompletedAt(events, n, k, scales), CompletedAt(ScaleEvents(scales, events), n, k, map[]))
  {
    hide CommitOf, OpsOf, ApplyScale;
    SameCommit(events, scales, k);
    SameOps(events, scales, n, k);
    NoFactor();
  }

  lemma NoFactor()
    ensures forall g: nat :: ApplyScale(None, g) == g
  {
  }

  /** Pairing with the factors gives the times that pairing the rewritten events gives, buffer by buffer and op by
      op. */
  lemma BothWaysAgree(events: seq<Event>, scales: map<u64, Scale>, n: nat)
    requires n <= |events|
    ensures var a, b := PairSpec(events, n, scales), PairSpec(ScaleEvents(scales, events), n, map[]);
            |a| == |b| && forall i :: 0 <= i < |a| ==> SameTimes(a[i], b[i])
  {
    hide CommitOf, SameTimes, CompletedAt, ScaleEvents;
    SameCompletions(events, scales, n);
    var ks := Completions(events, n);
    forall i | 0 <= i < |ks|
      ensures SameTimes(PairSpec(events, n, scales)[i], PairSpec(ScaleEvents(scales, events), n, map[])[i])
    {
      SameCompleted(events, scales, n, ks[i]);
    }
  }

  lemma {:induction false} SameSum(a: seq<OpSample>, b: seq<OpSample>)
    requires |a| == |b| && forall p :: 0 <= p < |a| ==> b[p] == a[p].(apportioned := b[p].apportioned)
    ensures SumGpu(a) == SumGpu(b)
    decreases |a|
  {
    if a != [] {
      SameSum(a[..|a| - 1], b[..|b| - 1]);
    }
  }

  lemma {:induction false} SameTotal(a: seq<CompletedCb>, b: seq<CompletedCb>, anyOps: bool)
    requires |a| == |b| && forall i :: 0 <= i < |a| ==> SameTimes(a[i], b[i])
    ensures Total(Charges(a, anyOps), Gpu) == Total(Charges(b, anyOps), Gpu)
    decreases |a|
  {
    hide SumGpu;
    if a != [] {
      var n := |a| - 1;
      SameTotal(a[..n], b[..n], anyOps);
      assert Charges(a, anyOps)[..n] == Charges(a[..n], anyOps) && Charges(b, anyOps)[..n] == Charges(b[..n], anyOps);
      assert SameTimes(a[n], b[n]);
      if a[n].ops.Some? {
        SameSum(a[n].ops.value, b[n].ops.value);
      }
    }
  }

  // ----- the calls are untouched -----

  lemma ClampKeepsShape(events: seq<Event>)
    ensures DistinctCalls(events) <==> DistinctCalls(Clamped(events))
    ensures AnyOps(events) <==> AnyOps(Clamped(events))
  {
    hide ScalesUpTo, ScaleOps;
    var seen := Clamped(events);
    forall k | 0 <= k < |events|
      ensures seen[k].payload.CbOps? <==> events[k].payload.CbOps?
      ensures Enters(seen, k) <==> Enters(events, k)
      ensures Enters(events, k) ==> seen[k] == events[k]
    {
    }
  }

  lemma {:induction false} SameEntered(events: seq<Event>, n: nat)
    requires n <= |events|
    ensures EnteredIds(Clamped(events), n) == EnteredIds(events, n)
  {
    hide ScalesUpTo, ScaleOps;
    if n > 0 {
      SameEntered(events, n - 1);
    }
  }

  lemma ClampKeepsLateCalls(events: seq<Event>)
    ensures NoLateCalls(events) <==> NoLateCalls(Clamped(events))
  {
    hide ScalesUpTo, ScaleOps, EnteredIds;
    var seen := Clamped(events);
    SameEntered(events, |events|);
    forall k | 0 <= k < |events|
      ensures Enters(seen, k) <==> Enters(events, k)
      ensures Enters(events, k) ==> StandingAt(seen, k) == StandingAt(events, k)
    {
      SameEntered(events, k);
    }
  }

  // ----- the computed tree -----

  /** The clamped time of a session: its completed buffers, paired with their factors. */
  function ClampedTime(events: seq<Event>): (r: nat)
  {
    Total(Charges(PairSpec(events, |events|, ScalesUpTo(events, |events|)), AnyOps(events)), Gpu)
  }

  lemma MeasuredIsClampedTime(events: seq<Event>)
    ensures Total(ChargesOf(Clamped(events)), Gpu) == ClampedTime(events)
    ensures Completions(Clamped(events), |events|) == Completions(events, |events|)
  {
    hide ScalesUpTo, PairSpec, SameTimes, AnyOps, Charges, Total, ScaleEvents;
    var scales := ScalesUpTo(events, |events|);
    ClampKeepsShape(events);
    BothWaysAgree(events, scales, |events|);
    SameCompletions(events, scales, |events|);
    SameTotal(PairSpec(events, |events|, scales), PairSpec(Clamped(events), |events|, map[]), AnyOps(events));
  }

  /** What `Compute` returns conserves the recorded session: with distinct call ids and every parent entered before its
      children or never, the root shows the clamped time of all completed buffers, and every one is counted once. */
  lemma ComputedTreeConserves(events: seq<Event>, roots: seq<u64>)
    requires events != [] && DistinctCalls(events) && NoLateCalls(events)
    requires RootList(ChargedCalls(Clamped(events)), roots)
    ensures TreeOf(Clamped(events), roots).gpuSubtree == ClampedTime(events)
    ensures TotalCbs(TreeOf(Clamped(events), roots)) == |Completions(events, |events|)|
  {
    hide DistinctCalls, NoLateCalls, RootList, ChargedCalls, TreeOf, TotalCbs, ClampedTime, ScalesUpTo, Total,
         ChargesOf;
    assert |Clamped(events)| == |events|;
    ClampKeepsShape(events);
    ClampKeepsLateCalls(events);
    MeasuredIsClampedTime(events);
    TreeConserves(Clamped(events), roots);
  }

  /** And whatever the parents: it never shows more. */
  lemma ComputedTreeNeverOvercounts(events: seq<Event>, roots: seq<u64>)
    requires events != [] && DistinctCalls(events) && RootList(ChargedCalls(Clamped(events)), roots)
    ensures TreeOf(Clamped(events), roots).gpuSubtree <= ClampedTime(events)
  {
    hide DistinctCalls, RootList, ChargedCalls, TreeOf, ClampedTime, ScalesUpTo, Total, ChargesOf;
    assert |Clamped(events)| == |events|;
    ClampKeepsShape(events);
    MeasuredIsClampedTime(events);
    TreeNeverOvercounts(Clamped(events), roots);
  }
}
