/** Stretches of a session whose device memory stays over the budget. */
module OverBudget {
  import opened Bytes
  import opened Events
  import Windows

  datatype MemWindow = MemWindow(
    startTs: u64, endTs: u64, peakBytes: u64, peakTs: u64, peakSeq: u64, recommendedMax: u64, peakScope: string)

  const NO_SCOPE := "<unscoped>"

  // ----- samples and runs -----

  /** A sample that names a budget. */
  predicate Sample(events: seq<Event>, k: nat)
    requires k < |events|
  {
    events[k].payload.DeviceMemSample? && events[k].payload.recommendedMax != 0
  }

  predicate Over(events: seq<Event>, threshold: real, k: nat)
    requires k < |events|
  {
    Sample(events, k) && events[k].payload.inUse as real / events[k].payload.recommendedMax as real >= threshold
  }

  predicate Near(events: seq<Event>, gap: u64, i: nat, j: nat)
    requires i < |events| && j < |events|
  {
    SatSub(events[j].ts, events[i].ts) <= gap
  }

  /** No sample between the over-threshold samples `i` and `j` outlasts the gap. */
  ghost predicate NoClosingDip(events: seq<Event>, gap: u64, i: nat, j: nat)
    requires i < |events| && j <= |events|
  {
    forall k :: i < k < j && Sample(events, k) ==> Near(events, gap, i, k)
  }

  /** Whether consecutive over-threshold samples share a window: with `dips` as the code decides it,
      without as its description does, from the two samples alone. */
  ghost predicate Joins(events: seq<Event>, gap: u64, dips: bool, i: nat, j: nat)
    requires i < |events| && j < |events|
  {
    Near(events, gap, i, j) && (dips ==> NoClosingDip(events, gap, i, j))
  }

  /** From the first to the last of the over-threshold samples of one window. */
  datatype Run = Run(first: nat, last: nat)

  ghost function After(runs: seq<Run>, events: seq<Event>, gap: u64, dips: bool, k: nat): (r: seq<Run>)
    requires k < |events| && (runs != [] ==> runs[|runs| - 1].last < |events|)
  {
    if runs != [] && Joins(events, gap, dips, runs[|runs| - 1].last, k)
    then runs[|runs| - 1 := runs[|runs| - 1].(last := k)]
    else runs + [Run(k, k)]
  }

  /** The runs of over-threshold samples among the first `n` events. */
  ghost function Runs(events: seq<Event>, threshold: real, gap: u64, dips: bool, n: nat): (r: seq<Run>)
    requires n <= |events|
    ensures forall i :: 0 <= i < |r| ==> r[i].first <= r[i].last < n
  {
    if n == 0 then []
    else
      var before := Runs(events, threshold, gap, dips, n - 1);
      if Over(events, threshold, n - 1) then After(before, events, gap, dips, n - 1) else before
  }

  lemma RunsStep(events: seq<Event>, threshold: real, gap: u64, dips: bool, n: nat)
    requires 0 < n <= |events|
    ensures Runs(events, threshold, gap, dips, n) ==
            if Over(events, threshold, n - 1)
                then After(Runs(events, threshold, gap, dips, n - 1), events, gap, dips, n - 1)
            else Runs(events, threshold, gap, dips, n - 1)
  {
  }

  // ----- what a window reports -----

  /** The earliest of the largest over-threshold samples from `first` on. */
  function PeakOf(events: seq<Event>, threshold: real, first: nat, n: nat): (r: nat)
    requires first < n <= |events| && Over(events, threshold, first)
    ensures first <= r < n && Over(events, threshold, r)
    ensures forall k :: first <= k < n && Over(events, threshold, k) ==>
              events[k].payload.inUse <= events[r].payload.inUse
    ensures forall k :: first <= k < r && Over(events, threshold, k) ==>
              events[k].payload.inUse < events[r].payload.inUse
  {
    if n == first + 1 then first
    else
      var p := PeakOf(events, threshold, first, n - 1);
      if Over(events, threshold, n - 1) && events[n - 1].payload.inUse > events[p].payload.inUse then n - 1 else p
  }

  function LastNamed(scopes: seq<(u64, string)>, id: u64): (r: Option<nat>)
    ensures r.Some? ==> r.value < |scopes| && scopes[r.value].0 == id
  {
    Windows.RPosition(scopes, (s: (u64, string)) => s.0 == id)
  }

  function AfterScope(scopes: seq<(u64, string)>, p: Payload): (r: seq<(u64, string)>)
  {
    match p
    case ModuleEntered(id, qualname, _) => scopes + [(id, qualname)]
    case ModuleReturned(id) =>
      (match LastNamed(scopes, id) case Some(i) => scopes[..i] + scopes[i + 1..] case None => scopes)
    case _ => scopes
  }

  /** The scopes open after the first `n` events, innermost last. */
  function ScopesAt(events: seq<Event>, n: nat): (r: seq<(u64, string)>)
    requires n <= |events|
  {
    if n == 0 then [] else AfterScope(ScopesAt(events, n - 1), events[n - 1].payload)
  }

  function Innermost(scopes: seq<(u64, string)>): (r: string)
  {
    if scopes == [] then NO_SCOPE else scopes[|scopes| - 1].1
  }

  function Report(events: seq<Event>, threshold: real, first: nat, last: nat): (r: MemWindow)
    requires first <= last < |events| && Over(events, threshold, first)
  {
    var p := PeakOf(events, threshold, first, last + 1);
    MemWindow(events[first].ts, events[last].ts, events[p].payload.inUse, events[p].ts, events[p].seqNo,
              events[p].payload.recommendedMax, Innermost(ScopesAt(events, p)))
  }

  /** Runs start and end at over-threshold samples. */
  lemma {:induction false} RunsAreOver(events: seq<Event>, threshold: real, gap: u64, dips: bool, n: nat)
    requires n <= |events|
    ensures forall r :: r in Runs(events, threshold, gap, dips, n) ==>
              r.last < n && Over(events, threshold, r.first) && Over(events, threshold, r.last)
  {
    hide Over, Joins;
    if n > 0 {
      RunsAreOver(events, threshold, gap, dips, n - 1);
    }
  }

  ghost predicate Reports(windows: seq<MemWindow>, events: seq<Event>, threshold: real, runs: seq<Run>)
    requires forall i :: 0 <= i < |runs| ==> runs[i].first <= runs[i].last < |events|
  {
    && |windows| == |runs|
    && forall i :: 0 <= i < |runs| ==>
         Over(events, threshold, runs[i].first) && windows[i] == Report(events, threshold, runs[i].first, runs[i].last)
  }

  // ----- the pass -----

  /** The windows closed so far and the one still open make up the reports of the runs; a window is open
      exactly while no sample outlasted the gap. */
  ghost predicate Tracks(windows: seq<MemWindow>, current: Option<MemWindow>, lastOverTs: u64,
                         events: seq<Event>, threshold: real, gap: u64, n: nat)
    requires n <= |events|
  {
    var runs := Runs(events, threshold, gap, true, n);
    && Reports(windows + (match current case Some(w) => [w] case None => []), events, threshold, runs)
    && (runs != [] ==> lastOverTs == events[runs[|runs| - 1].last].ts)
    && (current.Some? <==> runs != [] && NoClosingDip(events, gap, runs[|runs| - 1].last, n))
  }

  function OnlyThis(events: seq<Event>, k: nat, scope: string): (r: MemWindow)
    requires k < |events| && Sample(events, k)
  {
    var e := events[k];
    MemWindow(e.ts, e.ts, e.payload.inUse, e.ts, e.seqNo, e.payload.recommendedMax, scope)
  }

  function Extended(w: MemWindow, events: seq<Event>, k: nat, scope: string): (r: MemWindow)
    requires k < |events| && Sample(events, k)
  {
    var e := events[k];
    if e.payload.inUse > w.peakBytes
    then w.(endTs := e.ts, peakBytes := e.payload.inUse, peakTs := e.ts, peakSeq := e.seqNo,
            recommendedMax := e.payload.recommendedMax, peakScope := scope)
    else w.(endTs := e.ts)
  }

  lemma NotASample(windows: seq<MemWindow>, current: Option<MemWindow>, lastOverTs: u64, events: seq<Event>,
      threshold: real, gap: u64, n: nat)
    requires n < |events| && Tracks(windows, current, lastOverTs, events, threshold, gap, n) && !Sample(events, n)
    ensures Tracks(windows, current, lastOverTs, events, threshold, gap, n + 1)
  {
    hide Reports, Near;
  }

  /** A sample under the threshold closes the open window once it outlasts the gap. */
  lemma DipStep(windows: seq<MemWindow>, current: Option<MemWindow>, lastOverTs: u64, events: seq<Event>,
      threshold: real, gap: u64, n: nat)
    requires n < |events| && Tracks(windows, current, lastOverTs, events, threshold, gap, n)
    requires Sample(events, n) && !Over(events, threshold, n)
    ensures current.None? || SatSub(events[n].ts, lastOverTs) <= gap ==>
              Tracks(windows, current, lastOverTs, events, threshold, gap, n + 1)
    ensures current.Some? && SatSub(events[n].ts, lastOverTs) > gap ==>
              Tracks(windows + [current.value], None, lastOverTs, events, threshold, gap, n + 1)
  {
    hide Reports, Over;
    if current.Some? && SatSub(events[n].ts, lastOverTs) > gap {
      assert windows + [current.value] == windows + [current.value] + [];
    }
  }

  lemma PeakMore(events: seq<Event>, threshold: real, first: nat, last: nat, k: nat, scope: string)
    requires first <= last < k < |events| && Over(events, threshold, first) && Over(events, threshold, k)
    requires forall m :: last < m < k ==> !Over(events, threshold, m)
    requires scope == Innermost(ScopesAt(events, k))
    ensures Report(events, threshold, first, k) == Extended(Report(events, threshold, first, last), events, k, scope)
  {
    hide Over, ScopesAt, Innermost;
    PeakUnchanged(events, threshold, first, last, k);
  }

  lemma {:induction false} PeakUnchanged(events: seq<Event>, threshold: real, first: nat, last: nat, k: nat)
    requires first <= last < k <= |events| && Over(events, threshold, first)
    requires forall m :: last < m < k ==> !Over(events, threshold, m)
    ensures PeakOf(events, threshold, first, k) == PeakOf(events, threshold, first, last + 1)
    decreases k
  {
    hide Over;
    if last + 1 < k {
      PeakUnchanged(events, threshold, first, last, k - 1);
    }
  }

  /** The last over-threshold sample so far, or -1. */
  ghost function LastOver(runs: seq<Run>): (r: int) { if runs == [] then -1 else runs[|runs| - 1].last }

  lemma {:induction false} NoneOverSince(events: seq<Event>, threshold: real, gap: u64, dips: bool, n: nat, from: int)
    requires n <= |events| && from == LastOver(Runs(events, threshold, gap, dips, n))
    ensures forall m :: from < m < n ==> !Over(events, threshold, m)
  {
    hide Over, Joins;
    if n > 0 {
      NoneOverSince(events, threshold, gap, dips, n - 1, LastOver(Runs(events, threshold, gap, dips, n - 1)));
    }
  }

  lemma OnlyOne(events: seq<Event>, threshold: real, n: nat)
    requires n < |events| && Over(events, threshold, n)
    ensures Sample(events, n) && Report(events, threshold, n, n) == OnlyThis(events, n, Innermost(ScopesAt(events, n)))
  {
  }

  lemma ReportsNew(windows: seq<MemWindow>, events: seq<Event>, threshold: real, runs: seq<Run>, k: nat)
    requires forall i :: 0 <= i < |runs| ==> runs[i].first <= runs[i].last < |events|
    requires k < |events| && Over(events, threshold, k) && Reports(windows, events, threshold, runs)
    ensures Reports(windows + [OnlyThis(events, k, Innermost(ScopesAt(events, k)))], events, threshold,
            runs + [Run(k, k)])
  {
    hide Over, Report, OnlyThis, ScopesAt, Innermost;
    OnlyOne(events, threshold, k);
  }

  lemma ReportsGrown(windows: seq<MemWindow>, w: MemWindow, events: seq<Event>, threshold: real, runs: seq<Run>, k: nat)
    requires forall i :: 0 <= i < |runs| ==> runs[i].first <= runs[i].last < |events|
    requires runs != [] && runs[|runs| - 1].last < k < |events| && Over(events, threshold, k)
    requires forall m :: runs[|runs| - 1].last < m < k ==> !Over(events, threshold, m)
    requires Reports(windows + [w], events, threshold, runs)
    ensures Reports(windows + [Extended(w, events, k, Innermost(ScopesAt(events, k)))], events, threshold,
                    runs[|runs| - 1 := runs[|runs| - 1].(last := k)])
  {
    var last := runs[|runs| - 1];
    PeakMore(events, threshold, last.first, last.last, k, Innermost(ScopesAt(events, k)));
    hide Over, Report, Extended, ScopesAt, Innermost;
    assert (windows + [w])[|runs| - 1] == w;
  }

  lemma OpenJoins(windows: seq<MemWindow>, current: Option<MemWindow>, lastOverTs: u64, events: seq<Event>,
      threshold: real, gap: u64, n: nat)
    requires n < |events| && Tracks(windows, current, lastOverTs, events, threshold, gap, n)
             && Over(events, threshold, n)
    ensures var runs := Runs(events, threshold, gap, true, n);
            Runs(events, threshold, gap, true, n + 1) ==
            if current.Some? && SatSub(events[n].ts, lastOverTs) <= gap
                then runs[|runs| - 1 := runs[|runs| - 1].(last := n)]
            else runs + [Run(n, n)]
  {
    hide Over, Reports;
    RunsStep(events, threshold, gap, true, n + 1);
  }

  /** An over-threshold sample joins the open window, or closes it and opens its own. */
  lemma OverStep(windows: seq<MemWindow>, current: Option<MemWindow>, lastOverTs: u64, events: seq<Event>,
      threshold: real, gap: u64, n: nat)
    requires n < |events| && Tracks(windows, current, lastOverTs, events, threshold, gap, n)
             && Over(events, threshold, n)
    ensures Sample(events, n)
    ensures var scope := Innermost(ScopesAt(events, n));
            var only, ts := OnlyThis(events, n, scope), events[n].ts;
            if current.None? then Tracks(windows, Some(only), ts, events, threshold, gap, n + 1)
            else if SatSub(ts, lastOverTs) > gap then
              Tracks(windows + [current.value], Some(only), ts, events, threshold, gap, n + 1)
            else
              Tracks(windows, Some(Extended(current.value, events, n, scope)), ts, events, threshold, gap, n + 1)
  {
    hide Over, ScopesAt, Innermost, Extended, OnlyThis, Reports, Runs;
    OnlyOne(events, threshold, n);
    OpenJoins(windows, current, lastOverTs, events, threshold, gap, n);
    var runs := Runs(events, threshold, gap, true, n);
    if current.None? {
      assert windows + [] == windows;
      ReportsNew(windows, events, threshold, runs, n);
    } else if SatSub(events[n].ts, lastOverTs) > gap {
      ReportsNew(windows + [current.value], events, threshold, runs, n);
    } else {
      NoneOverSince(events, threshold, gap, true, n, LastOver(runs));
      ReportsGrown(windows, current.value, events, threshold, runs, n);
    }
  }

  method OverBudgetWindows(events: seq<Event>, threshold: real, gap: u64) returns (windows: seq<MemWindow>)
    ensures Reports(windows, events, threshold, Runs(events, threshold, gap, true, |events|))
  {
    hide Tracks, ScopesAt, Over, Runs;
    var scope: seq<(u64, string)>, current: Option<MemWindow>, lastOverTs: u64 := [], None, 0;
    windows := [];
    NothingTracked(events, threshold, gap);
    for i := 0 to |events|
      invariant scope == ScopesAt(events, i)
      invariant Tracks(windows, current, lastOverTs, events, threshold, gap, i)
    {
      var ev := events[i];
      ScopeStep(events, i);
      match ev.payload {
        case ModuleEntered(id, qualname, _) =>
          NotASample(windows, current, lastOverTs, events, threshold, gap, i);
          scope := scope + [(id, qualname)];
        case ModuleReturned(id) =>
          NotASample(windows, current, lastOverTs, events, threshold, gap, i);
          var pos := LastNamed(scope, id);
          if pos.Some? {
            scope := scope[..pos.value] + scope[pos.value + 1..];
          }
        case DeviceMemSample(inUse, recommendedMax) =>
          windows, current, lastOverTs := Observe(windows, current, lastOverTs, scope, events, threshold, gap, i);
        case _ =>
          NotASample(windows, current, lastOverTs, events, threshold, gap, i);
      }
    }
    TracksEnd(windows, current, lastOverTs, events, threshold, gap);
    if current.Some? {
      windows := windows + [current.value];
    }
  }

  lemma NothingTracked(events: seq<Event>, threshold: real, gap: u64)
    ensures Tracks([], None, 0, events, threshold, gap, 0) && ScopesAt(events, 0) == []
  {
  }

  lemma ScopeStep(events: seq<Event>, n: nat)
    requires n < |events|
    ensures ScopesAt(events, n + 1) == AfterScope(ScopesAt(events, n), events[n].payload)
  {
  }

  lemma TracksEnd(windows: seq<MemWindow>, current: Option<MemWindow>, lastOverTs: u64, events: seq<Event>,
      threshold: real, gap: u64)
    requires Tracks(windows, current, lastOverTs, events, threshold, gap, |events|)
    ensures Reports(
              if current.Some? then windows + [current.value] else windows, events, threshold,
              Runs(events, threshold, gap, true, |events|))
  {
    assert windows + [] == windows;
  }

  method Observe(windows: seq<MemWindow>, current: Option<MemWindow>, lastOverTs: u64, scope: seq<(u64, string)>,
                 events: seq<Event>, threshold: real, gap: u64, i: nat)
    returns (closed: seq<MemWindow>, open: Option<MemWindow>, last: u64)
    requires i < |events| && events[i].payload.DeviceMemSample? && scope == ScopesAt(events, i)
    requires Tracks(windows, current, lastOverTs, events, threshold, gap, i)
    ensures Tracks(closed, open, last, events, threshold, gap, i + 1)
  {
    hide Tracks, ScopesAt, Runs;
    closed, open, last := windows, current, lastOverTs;
    var ev := events[i];
    if ev.payload.recommendedMax == 0 {
      NotASample(windows, current, lastOverTs, events, threshold, gap, i);
      return;
    }
    if ev.payload.inUse as real / ev.payload.recommendedMax as real >= threshold {
      OverStep(windows, current, lastOverTs, events, threshold, gap, i);
      if open.Some? && SatSub(ev.ts, lastOverTs) > gap {
        closed, open := closed + [open.value], None;
      }
      last := ev.ts;
      var name := if scope == [] then NO_SCOPE else scope[|scope| - 1].1;
      if open.Some? {
        var w := open.value.(endTs := ev.ts);
        if ev.payload.inUse > w.peakBytes {
          w := w.(peakBytes := ev.payload.inUse, peakTs := ev.ts, peakSeq := ev.seqNo,
                  recommendedMax := ev.payload.recommendedMax, peakScope := name);
        }
        open := Some(w);
      } else {
        open := Some(MemWindow(ev.ts, ev.ts, ev.payload.inUse, ev.ts, ev.seqNo, ev.payload.recommendedMax, name));
      }
    } else {
      DipStep(windows, current, lastOverTs, events, threshold, gap, i);
      if open.Some? && SatSub(ev.ts, lastOverTs) > gap {
        closed, open := closed + [open.value], None;
      }
    }
  }

  // ----- what runs are -----

  ghost predicate InARun(runs: seq<Run>, k: nat)
  {
    exists i :: 0 <= i < |runs| && runs[i].first <= k <= runs[i].last
  }

  /** Runs are maximal: they cover every over-threshold sample, in order, and no two neighbours would join. */
  ghost predicate Maximal(runs: seq<Run>, events: seq<Event>, threshold: real, gap: u64, dips: bool, n: nat)
    requires n <= |events|
  {
    && (forall i :: 0 <= i < |runs| ==> runs[i].first <= runs[i].last < n)
    && (forall i :: 0 < i < |runs| ==>
         runs[i - 1].last < runs[i].first && !Joins(events, gap, dips, runs[i - 1].last, runs[i].first))
    && (forall k :: 0 <= k < n && Over(events, threshold, k) ==> InARun(runs, k))
  }

  lemma MaximalMore(runs: seq<Run>, events: seq<Event>, threshold: real, gap: u64, dips: bool, n: nat)
    requires n < |events| && Maximal(runs, events, threshold, gap, dips, n) && Over(events, threshold, n)
    ensures Maximal(After(runs, events, gap, dips, n), events, threshold, gap, dips, n + 1)
  {
    hide Over, Joins, InARun;
    var next := After(runs, events, gap, dips, n);
    forall k | 0 <= k <= n && Over(events, threshold, k)
      ensures InARun(next, k)
    {
      if k < n {
        assert InARun(runs, k);
      }
      StillInARun(runs, events, gap, dips, n, k);
    }
  }

  lemma StillInARun(runs: seq<Run>, events: seq<Event>, gap: u64, dips: bool, n: nat, k: nat)
    requires n < |events| && forall i :: 0 <= i < |runs| ==> runs[i].first <= runs[i].last < n
    requires k == n || InARun(runs, k)
    ensures InARun(After(runs, events, gap, dips, n), k)
  {
    hide Joins;
    var next := After(runs, events, gap, dips, n);
    if k == n {
      assert next[|next| - 1].first <= n <= next[|next| - 1].last;
    } else {
      var i :| 0 <= i < |runs| && runs[i].first <= k <= runs[i].last;
      assert next[i].first <= k <= next[i].last;
    }
  }

  lemma NoRunsYet(events: seq<Event>, threshold: real, gap: u64, dips: bool)
    ensures Runs(events, threshold, gap, dips, 0) == []
    ensures Maximal([], events, threshold, gap, dips, 0)
  {
  }

  lemma MaximalQuiet(runs: seq<Run>, events: seq<Event>, threshold: real, gap: u64, dips: bool, n: nat)
    requires n < |events| && Maximal(runs, events, threshold, gap, dips, n) && !Over(events, threshold, n)
    ensures Maximal(runs, events, threshold, gap, dips, n + 1)
  {
    hide Over, Joins;
  }

  lemma {:induction false} RunsAreMaximal(events: seq<Event>, threshold: real, gap: u64, dips: bool, n: nat)
    requires n <= |events|
    ensures Maximal(Runs(events, threshold, gap, dips, n), events, threshold, gap, dips, n)
  {
    hide Over, Joins, After, Maximal, Runs;
    if n == 0 {
      NoRunsYet(events, threshold, gap, dips);
    } else {
      RunsAreMaximal(events, threshold, gap, dips, n - 1);
      RunsStep(events, threshold, gap, dips, n);
      if Over(events, threshold, n - 1) {
        MaximalMore(Runs(events, threshold, gap, dips, n - 1), events, threshold, gap, dips, n - 1);
      } else {
        MaximalQuiet(Runs(events, threshold, gap, dips, n - 1), events, threshold, gap, dips, n - 1);
      }
    }
  }

  lemma AfterAdds(runs: seq<Run>, events: seq<Event>, gap: u64, dips: bool, k: nat, r: Run)
    requires k < |events| && (runs != [] ==> runs[|runs| - 1].last < |events|) && r in After(runs, events, gap, dips, k)
    ensures
      || r in runs
      || r == Run(k, k)
      || (runs != [] && Joins(events, gap, dips, runs[|runs| - 1].last, k) && r == runs[|runs| - 1].(last := k))
  {
    hide Joins;
  }

  /** Inside a run every over-threshold sample joins the one before it. */
  lemma {:induction false} RunsHoldTogether(events: seq<Event>, threshold: real, gap: u64, dips: bool, n: nat, r: Run,
      i: nat, j: nat)
    requires n <= |events| && r in Runs(events, threshold, gap, dips, n)
    requires r.first <= i < j <= r.last < |events| && Over(events, threshold, i) && Over(events, threshold, j)
    requires forall k :: i < k < j ==> !Over(events, threshold, k)
    ensures Joins(events, gap, dips, i, j)
    decreases n
  {
    if n > 0 {
      hide Over, Joins, Runs, After;
      var before := Runs(events, threshold, gap, dips, n - 1);
      RunsStep(events, threshold, gap, dips, n);
      if r in before {
        RunsHoldTogether(events, threshold, gap, dips, n - 1, r, i, j);
      } else {
        AfterAdds(before, events, gap, dips, n - 1, r);
        var grown := before[|before| - 1];
        NoneOverSince(events, threshold, gap, dips, n - 1, LastOver(before));
        RunsAreOver(events, threshold, gap, dips, n - 1);
        assert grown in before;
        if j <= grown.last {
          RunsHoldTogether(events, threshold, gap, dips, n - 1, grown, i, j);
        } else {
          assert j == n - 1 && i == grown.last;
        }
      }
    }
  }

  // ----- when dips do not matter -----

  /** Neighbouring over-threshold samples near each other are never parted by a dip between them. */
  ghost predicate NoEarlyClose(events: seq<Event>, threshold: real, gap: u64, n: nat)
    requires n <= |events|
  {
    forall i, j :: 0 <= i < j < n && Neighbours(events, threshold, i, j) && Near(events, gap, i, j) ==>
          NoClosingDip(events, gap, i, j)
  }

  ghost predicate Neighbours(events: seq<Event>, threshold: real, i: nat, j: nat)
    requires i < j < |events|
  {
    Over(events, threshold, i) && Over(events, threshold, j) && forall k :: i < k < j ==> !Over(events, threshold, k)
  }

  /** What the runs were before the sample `k` was added, knowing the last over-threshold sample before it. */
  ghost function Undo(runs: seq<Run>, last: int, k: nat): (r: seq<Run>)
    requires runs != [] && last < k
  {
    var r := runs[|runs| - 1];
    if r.first == k || last < 0 then runs[..|runs| - 1] else runs[|runs| - 1 := r.(last := last)]
  }

  lemma UndoAfter(a: seq<Run>, events: seq<Event>, gap: u64, dips: bool, k: nat)
    requires k < |events| && forall i :: 0 <= i < |a| ==> a[i].first <= a[i].last < k
    ensures After(a, events, gap, dips, k) != [] && Undo(After(a, events, gap, dips, k), LastOver(a), k) == a
  {
    hide Joins;
  }

  lemma AfterKeepsApart(a: seq<Run>, b: seq<Run>, events: seq<Event>, gap: u64, k: nat)
    requires k < |events| && a != b && LastOver(a) == LastOver(b) < k
    requires forall i :: 0 <= i < |a| ==> a[i].first <= a[i].last < k
    requires forall i :: 0 <= i < |b| ==> b[i].first <= b[i].last < k
    ensures After(a, events, gap, true, k) != After(b, events, gap, false, k)
  {
    hide Undo, After;
    UndoAfter(a, events, gap, true, k);
    UndoAfter(b, events, gap, false, k);
  }

  lemma SameLastOver(events: seq<Event>, threshold: real, gap: u64, n: nat)
    requires n <= |events|
    ensures LastOver(Runs(events, threshold, gap, true, n)) == LastOver(Runs(events, threshold, gap, false, n))
  {
    hide Over, Joins, Runs;
    var a, b := Runs(events, threshold, gap, true, n), Runs(events, threshold, gap, false, n);
    NoneOverSince(events, threshold, gap, true, n, LastOver(a));
    NoneOverSince(events, threshold, gap, false, n, LastOver(b));
    RunsAreOver(events, threshold, gap, true, n);
    RunsAreOver(events, threshold, gap, false, n);
    if a != [] {
      assert a[|a| - 1] in a;
    }
    if b != [] {
      assert b[|b| - 1] in b;
    }
  }

  /** The windows depend on the over-threshold samples alone exactly when no dip closes a window early. */
  lemma {:induction false} DipsMatterExactlyWhenTheyCloseEarly(events: seq<Event>, threshold: real, gap: u64, n: nat)
    requires n <= |events|
    ensures Runs(events, threshold, gap, true, n) == Runs(events, threshold, gap, false, n) <==>
              NoEarlyClose(events, threshold, gap, n)
  {
    hide Over, NoClosingDip, Near, Runs, Neighbours, NoEarlyClose, After;
    if n == 0 {
      NoRunsYet(events, threshold, gap, true);
      NoRunsYet(events, threshold, gap, false);
      NothingClosesEarly(events, threshold, gap);
    } else {
      var a, b, k := Runs(events, threshold, gap, true, n - 1), Runs(events, threshold, gap, false, n - 1), n - 1;
      DipsMatterExactlyWhenTheyCloseEarly(events, threshold, gap, k);
      RunsStep(events, threshold, gap, true, n);
      RunsStep(events, threshold, gap, false, n);
      NoEarlyCloseStep(events, threshold, gap, k, a);
      if Over(events, threshold, k) {
        SameLastOver(events, threshold, gap, k);
        if a != b {
          AfterKeepsApart(a, b, events, gap, k);
        } else {
          AfterAgrees(a, events, gap, k);
        }
      }
    }
  }

  lemma NothingClosesEarly(events: seq<Event>, threshold: real, gap: u64)
    ensures NoEarlyClose(events, threshold, gap, 0)
  {
  }

  /** Whether the sample `k` finds its predecessor near, but parted from it by a dip. */
  ghost predicate Parted(runs: seq<Run>, events: seq<Event>, gap: u64, k: nat)
    requires k < |events| && forall i :: 0 <= i < |runs| ==> runs[i].last < k
  {
    runs != [] && Near(events, gap, runs[|runs| - 1].last, k) && !NoClosingDip(events, gap, runs[|runs| - 1].last, k)
  }

  lemma AfterAgrees(a: seq<Run>, events: seq<Event>, gap: u64, k: nat)
    requires k < |events| && forall i :: 0 <= i < |a| ==> a[i].last < k
    ensures After(a, events, gap, true, k) == After(a, events, gap, false, k) <==> !Parted(a, events, gap, k)
  {
    hide Near, NoClosingDip;
    if Parted(a, events, gap, k) {
      assert |After(a, events, gap, true, k)| > |After(a, events, gap, false, k)|;
    }
  }

  lemma NoEarlyCloseStep(events: seq<Event>, threshold: real, gap: u64, k: nat, a: seq<Run>)
    requires k < |events| && a == Runs(events, threshold, gap, true, k)
    ensures NoEarlyClose(events, threshold, gap, k + 1) <==>
            NoEarlyClose(events, threshold, gap, k) && !(Over(events, threshold, k) && Parted(a, events, gap, k))
  {
    hide Over, NoClosingDip, Near, Runs, Neighbours;
    NeighboursOf(events, threshold, gap, k, LastOver(a));
    if a != [] && Over(events, threshold, k) {
      assert Neighbours(events, threshold, a[|a| - 1].last, k);
    }
  }

  /** The only sample neighbouring `k` from before is the last one over the threshold. */
  lemma NeighboursOf(events: seq<Event>, threshold: real, gap: u64, k: nat, last: int)
    requires k < |events| && last == LastOver(Runs(events, threshold, gap, true, k))
    ensures forall i :: 0 <= i < k ==>
              (Neighbours(events, threshold, i, k) <==> Over(events, threshold, k) && i == last)
  {
    hide Over, Runs;
    var a := Runs(events, threshold, gap, true, k);
    NoneOverSince(events, threshold, gap, true, k, last);
    RunsAreOver(events, threshold, gap, true, k);
    if a != [] {
      assert a[|a| - 1] in a;
    }
  }

  ghost predicate SamplesInOrder(events: seq<Event>)
  {
    forall i, j :: 0 <= i < j < |events| && Sample(events, i) && Sample(events, j) ==> events[i].ts <= events[j].ts
  }

  /** Samples in time order never close a window early. */
  lemma InOrderNeverClosesEarly(events: seq<Event>, threshold: real, gap: u64)
    requires SamplesInOrder(events)
    ensures NoEarlyClose(events, threshold, gap, |events|)
  {
  }

  /** For samples in time order: the windows are the maximal runs of over-threshold samples, neighbours inside a
      window at most the gap apart, neighbouring windows more than the gap apart; dips never matter. */
  lemma InOrderRuns(events: seq<Event>, threshold: real, gap: u64, p: nat)
    requires SamplesInOrder(events)
    ensures var runs := Runs(events, threshold, gap, true, |events|);
            && runs == Runs(events, threshold, gap, false, |events|)
            && Maximal(runs, events, threshold, gap, false, |events|)
            && (0 < p < |runs| ==> events[runs[p].first].ts - events[runs[p - 1].last].ts > gap)
  {
    hide Over, Runs;
    InOrderNeverClosesEarly(events, threshold, gap);
    DipsMatterExactlyWhenTheyCloseEarly(events, threshold, gap, |events|);
    RunsAreMaximal(events, threshold, gap, false, |events|);
  }

  /** Out of order, a late dip can part two samples one nanosecond apart. */
  function LateDip(): (r: seq<Event>)
  {
    [ Event(0, 0, MetalHook, DeviceMemSample(9, 10)),
      Event(100, 1, MetalHook, DeviceMemSample(1, 10)),
      Event(1, 2, MetalHook, DeviceMemSample(9, 10)) ]
  }

  lemma LateDipPartsAWindow()
    ensures Runs(LateDip(), 0.5, 10, true, 3) == [Run(0, 0), Run(2, 2)]
    ensures Runs(LateDip(), 0.5, 10, false, 3) == [Run(0, 2)]
  {
    hide Runs, Joins, Over;
    var e := LateDip();
    LateDipJoins();
    forall dips
      ensures Runs(e, 0.5, 10, dips, 2) == [Run(0, 0)]
    {
      NoRunsYet(e, 0.5, 10, dips);
      RunsStep(e, 0.5, 10, dips, 1);
      RunsStep(e, 0.5, 10, dips, 2);
    }
    RunsStep(e, 0.5, 10, true, 3);
    RunsStep(e, 0.5, 10, false, 3);
  }

  lemma LateDipJoins()
    ensures !Joins(LateDip(), 10, true, 0, 2) && Joins(LateDip(), 10, false, 0, 2)
    ensures Over(LateDip(), 0.5, 0) && !Over(LateDip(), 0.5, 1) && Over(LateDip(), 0.5, 2)
  {
    assert !Near(LateDip(), 10, 0, 1) && Sample(LateDip(), 1);
  }

  // ----- two samples exactly the gap apart -----

  function AtTheGap(): (r: seq<Event>)
  {
    [ Event(0, 0, MetalHook, DeviceMemSample(9, 10)),
      Event(10, 1, MetalHook, DeviceMemSample(9, 10)) ]
  }

  /** A window is continued at exactly the gap. */
  lemma TheGapItselfJoins()
    ensures Runs(AtTheGap(), 0.5, 10, true, 2) == [Run(0, 1)]
    ensures Runs(AtTheGap(), 0.5, 9, true, 2) == [Run(0, 0), Run(1, 1)]
  {
    hide Runs, Joins, Over;
    var e := AtTheGap();
    AtTheGapJoins();
    forall gap: u64
      ensures Runs(e, 0.5, gap, true, 1) == [Run(0, 0)]
    {
      NoRunsYet(e, 0.5, gap, true);
      RunsStep(e, 0.5, gap, true, 1);
    }
    RunsStep(e, 0.5, 10, true, 2);
    RunsStep(e, 0.5, 9, true, 2);
  }

  lemma AtTheGapJoins()
    ensures Joins(AtTheGap(), 10, true, 0, 1) && !Joins(AtTheGap(), 9, true, 0, 1)
    ensures Over(AtTheGap(), 0.5, 0) && Over(AtTheGap(), 0.5, 1)
  {
  }
}
