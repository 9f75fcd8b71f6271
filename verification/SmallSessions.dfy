/** Small inputs of the analyzer worked out in full. */
module SmallSessions {
  import opened Events
  import opened Windows
  import opened Sorting
  import opened Tallies
  import opened CallTree
  import opened Breakdown
  import OverBudget
  import TraceLayout

  // ----- ops of one name -----

  /** Ops with a symbol are listed by it, and ops of one entry add up their times, counts and apportioned parts. */
  lemma OpsAddUp()
    ensures var ops := [OpSample("x", Some("gemm"), 5, 2, Some(3)), OpSample("y", Some("gemm"), 7, 1, None),
                        OpSample("gemm2", None, 1, 1, Some(1))];
            TableOf(ops) == map["gemm" := OpAgg(12, 3, 3), "gemm2" := OpAgg(1, 1, 1)]
  {
    var a, b, c := OpSample("x", Some("gemm"), 5, 2, Some(3)), OpSample("y", Some("gemm"), 7, 1, None),
        OpSample("gemm2", None, 1, 1, Some(1));
    assert [a, b, c][..2] == [a, b] && [a, b][..1] == [a] && [a][..0] == [];
    assert TableOf([a]) == map["gemm" := OpAgg(5, 2, 3)];
    assert TableOf([a, b]) == map["gemm" := OpAgg(12, 3, 3)];
  }

  // ----- the unscoped row -----

  /** What no call is charged is a row of its own, even when only an eval or a buffer without time is left. */
  lemma UnscopedRow(t: Tally, evals: nat, unmatched: nat)
    ensures TreeOver([], t, evals, unmatched).gpuSubtree == t.gpuNs
    ensures TreeOver([], t, evals, unmatched).children ==
            if t.gpuNs == 0 && evals == 0 && unmatched == 0 then []
            else [ModuleBreakdown("<unscoped>", 0, t.gpuNs, t.gpuNs, evals, t.cbs, [], t.ops)]
  {
    assert StableSort<ModuleBreakdown<OpTable>>([], HeaviestFirst()) == [];
    var rest := ModuleBreakdown("<unscoped>", 0, t.gpuNs, t.gpuNs, evals, t.cbs, [], t.ops);
    assert [rest][..0] == [] && [] + [rest] == [rest];
    assert StableSort([rest][..0], HeaviestFirst<OpTable>()) == [];
  }

  // ----- malformed calls -----

  /** A return of a call never entered, and a call that never returns. */
  function Malformed2(): (r: seq<Event>)
  {
    [ Event(0, 0, PythonSidecar, ModuleReturned(9)),
      Event(1, 1, PythonSidecar, ModuleEntered(1, "open", None)),
      Event(2, 2, PythonSidecar, ModuleEntered(2, "closed", None)),
      Event(3, 3, PythonSidecar, ModuleReturned(2)),
      Event(4, 4, PythonSidecar, ModuleReturned(2)) ]
  }

  /** The repeated return counts as neither. */
  lemma MalformedCounted()
    ensures Malformed(Malformed2(), 5) == (1, 1)
  {
  }

  // ----- slices -----

  /** A node of 5 us with a child of 2.5 us and an op of 0.4 us: whole microseconds, at least one, the child before the
      op. */
  lemma Slices()
    ensures var child := ModuleBreakdown("child", 1, 2500, 2500, 0, 0, [], []);
            var node := ModuleBreakdown("node", 1, 2500, 5000, 0, 0, [child], [TraceLayout.TimedOp("op", 400)]);
            TraceLayout.Draw(node, 0, 10) ==
              [TraceLayout.Slice("node", 10, 5, 0), TraceLayout.Slice("child", 10, 2, 1),
                  TraceLayout.Slice("op", 12, 1, 1)]
  {
    var child: TraceLayout.Node := ModuleBreakdown("child", 1, 2500, 2500, 0, 0, [], []);
    var op := TraceLayout.TimedOp("op", 400);
    assert [child][..0] == [] && [op][..0] == [];
    assert TraceLayout.Finish(child, 10) == 12;
    assert TraceLayout.FinishAll([child], 10) == 12;
    assert TraceLayout.OpsEnd([op], 12) == 13;
    assert TraceLayout.Draw(child, 1, 10) == [TraceLayout.Slice("child", 10, 2, 1)];
    assert TraceLayout.DrawAll([child], 1, 10) == [TraceLayout.Slice("child", 10, 2, 1)];
    assert TraceLayout.OpSlices([op], 1, 12) == [TraceLayout.Slice("op", 12, 1, 1)];
  }

  // ----- over the budget -----

  /** Two nested calls; the inner one is open at the peak, the other sample lies exactly at the threshold. */
  function Budgeted(): (r: seq<Event>)
  {
    [ Event(0, 0, PythonSidecar, ModuleEntered(1, "outer", None)),
      Event(1, 1, PythonSidecar, ModuleEntered(2, "inner", Some(1))),
      Event(2, 2, MetalHook, DeviceMemSample(12, 10)),
      Event(3, 3, PythonSidecar, ModuleReturned(2)),
      Event(4, 4, MetalHook, DeviceMemSample(9, 10)),
      Event(5, 5, MetalHook, DeviceMemSample(8, 10)),
      Event(6, 6, MetalHook, DeviceMemSample(99, 0)) ]
  }

  lemma OneWindowOverBudget(windows: seq<OverBudget.MemWindow>)
    requires OverBudget.Reports(windows, Budgeted(), 0.9, OverBudget.Runs(Budgeted(), 0.9, 10, true, 7))
    ensures windows == [OverBudget.MemWindow(2, 4, 12, 2, 2, 10, "inner")]
  {
    hide OverBudget.Runs;
    RunsOverBudget();
    ReportOverBudget();
  }

  lemma OverHere()
    ensures forall k :: 0 <= k < 7 ==> (OverBudget.Over(Budgeted(), 0.9, k) <==> k == 2 || k == 4)
  {
  }

  lemma RunsOverBudget()
    ensures OverBudget.Runs(Budgeted(), 0.9, 10, true, 7) == [OverBudget.Run(2, 4)]
  {
    hide OverBudget.Over, OverBudget.Runs, OverBudget.Joins;
    OverHere();
    var e := Budgeted();
    OverBudget.NoRunsYet(e, 0.9, 10, true);
    JoinsHere();
    OverBudget.RunsStep(e, 0.9, 10, true, 1);
    OverBudget.RunsStep(e, 0.9, 10, true, 2);
    OverBudget.RunsStep(e, 0.9, 10, true, 3);
    OverBudget.RunsStep(e, 0.9, 10, true, 4);
    OverBudget.RunsStep(e, 0.9, 10, true, 5);
    OverBudget.RunsStep(e, 0.9, 10, true, 6);
    OverBudget.RunsStep(e, 0.9, 10, true, 7);
  }

  lemma JoinsHere()
    ensures OverBudget.Joins(Budgeted(), 10, true, 2, 4)
  {
  }

  lemma ReportOverBudget()
    ensures OverBudget.Over(Budgeted(), 0.9, 2)
    ensures OverBudget.Report(Budgeted(), 0.9, 2, 4) == OverBudget.MemWindow(2, 4, 12, 2, 2, 10, "inner")
  {
    var e := Budgeted();
    OverHere();
    assert OverBudget.PeakOf(e, 0.9, 2, 5) == 2;
    assert OverBudget.ScopesAt(e, 2) == [(1, "outer"), (2, "inner")];
  }
}
