/** A concrete session whose breakdown loses time: a child enters before its parent. */
module LateParent {
  import opened Bytes
  import opened Events
  import opened Windows
  import opened Sorting
  import opened Pairing
  import opened Tallies
  import opened CallTree
  import opened Attribution
  import opened Breakdown
  import opened Conservation

  function Orphaned(): (r: seq<Event>)
  {
    [ Event(0, 0, PythonSidecar, ModuleEntered(2, "child", Some(1))),
      Event(1, 1, MetalHook, CbCommitted(5, 0)),
      Event(1, 2, MetalHook, CbCompleted(5, 0, 7)),
      Event(2, 3, PythonSidecar, ModuleEntered(1, "parent", None)) ]
  }

  lemma OneBuffer()
    ensures ChargesOf(Orphaned()) == [Charge(1, Tally(7, 1, map[]))]
  {
    var e := Orphaned();
    assert OpenAt(e, 1, CommitRole, 5).None?;
    assert OpenAt(e, 2, CommitRole, 5) == Some(1);
    assert CommitOf(e, 0).None? && CommitOf(e, 1).None? && CommitOf(e, 3).None?;
    assert CommitOf(e, 2) == Some(1);
    assert Completions(e, 2) == [] by {
      assert Completions(e, 1) == [];
    }
    assert Completions(e, 4) == [2] by {
      assert Completions(e, 3) == [2];
    }
    NoOps(e, 4, 2);
    assert !AnyOps(e);
    assert PairSpec(e, 4, map[]) == [CompletedCb(1, 7, None)];
  }

  lemma {:induction false} NoOps(e: seq<Event>, n: nat, k: nat)
    requires n <= |e| && forall j :: 0 <= j < n ==> !e[j].payload.CbOps?
    ensures OpsOf(e, n, k).None?
  {
    if n > 0 {
      NoOps(e, n - 1, k);
    }
  }

  lemma TwoEntries()
    ensures Entries(Orphaned(), 4) == [0, 3]
  {
    var e := Orphaned();
    assert Entries(e, 1) == [0] by {
      assert Entries(e, 0) == [];
    }
    assert Entries(e, 3) == [0] by {
      assert Entries(e, 2) == [0];
    }
  }

  function ChildWindow(): (r: ScopeWindow) { ScopeWindow(0, 2, 2, "child") }

  function ParentWindow(): (r: ScopeWindow) { ScopeWindow(2, 2, 1, "parent") }

  lemma TwoUnsorted()
    ensures WindowList(Orphaned(), 4, 2) == [ChildWindow(), ParentWindow()]
  {
    hide Entries;
    var e := Orphaned();
    TwoEntries();
    NeverReturns(e, 4, 0, 2);
    NeverReturns(e, 4, 3, 2);
  }

  lemma OneIsSorted(w: ScopeWindow)
    ensures StableSort([w], ScopeKey()) == [w]
  {
    assert [w][..0] == [];
    assert StableSort([w][..0], ScopeKey()) == [];
  }

  lemma TwoAreSorted(a: ScopeWindow, b: ScopeWindow)
    requires ScopeKey()(a) <= ScopeKey()(b)
    ensures StableSort([a, b], ScopeKey()) == [a, b]
  {
    hide ScopeKey;
    OneIsSorted(a);
    assert [a, b][..1] == [a];
  }

  lemma TwoWindows()
    ensures WindowsOf(Orphaned()) == [ChildWindow(), ParentWindow()]
    ensures EvalsOf(Orphaned()) == []
  {
    hide WindowList, StableSort, EvalList;
    TwoUnsorted();
    TwoAreSorted(ChildWindow(), ParentWindow());
    NoEvals(Orphaned(), 4);
    NothingToSort();
  }

  lemma NothingToSort()
    ensures StableSort<EvalWindow>([], EvalKey()) == []
  {
  }

  lemma {:induction false} NeverReturns(e: seq<Event>, n: nat, i: nat, end: u64)
    requires n <= |e| && i < |e| && e[i].payload.ModuleEntered?
    requires forall j :: 0 <= j < n ==> !e[j].payload.ModuleReturned?
    ensures TimeOut(e, n, i, end) == end
  {
    if n > 0 {
      NeverReturns(e, n - 1, i, end);
    }
  }

  lemma {:induction false} NoEvals(e: seq<Event>, n: nat)
    requires n <= |e| && forall j :: 0 <= j < n ==> !e[j].payload.EvalReturned?
    ensures EvalList(e, n) == []
  {
    if n > 0 {
      NoEvals(e, n - 1);
    }
  }

  lemma ChildIsLate()
    ensures DistinctCalls(Orphaned()) && StandingAt(Orphaned(), 0) == Late
  {
    hide EnteredIds;
    LatestEnterAtLeast(Orphaned(), 4, 3);
    NobodyYet(Orphaned());
  }

  lemma ChildHoldsTheTime()
    ensures Own(ChargedCalls(Orphaned()), Gpu)(2) == 7 == Total(ChargesOf(Orphaned()), Gpu)
  {
    hide SumWhere, EnteredIds, ChargedCalls, LeafCount, Total, PlaceOf, PairSpec, AnyOps, EvalsOf, WindowsOf, NodeAt;
    var e := Orphaned();
    OneBuffer();
    ChildIsCharged();
    OneCharge(Charge(1, Tally(7, 1, map[])));
    LatestEnterAtLeast(e, 4, 0);
    ChargedCallsHold(e, 2);
  }

  /** 7 ns were measured and charged to the child, and the tree shows none of it. */
  lemma LateParentLosesTime(roots: seq<u64>)
    requires RootList(ChargedCalls(Orphaned()), roots)
    ensures DistinctCalls(Orphaned())
    ensures Total(ChargesOf(Orphaned()), Gpu) == 7
    ensures TreeOf(Orphaned(), roots).gpuSubtree == 0
  {
    var e := Orphaned();
    ChildIsLate();
    ChildHoldsTheTime();
    LatestEnterAtLeast(e, 4, 0);
    hide SumWhere, ChargesOf, LatestEnter, EnteredIds, ChargedCalls, TreeOf, RootList, Weigh, Total, StandingAt,
         SumStanding, DistinctCalls, Own;
    var w := Own(ChargedCalls(e), Gpu);
    SumStandingHolds(e, 4, Late, Weight(e, w), 0);
    OwnIsInSubtree(e, w, 2);
    TreeAccountsForEverything(e, roots, Gpu);
  }

  lemma NobodyYet(e: seq<Event>)
    ensures EnteredIds(e, 0) == {}
  {
  }

  lemma OwnIsInSubtree(e: seq<Event>, w: u64 -> nat, id: u64)
    requires LatestEnter(e, |e|, id).Some?
    ensures Weigh(e, w, id) >= w(id)
  {
  }

  lemma OneCharge(c: Charge)
    ensures Total([c], Gpu) == c.tally.gpuNs
    ensures forall p: u64 -> bool :: p(c.ts) ==> SumWhere([c], p) == c.tally
  {
    assert [c][..0] == [];
    PlusNothing(c.tally);
    SumByMore([], c, AmountOf(Gpu));
    assert [] + [c] == [c];
  }

  lemma ChildIsCharged()
    ensures ChargedAt(Orphaned(), AtCall(2))(1)
  {
    hide StableSort, WindowList, EvalList;
    TwoWindows();
    var ws := WindowsOf(Orphaned());
    assert !Covers(ws[1], 1) && Covers(ws[0], 1);
    assert ws[..1] == [ws[0]];
    assert EvalAt([], 1).None?;
  }
}
