/** The GPU breakdown of a session: clamp, pair, attribute, build. */
module Breakdown {
  import opened Bytes
  import opened Events
  import opened Windows
  import opened Sorting
  import opened OpClamp
  import opened Pairing
  import opened Tallies
  import opened CallTree
  import opened Attribution

  const UNSCOPED := "<unscoped>"
  const ROOT := "<root>"

  datatype Diagnostics = Diagnostics(
    unscopedGpu: nat,
    unmatchedCbs: nat,
    malformedReturns: int,
    cbsWithoutSamples: nat,
    cbsScopeAttributed: nat,
    cbsClamped: nat)

  datatype Result = EmptySession | Computed(tree: ModuleBreakdown<OpTable>, diagnostics: Diagnostics)

  // ----- what the passes see -----

  function ChargesOf(events: seq<Event>): (r: seq<Charge>)
  {
    Charges(PairSpec(events, |events|, map[]), AnyOps(events))
  }

  function ChargedAt(events: seq<Event>, p: Place): (r: u64 -> bool)
  {
    ChargedTo(EvalsOf(events), WindowsOf(events), EnteredIds(events, |events|), p)
  }

  /** Every call with the buffers charged to it, and the evals it is the leaf of. */
  function ChargedCalls(events: seq<Event>): (r: map<u64, CallNode>)
  {
    map id | id in EnteredIds(events, |events|) ::
      NodeAt(events, |events|, id).(
        own := SumWhere(ChargesOf(events), ChargedAt(events, AtCall(id))),
        evals := LeafCount(EvalsOf(events), EnteredIds(events, |events|), |EvalsOf(events)|, AtCall(id)))
  }

  lemma ChargedCallsHold(events: seq<Event>, id: u64)
    ensures id in ChargedCalls(events) <==> LatestEnter(events, |events|, id).Some?
    ensures id in ChargedCalls(events) ==>
              ChargedCalls(events)[id] == NodeAt(events, |events|, id).(
                own := SumWhere(ChargesOf(events), ChargedAt(events, AtCall(id))),
                evals := LeafCount(EvalsOf(events), EnteredIds(events, |events|), |EvalsOf(events)|, AtCall(id)))
  {
    hide SumWhere, LeafCount, ChargesOf, EvalsOf, ChargedAt;
  }

  lemma ChargedCallsIndexed(events: seq<Event>)
    ensures Indexed(ChargedCalls(events), events)
    ensures ChargedCalls(events).Keys == EnteredIds(events, |events|)
  {
    hide SumWhere, LeafCount, ChargesOf, EvalsOf, ChargedAt, ChargedCalls, LatestEnter;
    forall id: u64
      ensures id in ChargedCalls(events) <==> LatestEnter(events, |events|, id).Some?
      ensures id in ChargedCalls(events) ==>
                ChargedCalls(events)[id].children
                    == ChildIds(events, LatestEnter(events, |events|, id).value + 1, |events|, id)
    {
      ChargedCallsHold(events, id);
    }
  }

  /** The root calls, in call-id order. */
  ghost predicate RootList(calls: map<u64, CallNode>, roots: seq<u64>)
  {
    && (forall i, j :: 0 <= i < j < |roots| ==> roots[i] < roots[j])
    && (forall id: u64 :: id in roots <==> IsRoot(calls, id))
  }

  /** The root node over the built roots and whatever was charged to no call. */
  function TreeOver(children: seq<ModuleBreakdown<OpTable>>, unscoped: Tally, unscopedEvals: nat,
      unmatched: nat): (r: ModuleBreakdown<OpTable>)
  {
    var rest :=
      if unscoped.gpuNs > 0 || unscopedEvals > 0 || unmatched > 0
      then [ModuleBreakdown(UNSCOPED, 0, unscoped.gpuNs, unscoped.gpuNs, unscopedEvals, unscoped.cbs, [], unscoped.ops)]
      else [];
    ModuleBreakdown(
      ROOT, 0, 0, SumBy(children, SubtreeOf()) + unscoped.gpuNs, 0, 0,
      StableSort(children + rest, HeaviestFirst()), map[])
  }

  lemma RootsRank(events: seq<Event>, roots: seq<u64>)
    ensures forall i :: 0 <= i < |roots| ==> -1 < Rank(events, roots[i])
  {
  }

  /** The tree the definitions give for one listing of the roots. */
  function TreeOf(events: seq<Event>, roots: seq<u64>): (r: ModuleBreakdown<OpTable>)
    requires events != []
  {
    ChargedCallsIndexed(events);
    RootsRank(events, roots);
    TreeOver(
      BuildAll(ChargedCalls(events), events, roots, -1),
      SumWhere(ChargesOf(events), ChargedAt(events, Unscoped)),
      LeafCount(EvalsOf(events), EnteredIds(events, |events|), |EvalsOf(events)|, Unscoped),
      SumWhere(ChargesOf(events), FallsTo(EvalsOf(events), WindowsOf(events), Unscoped)).cbs)
  }

  // ----- the computation -----

  method CollectRoots(calls: map<u64, CallNode>) returns (roots: seq<u64>)
    ensures RootList(calls, roots)
  {
    var ids: seq<u64>, rest := [], calls;
    while rest != map[]
      invariant rest.Keys <= calls.Keys && Distinct(ids)
      invariant forall id: u64 :: id in ids <==> IsRoot(calls, id) && id !in rest
      decreases |rest|
    {
      var id :| id in rest;
      if IsRoot(calls, id) {
        ids := ids + [id];
      }
      rest := rest - {id};
    }
    roots := StableSort(ids, IdKey());
    SortedIds(ids, roots);
  }

  function IdKey(): (r: u64 -> int) { (id: u64) => id }

  lemma SortedIds(ids: seq<u64>, sorted: seq<u64>)
    requires Distinct(ids) && sorted == StableSort(ids, IdKey())
    ensures forall i, j :: 0 <= i < j < |sorted| ==> sorted[i] < sorted[j]
    ensures forall id: u64 :: id in sorted <==> id in ids
  {
    hide StableSort;
    StableSortSorts(ids, IdKey());
    forall id: u64
      ensures id in sorted <==> id in ids
    {
      assert id in multiset(sorted) <==> id in multiset(ids);
    }
    DistinctCounts(ids);
    forall i, j | 0 <= i < j < |sorted|
      ensures sorted[i] < sorted[j]
    {
      assert IdKey()(sorted[i]) <= IdKey()(sorted[j]);
      TwiceCounts(sorted, i, j);
    }
  }

  lemma {:induction false} DistinctCounts(ids: seq<u64>)
    requires Distinct(ids)
    ensures forall id: u64 :: multiset(ids)[id] <= 1
    decreases |ids|
  {
    if ids != [] {
      DistinctCounts(ids[..|ids| - 1]);
      assert ids == ids[..|ids| - 1] + [ids[|ids| - 1]];
    }
  }

  lemma TwiceCounts(ids: seq<u64>, i: nat, j: nat)
    requires i < j < |ids|
    ensures ids[i] == ids[j] ==> multiset(ids)[ids[i]] >= 2
  {
    assert ids == ids[..i] + [ids[i]] + ids[i + 1..j] + [ids[j]] + ids[j + 1..];
  }

  lemma {:induction false} WindowsAreEntries(events: seq<Event>, w: nat)
    requires w < |WindowsOf(events)|
    ensures WindowsOf(events)[w].call in EnteredIds(events, |events|)
  {
    hide StableSort;
    var ws := WindowList(events, |events|, EndTs(events));
    StableSortSorts(ws, ScopeKey());
    assert WindowsOf(events)[w] in multiset(WindowsOf(events));
    var p :| 0 <= p < |ws| && ws[p] == WindowsOf(events)[w];
    LatestEnterAtLeast(events, |events|, Entries(events, |events|)[p]);
  }

  lemma IndexIsFresh(events: seq<Event>, id: u64)
    requires id in CallsOf(events, |events|)
    ensures CallsOf(events, |events|)[id].own == NOTHING && CallsOf(events, |events|)[id].evals == 0
  {
  }

  /** What the passes charged is what the definition charges. */
  lemma AttributedIsCharged(events: seq<Event>, calls: map<u64, CallNode>, unscoped: Tally)
    requires calls.Keys == CallsOf(events, |events|).Keys
    requires forall id :: id in calls ==>
               calls[id] == CallsOf(events, |events|)[id].(
                 own := calls[id].own, evals := LeafCount(EvalsOf(events), calls.Keys, |EvalsOf(events)|, AtCall(id)))
    requires Attributed(calls, unscoped, EvalsOf(events), WindowsOf(events), ChargesOf(events))
    ensures calls == ChargedCalls(events)
    ensures unscoped == SumWhere(ChargesOf(events), ChargedAt(events, Unscoped))
    ensures calls.Keys == EnteredIds(events, |events|)
  {
    hide SumWhere, LeafCount, ChargesOf, EvalsOf, WindowsOf, NodeAt, ChargedCalls, LatestEnter, ChargedTo, CallsOf;
    KeysAreEntered(events);
    forall id: u64
      ensures id in calls <==> id in ChargedCalls(events)
      ensures id in calls ==> calls[id] == ChargedCalls(events)[id]
    {
      ChargedCallsHold(events, id);
      CallsHold(events, |events|, id);
    }
  }

  lemma KeysAreEntered(events: seq<Event>)
    ensures CallsOf(events, |events|).Keys == EnteredIds(events, |events|)
  {
    hide NodeAt;
  }

  method Analyze(events: seq<Event>, clamped: nat)
    returns (tree: ModuleBreakdown<OpTable>, d: Diagnostics, ghost roots: seq<u64>)
    requires events != []
    ensures RootList(ChargedCalls(events), roots)
    ensures tree == TreeOf(events, roots)
    ensures d.unscopedGpu == SumWhere(ChargesOf(events), ChargedAt(events, Unscoped)).gpuNs
    ensures d.unmatchedCbs == SumWhere(ChargesOf(events), FallsTo(EvalsOf(events), WindowsOf(events), Unscoped)).cbs
    ensures d.cbsScopeAttributed + d.unmatchedCbs == |Keep(ChargesOf(events), NoEval(EvalsOf(events)))|
    ensures d.cbsWithoutSamples == Unsampled(PairSpec(events, |events|, map[]), AnyOps(events))
    ensures d.malformedReturns == Malformed(events, |events|).0 + Malformed(events, |events|).1
    ensures d.cbsClamped == clamped
  {
    hide CallsOf, PairSpec, StableSort, WindowList, EvalList, Attributed, SumWhere, LeafCount, Keep, ChargedCalls,
         RootList, Malformed, Unsampled, TreeOver, BuildAll, AnyOps, EnteredIds, LatestEnter, Indexed;
    var index := IndexCalls(events);
    var windows, malformed := ScopeWindows(events);
    var evals := EvalWindows(events);
    var completed, anyOps := PairCommandBuffers(events, map[]);
    WindowsSorted(events);
    forall w | 0 <= w < |windows|
      ensures windows[w].call in index
    {
      WindowsAreEntries(events, w);
      CallsHold(events, |events|, windows[w].call);
    }
    forall id | id in index
      ensures index[id].own == NOTHING && index[id].evals == 0
    {
      IndexIsFresh(events, id);
    }
    var calls, unscoped, unscopedEvals, unmatched, scoped, unsampled :=
        Attribute(index, evals, windows, completed, anyOps);
    AttributedIsCharged(events, calls, unscoped);
    var rs := CollectRoots(calls);
    roots := rs;
    ChargedCallsIndexed(events);
    RootsRank(events, rs);
    tree := TreeOver(BuildAll(calls, events, rs, -1), unscoped, unscopedEvals, unmatched);
    d := Diagnostics(unscoped.gpuNs, unmatched, malformed, unsampled, scoped, clamped);
  }

  lemma WindowsSorted(events: seq<Event>)
    ensures SortedBy(WindowsOf(events), ScopeKey())
  {
    hide WindowList;
    StableSortSorts(WindowList(events, |events|, EndTs(events)), ScopeKey());
  }

  /** The events as attribution sees them: op times clamped. */
  function Clamped(events: seq<Event>): (r: seq<Event>) { ScaleEvents(ScalesUpTo(events, |events|), events) }

  method Compute(events: seq<Event>) returns (r: Result, ghost roots: seq<u64>)
    ensures r.EmptySession? <==> events == []
    ensures r.Computed? ==> RootList(ChargedCalls(Clamped(events)), roots) && r.tree == TreeOf(Clamped(events), roots)
    ensures r.Computed? ==> r.diagnostics.cbsClamped == |ScalesUpTo(events, |events|)|
  {
    hide RootList, ChargedCalls, TreeOf, ScaleEvents, ScalesUpTo;
    roots := [];
    if events == [] {
      return EmptySession, roots;
    }
    var scales := ComputeOpTimeScales(events);
    var buffer := new Event[|events|](i requires 0 <= i < |events| => events[i]);
    assert buffer[..] == events;
    ApplyOpTimeScales(buffer, scales);
    var tree, d;
    tree, d, roots := Analyze(buffer[..], |scales|);
    r := Computed(tree, d);
  }
}
