/** The order of the breakdown tree: heaviest subtree first at every node. */
module TreeOrder {
  import opened Bytes
  import opened Events
  import opened Sorting
  import opened Tallies
  import opened CallTree
  import opened Attribution
  import opened Breakdown

  ghost predicate Ordered(tree: ModuleBreakdown<OpTable>)
  {
    && (forall i, j :: 0 <= i < j < |tree.children| ==> tree.children[i].gpuSubtree >= tree.children[j].gpuSubtree)
    && (forall i :: 0 <= i < |tree.children| ==> Ordered(tree.children[i]))
  }

  lemma SortedIsOrdered(children: seq<ModuleBreakdown<OpTable>>, s: seq<ModuleBreakdown<OpTable>>)
    requires forall i :: 0 <= i < |children| ==> Ordered(children[i])
    requires s == StableSort(children, HeaviestFirst())
    ensures forall i, j :: 0 <= i < j < |s| ==> s[i].gpuSubtree >= s[j].gpuSubtree
    ensures forall i :: 0 <= i < |s| ==> Ordered(s[i])
  {
    hide StableSort, Ordered;
    StableSortSorts(children, HeaviestFirst());
    forall i, j | 0 <= i < j < |s|
      ensures s[i].gpuSubtree >= s[j].gpuSubtree
    {
      assert HeaviestFirst()(s[i]) <= HeaviestFirst()(s[j]);
    }
    forall i | 0 <= i < |s|
      ensures Ordered(s[i])
    {
      assert s[i] in multiset(s);
      assert s[i] in children;
    }
  }

  lemma {:induction false} BuildIsOrdered(calls: map<u64, CallNode>, events: seq<Event>, id: u64)
    requires Indexed(calls, events) && id in calls
    ensures Ordered(Build(calls, events, id).value)
    decreases |events| - Rank(events, id), 1, 0
  {
    hide BuildAll, StableSort, SumBy;
    var children := BuildAll(calls, events, calls[id].children, Rank(events, id));
    BuildAllIsOrdered(calls, events, calls[id].children, Rank(events, id));
    SortedIsOrdered(children, Build(calls, events, id).value.children);
  }

  lemma {:induction false} BuildAllIsOrdered(calls: map<u64, CallNode>, events: seq<Event>, ids: seq<u64>, above: int)
    requires Indexed(calls, events) && -1 <= above < |events|
    requires forall i :: 0 <= i < |ids| ==> above < Rank(events, ids[i])
    ensures forall i :: 0 <= i < |BuildAll(calls, events, ids, above)| ==>
              Ordered(BuildAll(calls, events, ids, above)[i])
    decreases |events| - above, 0, |ids|
  {
    hide Build, Ordered, Rank;
    if ids != [] {
      BuildAllIsOrdered(calls, events, ids[..|ids| - 1], above);
      if ids[|ids| - 1] in calls {
        BuildIsOrdered(calls, events, ids[|ids| - 1]);
      }
    }
  }

  /** Every node lists its children by falling subtree time, the unscoped row among the roots included. */
  lemma TreeIsOrdered(events: seq<Event>, roots: seq<u64>)
    requires events != []
    ensures Ordered(TreeOf(events, roots))
  {
    hide SumWhere, ChargesOf, LeafCount, ChargedCalls, BuildAll, StableSort, SumBy, Indexed, Rank;
    ChargedCallsIndexed(events);
    RootsRank(events, roots);
    var children := BuildAll(ChargedCalls(events), events, roots, -1);
    BuildAllIsOrdered(ChargedCalls(events), events, roots, -1);
    var tree := TreeOf(events, roots);
    var all :| tree.children == StableSort(all, HeaviestFirst()) && forall i :: 0 <= i < |all| ==> Ordered(all[i]);
    SortedIsOrdered(all, tree.children);
  }
}
