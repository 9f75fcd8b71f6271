/** GPU time is neither lost nor counted twice on its way into the breakdown tree. */
module Conservation {
  import opened Bytes
  import opened Events
  import opened Windows
  import opened Sorting
  import opened OpClamp
  import opened Pairing
  import opened Tallies
  import opened CallTree
  import opened Attribution
  import opened Breakdown

  function AmountOf(m: Measure): (r: Charge -> nat) { (c: Charge) => Amount(m, c.tally) }

  /** What the completed buffers are worth together. */
  function Total(cs: seq<Charge>, m: Measure): (r: nat) { SumBy(cs, AmountOf(m)) }

  // ----- every buffer is charged to exactly one place -----

  lemma {:induction false} SumEnteredBump(events: seq<Event>, n: nat, f: u64 -> nat, g: u64 -> nat, id: u64, x: nat)
    requires DistinctCalls(events) && n <= |events|
    requires forall i: u64 :: g(i) == f(i) + if i == id then x else 0
    ensures SumEntered(events, n, g) == SumEntered(events, n, f) + if id in EnteredIds(events, n) then x else 0
  {
    hide LatestEnter;
    if n > 0 {
      SumEnteredBump(events, n - 1, f, g, id, x);
      if Enters(events, n - 1) {
        NotEnteredBefore(events, n - 1);
      }
    }
  }

  lemma {:induction false} SumEnteredSame(events: seq<Event>, n: nat, f: u64 -> nat, g: u64 -> nat)
    requires n <= |events|
    requires forall k :: 0 <= k < n && Enters(events, k) ==> f(events[k].payload.call) == g(events[k].payload.call)
    ensures SumEntered(events, n, f) == SumEntered(events, n, g)
  {
    if n > 0 {
      SumEnteredSame(events, n - 1, f, g);
    }
  }

  lemma {:induction false} SumEnteredZero(events: seq<Event>, n: nat, f: u64 -> nat)
    requires n <= |events| && forall i: u64 :: f(i) == 0
    ensures SumEntered(events, n, f) == 0
  {
    if n > 0 {
      SumEnteredZero(events, n - 1, f);
    }
  }

  function Placed(evals: seq<EvalWindow>, windows: seq<ScopeWindow>, ids: set<u64>, cs: seq<Charge>,
      m: Measure): (r: u64 -> nat)
  {
    (id: u64) => Amount(m, SumWhere(cs, ChargedTo(evals, windows, ids, AtCall(id))))
  }

  lemma AmountPlus(m: Measure, a: Tally, b: Tally)
    ensures Amount(m, Plus(a, b)) == Amount(m, a) + Amount(m, b)
    ensures Amount(m, NOTHING) == 0
  {
  }

  /** A place is an entered call or none. */
  lemma PlaceIsKnown(evals: seq<EvalWindow>, windows: seq<ScopeWindow>, ids: set<u64>, ts: u64)
    requires forall w :: 0 <= w < |windows| ==> windows[w].call in ids
    ensures PlaceOf(evals, windows, ids, ts).AtCall? ==> PlaceOf(evals, windows, ids, ts).id in ids
  {
    hide EvalAt, LastCovering;
  }

  lemma {:induction false} ChargesAreAllPlaced(events: seq<Event>, evals: seq<EvalWindow>, windows: seq<ScopeWindow>,
      cs: seq<Charge>, m: Measure)
    requires DistinctCalls(events)
    requires forall w :: 0 <= w < |windows| ==> windows[w].call in EnteredIds(events, |events|)
    ensures var ids := EnteredIds(events, |events|);
            SumEntered(events, |events|, Placed(evals, windows, ids, cs, m))
            + Amount(m, SumWhere(cs, ChargedTo(evals, windows, ids, Unscoped))) == Total(cs, m)
    decreases |cs|
  {
    hide DistinctCalls, EnteredIds, PlaceOf, SumEntered, Plus, Amount;
    var ids := EnteredIds(events, |events|);
    AmountPlus(m, NOTHING, NOTHING);
    if cs == [] {
      SumEnteredZero(events, |events|, Placed(evals, windows, ids, cs, m));
    } else {
      var init, c := cs[..|cs| - 1], cs[|cs| - 1];
      ChargesAreAllPlaced(events, evals, windows, init, m);
      var p := PlaceOf(evals, windows, ids, c.ts);
      PlaceIsKnown(evals, windows, ids, c.ts);
      var at, x := if p.AtCall? then p.id else 0, if p.AtCall? then Amount(m, c.tally) else 0;
      forall id: u64
        ensures Placed(evals, windows, ids, cs, m)(id) == Placed(evals, windows, ids, init, m)(id)
                + if id == at then x else 0
      {
        AmountPlus(m, SumWhere(init, ChargedTo(evals, windows, ids, AtCall(id))),
            Share(c, ChargedTo(evals, windows, ids, AtCall(id))));
      }
      SumEnteredBump(events, |events|, Placed(evals, windows, ids, init, m), Placed(evals, windows, ids, cs, m), at, x);
      AmountPlus(m, SumWhere(init, ChargedTo(evals, windows, ids, Unscoped)),
          Share(c, ChargedTo(evals, windows, ids, Unscoped)));
    }
  }

  function UnscopedTally(events: seq<Event>): (r: Tally) { SumWhere(ChargesOf(events), ChargedAt(events, Unscoped)) }

  /** The calls' own shares and the unscoped share are everything. */
  lemma CallsHoldEverything(events: seq<Event>, m: Measure)
    requires DistinctCalls(events)
    ensures SumEntered(events, |events|, Own(ChargedCalls(events), m)) + Amount(m, UnscopedTally(events))
            == Total(ChargesOf(events), m)
  {
    hide DistinctCalls, EnteredIds, SumEntered, Amount, SumWhere, ChargesOf, EvalsOf, WindowsOf, ChargedCalls,
         ChargedTo, LatestEnter, NodeAt, LeafCount, Total;
    var evals, windows, ids, cs := EvalsOf(events), WindowsOf(events), EnteredIds(events, |events|), ChargesOf(events);
    forall w | 0 <= w < |windows|
      ensures windows[w].call in ids
    {
      WindowsAreEntries(events, w);
    }
    ChargesAreAllPlaced(events, evals, windows, cs, m);
    forall k | 0 <= k < |events| && Enters(events, k)
      ensures Own(ChargedCalls(events), m)(events[k].payload.call)
              == Placed(evals, windows, ids, cs, m)(events[k].payload.call)
    {
      LatestEnterAtLeast(events, |events|, k);
      ChargedCallsHold(events, events[k].payload.call);
    }
    SumEnteredSame(events, |events|, Own(ChargedCalls(events), m), Placed(evals, windows, ids, cs, m));
  }

  // ----- through the tree -----

  /** What sits in the subtrees of late calls, which are linked nowhere. */
  ghost function LateAmount(events: seq<Event>, m: Measure): (r: nat)
  {
    SumStanding(events, |events|, Late, Weight(events, Own(ChargedCalls(events), m)))
  }

  /** The amount a whole tree shows. */
  function Shown(tree: ModuleBreakdown<OpTable>, m: Measure): (r: nat)
  {
    match m case Gpu => tree.gpuSubtree case Buffers => TotalCbs(tree)
  }

  lemma RootsAreStanding(events: seq<Event>, roots: seq<u64>)
    requires DistinctCalls(events) && RootList(ChargedCalls(events), roots)
    ensures Distinct(roots) && forall id: u64 :: id in roots <==> RootBefore(events, |events|, id)
  {
    hide SumWhere, ChargesOf, EvalsOf, LeafCount, ChargedAt, ChargedCalls, DistinctCalls, LatestEnter;
    ChargedCallsIndexed(events);
    forall id: u64
      ensures IsRoot(ChargedCalls(events), id) <==> RootBefore(events, |events|, id)
    {
      ChargedCallsHold(events, id);
      if LatestEnter(events, |events|, id).Some? {
        var k := LatestEnter(events, |events|, id).value;
        if events[k].payload.parent.Some? && events[k].payload.parent.value in EnteredIds(events, k) {
          EnteredGrows(events, k, events[k].payload.parent.value);
        }
      }
    }
  }

  lemma EnteredGrows(events: seq<Event>, k: nat, id: u64)
    requires k <= |events| && id in EnteredIds(events, k)
    ensures id in EnteredIds(events, |events|)
  {
    LatestEnterAtLeast(events, |events|, LatestEnter(events, k, id).value);
  }

  /** No buffer hides when the unscoped row is left out of the tree. */
  lemma UnshownIsEmpty(events: seq<Event>)
    requires LeafCount(EvalsOf(events), EnteredIds(events, |events|), |EvalsOf(events)|, Unscoped) == 0
    requires SumWhere(ChargesOf(events), FallsTo(EvalsOf(events), WindowsOf(events), Unscoped)).cbs == 0
    ensures UnscopedTally(events).cbs == 0
  {
    hide SumWhere, ChargesOf, EvalsOf, WindowsOf, EnteredIds, EvalAt, ScopePlace, Leaf, LeafCount;
    var evals, windows, ids, cs := EvalsOf(events), WindowsOf(events), EnteredIds(events, |events|), ChargesOf(events);
    NoSuchLeaf(evals, ids, |evals|, Unscoped);
    SumWhereEither(cs, LeafIs(evals, ids, |evals|, Unscoped), FallsTo(evals, windows, Unscoped),
        ChargedAt(events, Unscoped));
    SumWhereNever(cs, LeafIs(evals, ids, |evals|, Unscoped));
  }

  lemma {:induction false} NoSuchLeaf(evals: seq<EvalWindow>, ids: set<u64>, n: nat, p: Place)
    requires n <= |evals| && LeafCount(evals, ids, n, p) == 0
    ensures forall i :: 0 <= i < n ==> Leaf(evals[i].moduleStack, ids) != p
  {
    hide Leaf;
    if n > 0 {
      NoSuchLeaf(evals, ids, n - 1, p);
    }
  }

  lemma {:induction false} SumByAppend<T>(a: seq<T>, b: seq<T>, f: T -> nat)
    ensures SumBy(a + b, f) == SumBy(a, f) + SumBy(b, f)
    decreases |b|
  {
    if b == [] {
      assert a + b == a;
    } else {
      assert (a + b)[..|a + b| - 1] == a + b[..|b| - 1];
      SumByAppend(a, b[..|b| - 1], f);
    }
  }

  lemma TreeOverShows(children: seq<ModuleBreakdown<OpTable>>, unscoped: Tally, unscopedEvals: nat, unmatched: nat)
    requires unscopedEvals == 0 && unmatched == 0 ==> unscoped.cbs == 0
    ensures var tree := TreeOver(children, unscoped, unscopedEvals, unmatched);
            && tree.gpuSubtree == SumBy(children, SubtreeOf()) + unscoped.gpuNs
            && TotalCbs(tree) == SumBy(children, CbsOf()) + unscoped.cbs
  {
    hide StableSort;
    var rest := if unscoped.gpuNs > 0 || unscopedEvals > 0 || unmatched > 0
      then [ModuleBreakdown(UNSCOPED, 0, unscoped.gpuNs, unscoped.gpuNs, unscopedEvals, unscoped.cbs, [], unscoped.ops)]
      else [];
    TotalCbsAllIsSum(StableSort(children + rest, HeaviestFirst()));
    SumBySorted(children + rest, HeaviestFirst(), CbsOf());
    SumByAppend(children, rest, CbsOf());
    assert rest != [] ==> TotalCbs(rest[0]) == unscoped.cbs && rest[..0] == [];
  }

  lemma TreeShowsTheRoots(events: seq<Event>, roots: seq<u64>, m: Measure)
    requires events != []
    ensures Shown(TreeOf(events, roots), m) ==
            SumOver(roots, Weight(events, Own(ChargedCalls(events), m))) + Amount(m, UnscopedTally(events))
  {
    hide SumWhere, ChargesOf, EvalsOf, WindowsOf, EnteredIds, ChargedCalls, BuildAll, WeighAll, TotalCbs, LeafCount,
         Indexed, TreeOver, SumOver, SumBy, ChargedAt, FallsTo, Rank;
    ChargedCallsIndexed(events);
    RootsRank(events, roots);
    var calls := ChargedCalls(events);
    BuildAllWeighs(calls, events, roots, -1);
    WeighAllIsSum(events, Own(calls, m), roots, -1);
    var unscopedEvals := LeafCount(EvalsOf(events), EnteredIds(events, |events|), |EvalsOf(events)|, Unscoped);
    var unmatched := SumWhere(ChargesOf(events), FallsTo(EvalsOf(events), WindowsOf(events), Unscoped)).cbs;
    if unscopedEvals == 0 && unmatched == 0 {
      UnshownIsEmpty(events);
    }
    TreeOverShows(BuildAll(calls, events, roots, -1), UnscopedTally(events), unscopedEvals, unmatched);
  }

  /** Exact accounting. Time and buffers: the tree shows everything except what sits under late calls. */
  lemma TreeAccountsForEverything(events: seq<Event>, roots: seq<u64>, m: Measure)
    requires events != [] && DistinctCalls(events) && RootList(ChargedCalls(events), roots)
    ensures Shown(TreeOf(events, roots), m) + LateAmount(events, m) == Total(ChargesOf(events), m)
  {
    hide *;
    LateAmountIs(events, m);
    var w := Own(ChargedCalls(events), m);
    TreeShowsTheRoots(events, roots, m);
    RootsAreStanding(events, roots);
    RootsSum(events, |events|, roots, Weight(events, w));
    RootsAndLateHoldEverything(events, w);
    CallsHoldEverything(events, m);
  }

  lemma LateAmountIs(events: seq<Event>, m: Measure)
    ensures LateAmount(events, m) == SumStanding(events, |events|, Late, Weight(events, Own(ChargedCalls(events), m)))
  {
  }

  lemma {:induction false} BuffersCountOnce(completed: seq<CompletedCb>, anyOps: bool)
    ensures Total(Charges(completed, anyOps), Buffers) == |completed|
    decreases |completed|
  {
    if completed != [] {
      BuffersCountOnce(completed[..|completed| - 1], anyOps);
      assert Charges(completed, anyOps)[..|completed| - 1] == Charges(completed[..|completed| - 1], anyOps);
    }
  }

  /** Conservation: when every parent enters before its children or never, the root's time is the sum over
      the completed buffers and the tree counts every completed buffer once. */
  lemma TreeConserves(events: seq<Event>, roots: seq<u64>)
    requires events != [] && DistinctCalls(events) && NoLateCalls(events) && RootList(ChargedCalls(events), roots)
    ensures TreeOf(events, roots).gpuSubtree == Total(ChargesOf(events), Gpu)
    ensures TotalCbs(TreeOf(events, roots)) == |Completions(events, |events|)|
  {
    hide DistinctCalls, NoLateCalls, RootList, TreeOf, SumStanding, ChargedCalls, PairSpec, Total, TotalCbs;
    TreeAccountsForEverything(events, roots, Gpu);
    TreeAccountsForEverything(events, roots, Buffers);
    NoneLateSumsToZero(events, |events|, Weight(events, Own(ChargedCalls(events), Gpu)));
    NoneLateSumsToZero(events, |events|, Weight(events, Own(ChargedCalls(events), Buffers)));
    BuffersCountOnce(PairSpec(events, |events|, map[]), AnyOps(events));
  }

  /** Late parents or not, the tree never shows more than was measured. */
  lemma TreeNeverOvercounts(events: seq<Event>, roots: seq<u64>)
    requires events != [] && DistinctCalls(events) && RootList(ChargedCalls(events), roots)
    ensures TreeOf(events, roots).gpuSubtree <= Total(ChargesOf(events), Gpu)
    ensures TreeOf(events, roots).gpuSubtree == Total(ChargesOf(events), Gpu) <==> LateAmount(events, Gpu) == 0
  {
    hide DistinctCalls, RootList, TreeOf, LateAmount, ChargedCalls, Total;
    TreeAccountsForEverything(events, roots, Gpu);
  }

  // ----- each node's time is the sum of its ops -----

  ghost predicate AllBalanced(tree: ModuleBreakdown<OpTable>)
  {
    && tree.gpuSelf == SumTable(tree.ops)
    && forall i :: 0 <= i < |tree.children| ==> AllBalanced(tree.children[i])
  }

  lemma ChargeIsBalanced(cb: CompletedCb)
    ensures Balanced(ChargeOf(cb, true).tally)
  {
    match cb.ops {
      case Some(ops) => SumTableOf(ops);
      case None => SumTableEmpty();
    }
  }

  lemma ChargedCallsBalanced(events: seq<Event>, p: Place)
    requires AnyOps(events)
    ensures Balanced(SumWhere(ChargesOf(events), ChargedAt(events, p)))
  {
    hide SumWhere, Balanced, PairSpec, ChargedAt;
    forall i | 0 <= i < |ChargesOf(events)|
      ensures Balanced(ChargesOf(events)[i].tally)
    {
      ChargeIsBalanced(PairSpec(events, |events|, map[])[i]);
    }
    SumWhereBalanced(ChargesOf(events), ChargedAt(events, p));
  }

  lemma SortedAllBalanced(children: seq<ModuleBreakdown<OpTable>>, s: seq<ModuleBreakdown<OpTable>>)
    requires forall i :: 0 <= i < |children| ==> AllBalanced(children[i])
    requires s == StableSort(children, HeaviestFirst())
    ensures forall i :: 0 <= i < |s| ==> AllBalanced(s[i])
  {
    hide StableSort, AllBalanced;
    StableSortSorts(children, HeaviestFirst());
    forall i | 0 <= i < |s|
      ensures AllBalanced(s[i])
    {
      assert s[i] in multiset(s);
      assert s[i] in children;
    }
  }

  lemma {:induction false} BuildIsBalanced(calls: map<u64, CallNode>, events: seq<Event>, id: u64)
    requires Indexed(calls, events) && id in calls
    requires forall i :: i in calls ==> Balanced(calls[i].own)
    ensures AllBalanced(Build(calls, events, id).value)
    decreases |events| - Rank(events, id), 1, 0
  {
    hide SumTable, BuildAll, StableSort, SumBy;
    assert Balanced(calls[id].own);
    BuildAllIsBalanced(calls, events, calls[id].children, Rank(events, id));
    SortedAllBalanced(BuildAll(calls, events, calls[id].children, Rank(events, id)),
        Build(calls, events, id).value.children);
  }

  lemma {:induction false} BuildAllIsBalanced(calls: map<u64, CallNode>, events: seq<Event>, ids: seq<u64>, above: int)
    requires Indexed(calls, events) && -1 <= above < |events|
    requires forall i :: 0 <= i < |ids| ==> above < Rank(events, ids[i])
    requires forall i :: i in calls ==> Balanced(calls[i].own)
    ensures forall i :: 0 <= i < |BuildAll(calls, events, ids, above)| ==>
              AllBalanced(BuildAll(calls, events, ids, above)[i])
    decreases |events| - above, 0, |ids|
  {
    hide Build, AllBalanced, Rank, Balanced;
    if ids != [] {
      BuildAllIsBalanced(calls, events, ids[..|ids| - 1], above);
      if ids[|ids| - 1] in calls {
        BuildIsBalanced(calls, events, ids[|ids| - 1]);
      }
    }
  }

  /** Once any op was sampled, every node of the tree shows exactly the sum of its ops as its own time. */
  lemma TreeIsBalanced(events: seq<Event>, roots: seq<u64>)
    requires events != [] && AnyOps(events)
    ensures AllBalanced(TreeOf(events, roots))
  {
    hide SumWhere, ChargesOf, EvalsOf, WindowsOf, EnteredIds, LeafCount, ChargedCalls, BuildAll, StableSort, ChargedAt,
         FallsTo, AnyOps, LatestEnter, NodeAt, Rank, SumTable, SumBy, Indexed;
    ChargedCallsIndexed(events);
    RootsRank(events, roots);
    forall id | id in ChargedCalls(events)
      ensures Balanced(ChargedCalls(events)[id].own)
    {
      ChargedCallsHold(events, id);
      ChargedCallsBalanced(events, AtCall(id));
    }
    var children := BuildAll(ChargedCalls(events), events, roots, -1);
    BuildAllIsBalanced(ChargedCalls(events), events, roots, -1);
    ChargedCallsBalanced(events, Unscoped);
    SumTableEmpty();
    var unscoped := UnscopedTally(events);
    var unscopedEvals := LeafCount(EvalsOf(events), EnteredIds(events, |events|), |EvalsOf(events)|, Unscoped);
    var rest := ModuleBreakdown(UNSCOPED, 0, unscoped.gpuNs, unscoped.gpuNs, unscopedEvals, unscoped.cbs, [],
        unscoped.ops);
    assert AllBalanced(rest);
    var tree := TreeOf(events, roots);
    if tree.children == StableSort(children + [rest], HeaviestFirst()) {
      SortedAllBalanced(children + [rest], tree.children);
    } else {
      SortedAllBalanced(children + [], tree.children);
    }
  }
}
