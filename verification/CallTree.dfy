/** The forest of module calls: how it is linked, built and summed. */
module CallTree {
  import opened Bytes
  import opened Events
  import opened Windows
  import opened Sorting
  import opened OpClamp
  import opened Tallies

  datatype CallNode = CallNode(qualname: string, parent: Option<u64>, children: seq<u64>, own: Tally, evals: nat)

  /** A node of the output; `O` is how its ops are held. */
  datatype ModuleBreakdown<O> = ModuleBreakdown(
    qualname: string,
    calls: nat,
    gpuSelf: nat,
    gpuSubtree: nat,
    evalCount: nat,
    cbCount: nat,
    children: seq<ModuleBreakdown<O>>,
    ops: O)

  // ----- linking calls to their parents -----

  function EnteredIds(events: seq<Event>, n: nat): (r: set<u64>)
    requires n <= |events|
    ensures forall id: u64 :: id in r <==> LatestEnter(events, n, id).Some?
  {
    if n == 0 then {}
    else EnteredIds(events, n - 1) + if Enters(events, n - 1) then {events[n - 1].payload.call} else {}
  }

  lemma {:induction false} LatestEnterAtLeast(events: seq<Event>, n: nat, j: nat)
    requires j < n <= |events| && Enters(events, j)
    ensures LatestEnter(events, n, events[j].payload.call).Some?
            && LatestEnter(events, n, events[j].payload.call).value >= j
  {
    if j < n - 1 {
      LatestEnterAtLeast(events, n - 1, j);
    }
  }

  /** The calls entered at `from` or later, before `n`, naming `p` as their parent, in entry order. */
  function ChildIds(events: seq<Event>, from: nat, n: nat, p: u64): (r: seq<u64>)
    requires n <= |events|
    ensures forall i :: 0 <= i < |r| ==>
              LatestEnter(events, |events|, r[i]).Some? && LatestEnter(events, |events|, r[i]).value >= from
    decreases n
  {
    if n <= from then []
    else if Enters(events, n - 1) && events[n - 1].payload.parent == Some(p) then
      LatestEnterAtLeast(events, |events|, n - 1);
      ChildIds(events, from, n - 1, p) + [events[n - 1].payload.call]
    else ChildIds(events, from, n - 1, p)
  }

  function NodeAt(events: seq<Event>, n: nat, id: u64): (r: CallNode)
    requires n <= |events| && LatestEnter(events, n, id).Some?
  {
    var k := LatestEnter(events, n, id).value;
    CallNode(events[k].payload.qualname, events[k].payload.parent, ChildIds(events, k + 1, n, id), NOTHING, 0)
  }

  /** Every entered call by its latest entry, with the children that entered after it. */
  function CallsOf(events: seq<Event>, n: nat): (r: map<u64, CallNode>)
    requires n <= |events|
  {
    map id | id in EnteredIds(events, n) :: NodeAt(events, n, id)
  }

  function Linked(calls: map<u64, CallNode>, parent: Option<u64>, id: u64): (r: map<u64, CallNode>)
  {
    match parent
    case Some(p) => if p in calls then calls[p := calls[p].(children := calls[p].children + [id])] else calls
    case None => calls
  }

  lemma NodeStep(events: seq<Event>, n: nat, id: u64)
    requires n < |events| && LatestEnter(events, n, id).Some?
    requires !Enters(events, n) || events[n].payload.call != id
    ensures LatestEnter(events, n + 1, id).Some?
    ensures NodeAt(events, n + 1, id) ==
            if Enters(events, n) && events[n].payload.parent == Some(id)
            then NodeAt(events, n, id).(children := NodeAt(events, n, id).children + [events[n].payload.call])
            else NodeAt(events, n, id)
  {
  }

  lemma CallsHold(events: seq<Event>, n: nat, id: u64)
    requires n <= |events|
    ensures id in CallsOf(events, n) <==> LatestEnter(events, n, id).Some?
    ensures id in CallsOf(events, n) ==> CallsOf(events, n)[id] == NodeAt(events, n, id)
  {
  }

  function AfterEntry(calls: map<u64, CallNode>, p: Payload): (r: map<u64, CallNode>)
  {
    match p
    case ModuleEntered(id, qualname, parent) =>
        Linked(calls, parent, id)[id := CallNode(qualname, parent, [], NOTHING, 0)]
    case _ => calls
  }

  lemma IndexStep(events: seq<Event>, n: nat)
    requires n < |events|
    ensures CallsOf(events, n + 1) == AfterEntry(CallsOf(events, n), events[n].payload)
  {
    hide NodeAt, CallsOf, EnteredIds;
    var next, after := CallsOf(events, n + 1), AfterEntry(CallsOf(events, n), events[n].payload);
    forall id: u64
      ensures id in next <==> id in after
      ensures id in next ==> next[id] == after[id]
    {
      IndexStepAt(events, n, id);
    }
  }

  lemma IndexStepAt(events: seq<Event>, n: nat, id: u64)
    requires n < |events|
    ensures var next, after := CallsOf(events, n + 1), AfterEntry(CallsOf(events, n), events[n].payload);
            && (id in next <==> id in after)
            && (id in next ==> next[id] == after[id])
  {
    hide NodeAt, CallsOf, EnteredIds;
    CallsHold(events, n, id);
    CallsHold(events, n + 1, id);
    if Enters(events, n) && events[n].payload.parent.Some? {
      CallsHold(events, n, events[n].payload.parent.value);
    }
    if Enters(events, n) && events[n].payload.call == id {
      NewNode(events, n);
    } else if LatestEnter(events, n, id).Some? {
      NodeStep(events, n, id);
    }
  }

  lemma NewNode(events: seq<Event>, n: nat)
    requires n < |events| && Enters(events, n)
    ensures var e := events[n].payload;
            LatestEnter(events, n + 1, e.call).Some?
                && NodeAt(events, n + 1, e.call) == CallNode(e.qualname, e.parent, [], NOTHING, 0)
  {
  }

  method IndexCalls(events: seq<Event>) returns (calls: map<u64, CallNode>)
    ensures calls == CallsOf(events, |events|)
  {
    hide CallsOf, LatestEnter;
    calls := map[];
    NoCalls(events);
    for i := 0 to |events|
      invariant calls == CallsOf(events, i)
    {
      IndexStep(events, i);
      match events[i].payload {
        case ModuleEntered(id, qualname, parent) =>
          if parent.Some? && parent.value in calls {
            var p := parent.value;
            calls := calls[p := calls[p].(children := calls[p].children + [id])];
          }
          calls := calls[id := CallNode(qualname, parent, [], NOTHING, 0)];
        case _ =>
      }
    }
  }

  lemma NoCalls(events: seq<Event>)
    ensures CallsOf(events, 0) == map[]
  {
  }

  // ----- building the output tree -----

  /** The map holds exactly the entered calls, each with the children that entered after it. */
  ghost predicate Indexed(calls: map<u64, CallNode>, events: seq<Event>)
  {
    && (forall id: u64 :: id in calls <==> LatestEnter(events, |events|, id).Some?)
    && (forall id: u64 :: id in calls ==>
          calls[id].children == ChildIds(events, LatestEnter(events, |events|, id).value + 1, |events|, id))
  }

  /** Children enter after their parent, so following links climbs towards the end of the stream. */
  ghost function Rank(events: seq<Event>, id: u64): (r: nat)
    ensures r <= |events|
  {
    match LatestEnter(events, |events|, id) case Some(k) => k case None => |events|
  }

  function HeaviestFirst<O>(): (r: ModuleBreakdown<O> -> int) { (b: ModuleBreakdown<O>) => -(b.gpuSubtree as int) }

  function SubtreeOf<O>(): (r: ModuleBreakdown<O> -> nat) { (b: ModuleBreakdown<O>) => b.gpuSubtree }

  function Build(calls: map<u64, CallNode>, ghost events: seq<Event>, id: u64): (r: Option<ModuleBreakdown<OpTable>>)
    requires Indexed(calls, events)
    ensures r.Some? <==> id in calls
    decreases |events| - Rank(events, id), 1, 0
  {
    if id !in calls then None
    else
      var n := calls[id];
      var children := BuildAll(calls, events, n.children, Rank(events, id));
      Some(ModuleBreakdown(
        n.qualname, 1, n.own.gpuNs, n.own.gpuNs + SumBy(children, SubtreeOf()),
        n.evals, n.own.cbs, StableSort(children, HeaviestFirst()), n.own.ops))
  }

  function BuildAll(calls: map<u64, CallNode>, ghost events: seq<Event>, ids: seq<u64>,
      ghost above: int): (r: seq<ModuleBreakdown<OpTable>>)
    requires Indexed(calls, events) && -1 <= above < |events|
    requires forall i :: 0 <= i < |ids| ==> above < Rank(events, ids[i])
    decreases |events| - above, 0, |ids|
  {
    if ids == [] then []
    else
      BuildAll(calls, events, ids[..|ids| - 1], above)
      + match Build(calls, events, ids[|ids| - 1]) case Some(b) => [b] case None => []
  }

  // ----- subtree sums -----

  /** The weight of a call and of everything linked below it. */
  ghost function Weigh(events: seq<Event>, w: u64 -> nat, id: u64): (r: nat)
    decreases |events| - Rank(events, id), 1, 0
  {
    match LatestEnter(events, |events|, id)
    case Some(k) => w(id) + WeighAll(events, w, ChildIds(events, k + 1, |events|, id), k)
    case None => 0
  }

  ghost function WeighAll(events: seq<Event>, w: u64 -> nat, ids: seq<u64>, above: int): (r: nat)
    requires -1 <= above < |events|
    requires forall i :: 0 <= i < |ids| ==> above < Rank(events, ids[i])
    decreases |events| - above, 0, |ids|
  {
    if ids == [] then 0
    else WeighAll(events, w, ids[..|ids| - 1], above) + Weigh(events, w, ids[|ids| - 1])
  }

  ghost function Weight(events: seq<Event>, w: u64 -> nat): (r: u64 -> nat) { (id: u64) => Weigh(events, w, id) }

  lemma {:induction false} WeighAllIsSum(events: seq<Event>, w: u64 -> nat, ids: seq<u64>, above: int)
    requires -1 <= above < |events|
    requires forall i :: 0 <= i < |ids| ==> above < Rank(events, ids[i])
    ensures WeighAll(events, w, ids, above) == SumOver(ids, Weight(events, w))
    decreases |ids|
  {
    hide Weigh, Rank;
    if ids != [] {
      WeighAllIsSum(events, w, ids[..|ids| - 1], above);
    }
  }

  // ----- exact accounting -----

  /** Call ids are allocated from a counter, so none repeats. */
  ghost predicate DistinctCalls(events: seq<Event>)
  {
    forall a, b :: 0 <= a < b < |events| && Enters(events, a) && Enters(events, b)
      ==> events[a].payload.call != events[b].payload.call
  }

  /** A call is a child of its parent, a root, or late: its parent entered, but not before it. */
  datatype Standing = Child | Root | Late

  function StandingAt(events: seq<Event>, k: nat): (r: Standing)
    requires k < |events| && Enters(events, k)
  {
    match events[k].payload.parent
    case None => Root
    case Some(p) =>
      if p in EnteredIds(events, k) then Child
      else if p in EnteredIds(events, |events|) then Late
      else Root
  }

  /** Sums over the calls entered among the first `n` events. */
  function SumEntered(events: seq<Event>, n: nat, g: u64 -> nat): (r: nat)
    requires n <= |events|
  {
    if n == 0 then 0
    else SumEntered(events, n - 1, g) + if Enters(events, n - 1) then g(events[n - 1].payload.call) else 0
  }

  function SumStanding(events: seq<Event>, n: nat, s: Standing, g: u64 -> nat): (r: nat)
    requires n <= |events|
  {
    if n == 0 then 0
    else SumStanding(events, n - 1, s, g)
         + if Enters(events, n - 1) && StandingAt(events, n - 1) == s then g(events[n - 1].payload.call) else 0
  }

  /** The children, entered before `n`, of the calls entered before `m`. */
  function SumChildren(events: seq<Event>, m: nat, n: nat, g: u64 -> nat): (r: nat)
    requires m <= |events| && n <= |events|
    decreases m
  {
    if m == 0 then 0
    else SumChildren(events, m - 1, n, g)
         + if Enters(events, m - 1) then SumOver(ChildIds(events, m, n, events[m - 1].payload.call), g) else 0
  }

  lemma {:induction false} EveryCallStands(events: seq<Event>, n: nat, g: u64 -> nat)
    requires n <= |events|
    ensures SumEntered(events, n, g) ==
            SumStanding(events, n, Child, g) + SumStanding(events, n, Root, g) + SumStanding(events, n, Late, g)
  {
    hide StandingAt;
    if n > 0 {
      EveryCallStands(events, n - 1, g);
    }
  }

  lemma SumOverMore(ids: seq<u64>, id: u64, g: u64 -> nat)
    ensures SumOver(ids + [id], g) == SumOver(ids, g) + g(id)
  {
    assert (ids + [id])[..|ids|] == ids;
  }

  /** One more entry is one more child of its parent, when the parent is already there. */
  lemma {:induction false} SumChildrenStep(events: seq<Event>, m: nat, n: nat, g: u64 -> nat)
    requires DistinctCalls(events) && m <= n < |events|
    ensures SumChildren(events, m, n + 1, g) ==
            SumChildren(events, m, n, g)
            + if Enters(events, n) && events[n].payload.parent.Some?
                && events[n].payload.parent.value in EnteredIds(events, m)
              then g(events[n].payload.call) else 0
    decreases m
  {
    hide SumOver, LatestEnter, ChildIds, DistinctCalls;
    if m > 0 {
      SumChildrenStep(events, m - 1, n, g);
      if Enters(events, m - 1) {
        NotEnteredBefore(events, m - 1);
        OneMoreChild(events, m, n, events[m - 1].payload.call, g);
      }
    }
  }

  lemma OneMoreChild(events: seq<Event>, from: nat, n: nat, p: u64, g: u64 -> nat)
    requires from <= n < |events|
    ensures SumOver(ChildIds(events, from, n + 1, p), g) ==
            SumOver(ChildIds(events, from, n, p), g)
            + if Enters(events, n) && events[n].payload.parent == Some(p) then g(events[n].payload.call) else 0
  {
    hide SumOver, LatestEnter;
    SumOverMore(ChildIds(events, from, n, p), if Enters(events, n) then events[n].payload.call else 0, g);
  }

  lemma NotEnteredBefore(events: seq<Event>, k: nat)
    requires DistinctCalls(events) && k < |events| && Enters(events, k)
    ensures events[k].payload.call !in EnteredIds(events, k)
  {
  }

  /** Every child is the child of exactly one call. */
  lemma {:induction false} ChildrenAreCountedOnce(events: seq<Event>, n: nat, g: u64 -> nat)
    requires DistinctCalls(events) && n <= |events|
    ensures SumChildren(events, n, n, g) == SumStanding(events, n, Child, g)
    decreases n
  {
    hide SumOver, EnteredIds, ChildIds;
    if n > 0 {
      ChildrenAreCountedOnce(events, n - 1, g);
      SumChildrenStep(events, n - 1, n - 1, g);
      if Enters(events, n - 1) {
        NoChildrenYet(events, n, events[n - 1].payload.call, g);
      }
    }
  }

  lemma NoChildrenYet(events: seq<Event>, n: nat, p: u64, g: u64 -> nat)
    requires n <= |events|
    ensures SumOver(ChildIds(events, n, n, p), g) == 0
  {
  }

  /** A subtree is the call and the subtrees of its children. */
  lemma {:induction false} SubtreesSplit(events: seq<Event>, m: nat, w: u64 -> nat)
    requires DistinctCalls(events) && m <= |events|
    ensures SumEntered(events, m, Weight(events, w)) ==
            SumEntered(events, m, w) + SumChildren(events, m, |events|, Weight(events, w))
    decreases m
  {
    hide SumOver, ChildIds, WeighAll;
    if m > 0 {
      SubtreesSplit(events, m - 1, w);
      if Enters(events, m - 1) {
        var id := events[m - 1].payload.call;
        OnlyEntry(events, |events|, m - 1);
        WeighAllIsSum(events, w, ChildIds(events, m, |events|, id), m - 1);
      }
    }
  }

  lemma {:induction false} OnlyEntry(events: seq<Event>, n: nat, k: nat)
    requires DistinctCalls(events) && k < n <= |events| && Enters(events, k)
    ensures LatestEnter(events, n, events[k].payload.call) == Some(k)
    decreases n
  {
    if k < n - 1 {
      OnlyEntry(events, n - 1, k);
    }
  }

  /** Exact accounting: the root subtrees hold every call's weight, except the subtrees of late calls. */
  lemma RootsAndLateHoldEverything(events: seq<Event>, w: u64 -> nat)
    requires DistinctCalls(events)
    ensures SumStanding(events, |events|, Root, Weight(events, w))
            + SumStanding(events, |events|, Late, Weight(events, w))
         == SumEntered(events, |events|, w)
  {
    hide *;
    var g := Weight(events, w);
    EveryCallStands(events, |events|, g);
    ChildrenAreCountedOnce(events, |events|, g);
    SubtreesSplit(events, |events|, w);
  }

  ghost predicate NoLateCalls(events: seq<Event>)
  {
    forall k :: 0 <= k < |events| && Enters(events, k) ==> StandingAt(events, k) != Late
  }

  lemma {:induction false} NoneLateSumsToZero(events: seq<Event>, n: nat, g: u64 -> nat)
    requires n <= |events| && NoLateCalls(events)
    ensures SumStanding(events, n, Late, g) == 0
  {
    hide StandingAt;
    if n > 0 {
      NoneLateSumsToZero(events, n - 1, g);
    }
  }

  lemma {:induction false} SumStandingHolds(events: seq<Event>, n: nat, s: Standing, g: u64 -> nat, k: nat)
    requires k < n <= |events| && Enters(events, k) && StandingAt(events, k) == s
    ensures SumStanding(events, n, s, g) >= g(events[k].payload.call)
    decreases n
  {
    hide StandingAt;
    if k < n - 1 {
      SumStandingHolds(events, n - 1, s, g, k);
    }
  }

  /** The root subtrees hold everything, whatever is counted, exactly when no call is late. */
  lemma RootsHoldEverythingIffNoneLate(events: seq<Event>)
    requires DistinctCalls(events)
    ensures NoLateCalls(events) <==>
            forall w: u64 -> nat :: SumStanding(events, |events|, Root, Weight(events, w))
                == SumEntered(events, |events|, w)
  {
    hide SumStanding, SumEntered, StandingAt, DistinctCalls;
    forall w: u64 -> nat
      ensures SumStanding(events, |events|, Root, Weight(events, w))
              + SumStanding(events, |events|, Late, Weight(events, w))
           == SumEntered(events, |events|, w)
      ensures NoLateCalls(events) ==> SumStanding(events, |events|, Late, Weight(events, w)) == 0
    {
      RootsAndLateHoldEverything(events, w);
      if NoLateCalls(events) {
        NoneLateSumsToZero(events, |events|, Weight(events, w));
      }
    }
    if !NoLateCalls(events) {
      var k :| 0 <= k < |events| && Enters(events, k) && StandingAt(events, k) == Late;
      var one := (id: u64) => 1;
      LatestEnterAtLeast(events, |events|, k);
      SumStandingHolds(events, |events|, Late, Weight(events, one), k);
      assert Weigh(events, one, events[k].payload.call) >= 1;
    }
  }

  // ----- the output tree adds up -----

  function Own(calls: map<u64, CallNode>, m: Measure): (r: u64 -> nat)
  {
    (id: u64) => if id in calls then Amount(m, calls[id].own) else 0
  }

  /** The buffers counted anywhere in a tree. */
  function TotalCbs<O>(b: ModuleBreakdown<O>): (r: nat)
  {
    b.cbCount + TotalCbsAll(b.children)
  }

  function TotalCbsAll<O>(bs: seq<ModuleBreakdown<O>>): (r: nat)
  {
    if bs == [] then 0 else TotalCbsAll(bs[..|bs| - 1]) + TotalCbs(bs[|bs| - 1])
  }

  function CbsOf<O>(): (r: ModuleBreakdown<O> -> nat) { (b: ModuleBreakdown<O>) => TotalCbs(b) }

  lemma {:induction false} TotalCbsAllIsSum<O>(bs: seq<ModuleBreakdown<O>>)
    ensures TotalCbsAll(bs) == SumBy(bs, CbsOf())
    decreases |bs|
  {
    hide TotalCbs;
    if bs != [] {
      TotalCbsAllIsSum(bs[..|bs| - 1]);
    }
  }

  /** A built node carries the weight of its whole subtree, in time and in buffers. */
  lemma {:induction false} BuildWeighs(calls: map<u64, CallNode>, events: seq<Event>, id: u64)
    requires Indexed(calls, events) && id in calls
    ensures Build(calls, events, id).value.gpuSubtree == Weigh(events, Own(calls, Gpu), id)
    ensures TotalCbs(Build(calls, events, id).value) == Weigh(events, Own(calls, Buffers), id)
    decreases |events| - Rank(events, id), 1, 0
  {
    hide BuildAll, WeighAll, StableSort, SumBy;
    var n, above := calls[id], Rank(events, id);
    var children := BuildAll(calls, events, n.children, above);
    BuildAllWeighs(calls, events, n.children, above);
    TotalCbsAllIsSum(StableSort(children, HeaviestFirst()));
    SumBySorted(children, HeaviestFirst(), CbsOf());
  }

  lemma {:induction false} BuildAllWeighs(calls: map<u64, CallNode>, events: seq<Event>, ids: seq<u64>, above: int)
    requires Indexed(calls, events) && -1 <= above < |events|
    requires forall i :: 0 <= i < |ids| ==> above < Rank(events, ids[i])
    ensures SumBy(BuildAll(calls, events, ids, above), SubtreeOf()) == WeighAll(events, Own(calls, Gpu), ids, above)
    ensures SumBy(BuildAll(calls, events, ids, above), CbsOf()) == WeighAll(events, Own(calls, Buffers), ids, above)
    decreases |events| - above, 0, |ids|
  {
    hide TotalCbs, Build, Rank, ChildIds;
    if ids != [] {
      var init, id := ids[..|ids| - 1], ids[|ids| - 1];
      BuildAllWeighs(calls, events, init, above);
      var before := BuildAll(calls, events, init, above);
      match Build(calls, events, id) {
        case Some(b) =>
          BuildWeighs(calls, events, id);
          assert (before + [b])[..|before|] == before;
        case None =>
          assert before + [] == before;
      }
    }
  }

  // ----- the roots -----

  /** A root has no parent, or one that never entered. */
  predicate IsRoot(calls: map<u64, CallNode>, id: u64)
  {
    id in calls && match calls[id].parent case Some(p) => p !in calls case None => true
  }

  predicate RootBefore(events: seq<Event>, n: nat, id: u64)
    requires n <= |events|
  {
    LatestEnter(events, n, id).Some? && StandingAt(events, LatestEnter(events, n, id).value) == Root
  }

  lemma SumOverRemove(ids: seq<u64>, i: nat, g: u64 -> nat)
    requires i < |ids|
    ensures SumOver(ids, g) == SumOver(ids[..i] + ids[i + 1..], g) + g(ids[i])
    decreases |ids|
  {
    hide SumOver;
    var init, last := ids[..|ids| - 1], ids[|ids| - 1];
    assert ids == init + [last];
    SumOverMore(init, last, g);
    if i == |ids| - 1 {
      assert ids[..i] + ids[i + 1..] == init;
    } else {
      SumOverRemove(init, i, g);
      assert ids[..i] + ids[i + 1..] == init[..i] + init[i + 1..] + [last];
      SumOverMore(init[..i] + init[i + 1..], last, g);
    }
  }

  /** Any listing of the roots, each once, sums to the same. */
  lemma {:induction false} RootsSum(events: seq<Event>, n: nat, ids: seq<u64>, g: u64 -> nat)
    requires DistinctCalls(events) && n <= |events| && Distinct(ids)
    requires forall id: u64 :: id in ids <==> RootBefore(events, n, id)
    ensures SumOver(ids, g) == SumStanding(events, n, Root, g)
  {
    hide StandingAt, SumOver;
    if n == 0 {
      EmptySum(g);
      if ids != [] {
        HasMember(ids);
      }
    } else if Enters(events, n - 1) && StandingAt(events, n - 1) == Root {
      var c := events[n - 1].payload.call;
      assert c in ids;
      var i :| 0 <= i < |ids| && ids[i] == c;
      var rest := ids[..i] + ids[i + 1..];
      SumOverRemove(ids, i, g);
      NotEnteredBefore(events, n - 1);
      WithoutOne(ids, i);
      RootsSum(events, n - 1, rest, g);
    } else {
      if Enters(events, n - 1) {
        NotEnteredBefore(events, n - 1);
      }
      RootsSum(events, n - 1, ids, g);
    }
  }

  lemma HasMember(ids: seq<u64>)
    requires ids != []
    ensures exists id: u64 :: id in ids
  {
    assert ids[0] in ids;
  }

  lemma EmptySum(g: u64 -> nat)
    ensures SumOver([], g) == 0
  {
  }

  lemma WithoutOne(ids: seq<u64>, i: nat)
    requires Distinct(ids) && i < |ids|
    ensures var rest := ids[..i] + ids[i + 1..];
            Distinct(rest) && forall id: u64 :: id in rest <==> id in ids && id != ids[i]
  {
    var rest := ids[..i] + ids[i + 1..];
    forall id: u64 | id in ids && id != ids[i]
      ensures id in rest
    {
      var k :| 0 <= k < |ids| && ids[k] == id;
      assert rest[if k < i then k else k - 1] == id;
    }
  }
}
