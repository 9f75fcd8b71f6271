/** Whom a completed buffer is charged to, told from the eval and scope windows of its session, and what those windows
    are, told from the recorded events. */
module EvalCharge {
  import opened Bytes
  import opened Events
  import opened Windows
  import opened Sorting
  import opened OpClamp
  import opened Pairing
  import opened Tallies
  import opened CallTree
  import opened Attribution
  import opened Breakdown
  import opened ExportWindows
  import Conservation

  // ----- one buffer more or less -----

  function Without(cs: seq<Charge>, i: nat): (r: seq<Charge>)
    requires i < |cs|
  {
    cs[..i] + cs[i + 1..]
  }

  lemma {:induction false} SumWithout(cs: seq<Charge>, i: nat, p: u64 -> bool)
    requires i < |cs|
    ensures SumWhere(cs, p) ==
            if p(cs[i].ts) then Plus(SumWhere(Without(cs, i), p), cs[i].tally) else SumWhere(Without(cs, i), p)
    decreases |cs|
  {
    hide Plus;
    var init, last := cs[..|cs| - 1], cs[|cs| - 1];
    if i == |cs| - 1 {
      assert Without(cs, i) == init;
      PlusNothing(SumWhere(init, p));
    } else {
      SumWithout(init, i, p);
      assert Without(cs, i) == Without(init, i) + [last];
      SumWhereMore(Without(init, i), last, p);
      var a, x, y := SumWhere(Without(init, i), p), init[i].tally, Share(last, p);
      PlusAssociates(a, x, y);
      PlusCommutes(x, y);
      PlusAssociates(a, y, x);
    }
  }

  /** What `p` would hold without the `i`-th buffer. */
  function Others(events: seq<Event>, i: nat, p: Place): (r: Tally)
    requires i < |ChargesOf(events)|
  {
    SumWhere(Without(ChargesOf(events), i), ChargedAt(events, p))
  }

  /** The call `id` holds the whole of buffer `i`, and nobody else holds any of it. */
  ghost predicate GoesTo(events: seq<Event>, i: nat, id: u64)
    requires i < |ChargesOf(events)|
  {
    && id in ChargedCalls(events)
    && ChargedCalls(events)[id].own == Plus(Others(events, i, AtCall(id)), ChargesOf(events)[i].tally)
    && (forall other :: other in ChargedCalls(events) && other != id ==>
          ChargedCalls(events)[other].own == Others(events, i, AtCall(other)))
    && Conservation.UnscopedTally(events) == Others(events, i, Unscoped)
  }

  /** No call holds any of buffer `i`; the unscoped row holds all of it. */
  ghost predicate GoesNowhere(events: seq<Event>, i: nat)
    requires i < |ChargesOf(events)|
  {
    && (forall other :: other in ChargedCalls(events) ==>
          ChargedCalls(events)[other].own == Others(events, i, AtCall(other)))
    && Conservation.UnscopedTally(events) == Plus(Others(events, i, Unscoped), ChargesOf(events)[i].tally)
  }

  ghost predicate Entered(events: seq<Event>, id: u64)
  {
    exists k :: 0 <= k < |events| && Enters(events, k) && events[k].payload.call == id
  }

  lemma EnteredIs(events: seq<Event>, id: u64)
    ensures Entered(events, id) <==> id in EnteredIds(events, |events|)
  {
    hide EnteredIds;
    if Entered(events, id) {
      var k :| 0 <= k < |events| && Enters(events, k) && events[k].payload.call == id;
      LatestEnterAtLeast(events, |events|, k);
    }
  }

  lemma PlacedAtCall(events: seq<Event>, i: nat, id: u64)
    requires i < |ChargesOf(events)| && id in EnteredIds(events, |events|)
    requires PlaceOf(EvalsOf(events), WindowsOf(events), EnteredIds(events, |events|), ChargesOf(events)[i].ts)
             == AtCall(id)
    ensures GoesTo(events, i, id)
  {
    hide Plus, SumWhere, ChargesOf, PlaceOf, EvalsOf, WindowsOf, EnteredIds, LatestEnter, ChargedCalls;
    ChargedCallsHold(events, id);
    forall other: u64
      ensures other in ChargedCalls(events) ==>
                ChargedCalls(events)[other].own == SumWhere(ChargesOf(events), ChargedAt(events, AtCall(other)))
    {
      ChargedCallsHold(events, other);
    }
    forall p: Place
      ensures SumWhere(ChargesOf(events), ChargedAt(events, p)) ==
              if p == AtCall(id) then Plus(Others(events, i, p), ChargesOf(events)[i].tally) else Others(events, i, p)
    {
      SumWithout(ChargesOf(events), i, ChargedAt(events, p));
    }
  }

  lemma PlacedNowhere(events: seq<Event>, i: nat)
    requires i < |ChargesOf(events)|
    requires PlaceOf(EvalsOf(events), WindowsOf(events), EnteredIds(events, |events|), ChargesOf(events)[i].ts)
             == Unscoped
    ensures GoesNowhere(events, i)
  {
    hide Plus, SumWhere, ChargesOf, PlaceOf, EvalsOf, WindowsOf, EnteredIds, LatestEnter, ChargedCalls;
    forall other: u64
      ensures other in ChargedCalls(events) ==>
                ChargedCalls(events)[other].own == SumWhere(ChargesOf(events), ChargedAt(events, AtCall(other)))
    {
      ChargedCallsHold(events, other);
    }
    forall p: Place
      ensures SumWhere(ChargesOf(events), ChargedAt(events, p)) ==
              if p == Unscoped then Plus(Others(events, i, p), ChargesOf(events)[i].tally) else Others(events, i, p)
    {
      SumWithout(ChargesOf(events), i, ChargedAt(events, p));
    }
  }

  // ----- inside an eval -----

  /** The eval a buffer committed in: the last by start whose window holds its commit time. */
  ghost predicate CommittedIn(events: seq<Event>, i: nat, e: nat)
    requires i < |ChargesOf(events)|
  {
    var ws, ts := EvalsOf(events), ChargesOf(events)[i].ts;
    && e < |ws| && ws[e].tIn <= ts <= ws[e].tOut
    && forall later :: e < later < |ws| ==> !(ws[later].tIn <= ts <= ws[later].tOut)
  }

  lemma CommittedInIs(events: seq<Event>, i: nat, e: nat)
    requires i < |ChargesOf(events)| && CommittedIn(events, i, e)
    ensures EvalAt(EvalsOf(events), ChargesOf(events)[i].ts) == Some(e)
  {
    hide ChargesOf, EvalsOf;
  }

  /** A buffer of an eval goes to the innermost call of the eval's module stack, whatever is around it. */
  lemma InnermostCallGetsTheBuffer(events: seq<Event>, i: nat, e: nat, outer: seq<u64>, id: u64)
    requires i < |ChargesOf(events)| && CommittedIn(events, i, e)
    requires EvalsOf(events)[e].moduleStack == outer + [id] && Entered(events, id)
    ensures GoesTo(events, i, id)
  {
    hide ChargesOf, EvalsOf, WindowsOf, EnteredIds, ScopePlace, GoesTo, CommittedIn, EvalAt;
    CommittedInIs(events, i, e);
    InBounds(events, i, e);
    EnteredIs(events, id);
    PlacedAtCall(events, i, id);
  }

  /** Without such a call the buffer goes to no call. */
  lemma NobodyGetsTheBuffer(events: seq<Event>, i: nat, e: nat)
    requires i < |ChargesOf(events)| && CommittedIn(events, i, e)
    requires var stack := EvalsOf(events)[e].moduleStack; stack != [] ==> !Entered(events, stack[|stack| - 1])
    ensures GoesNowhere(events, i)
  {
    hide ChargesOf, EvalsOf, WindowsOf, EnteredIds, ScopePlace, GoesNowhere, EvalAt;
    CommittedInIs(events, i, e);
    var stack := EvalsOf(events)[e].moduleStack;
    if stack != [] {
      EnteredIs(events, stack[|stack| - 1]);
    }
    PlacedNowhere(events, i);
  }

  lemma InBounds(events: seq<Event>, i: nat, e: nat)
    requires i < |ChargesOf(events)| && CommittedIn(events, i, e)
    ensures e < |EvalsOf(events)|
  {
    hide ChargesOf, EvalsOf;
  }

  // ----- outside every eval -----

  ghost predicate OutsideEvals(events: seq<Event>, i: nat)
    requires i < |ChargesOf(events)|
  {
    var ts := ChargesOf(events)[i].ts;
    forall e :: 0 <= e < |EvalsOf(events)| ==> !(EvalsOf(events)[e].tIn <= ts <= EvalsOf(events)[e].tOut)
  }

  /** Half a second after a scope ended its buffers may still be committed. */
  predicate Open(w: ScopeWindow, ts: u64)
  {
    w.tIn <= ts && ts <= w.tOut + 500_000_000
  }

  lemma OpenIs(w: ScopeWindow, ts: u64)
    ensures Covers(w, ts) <==> Open(w, ts)
  {
  }

  /** A buffer of no eval goes to the scope that started last among those open at its commit. */
  lemma InnermostScopeGetsTheBuffer(events: seq<Event>, i: nat, w: nat)
    requires i < |ChargesOf(events)| && OutsideEvals(events, i)
    requires w < |WindowsOf(events)| && Open(WindowsOf(events)[w], ChargesOf(events)[i].ts)
    requires forall later :: w < later < |WindowsOf(events)| ==>
               !Open(WindowsOf(events)[later], ChargesOf(events)[i].ts)
    ensures GoesTo(events, i, WindowsOf(events)[w].call)
  {
    hide ChargesOf, EvalsOf, WindowsOf, EnteredIds, LatestEnter, GoesTo, EvalAt, Leaf, Covers, Open;
    NoEvalFound(events, i);
    forall later | 0 <= later < |WindowsOf(events)|
      ensures Covers(WindowsOf(events)[later], ChargesOf(events)[i].ts) <==>
                Open(WindowsOf(events)[later], ChargesOf(events)[i].ts)
    {
      OpenIs(WindowsOf(events)[later], ChargesOf(events)[i].ts);
    }
    LastCoveringIsUnique(WindowsOf(events), ChargesOf(events)[i].ts, Some(w));
    WindowsAreEntries(events, w);
    PlacedAtCall(events, i, WindowsOf(events)[w].call);
  }

  /** With no scope open either it goes to no call. */
  lemma NoScopeGetsTheBuffer(events: seq<Event>, i: nat)
    requires i < |ChargesOf(events)| && OutsideEvals(events, i)
    requires forall w :: 0 <= w < |WindowsOf(events)| ==> !Open(WindowsOf(events)[w], ChargesOf(events)[i].ts)
    ensures GoesNowhere(events, i)
  {
    hide ChargesOf, EvalsOf, WindowsOf, EnteredIds, GoesNowhere, EvalAt, Leaf, Covers, Open;
    NoEvalFound(events, i);
    forall w | 0 <= w < |WindowsOf(events)|
      ensures !Covers(WindowsOf(events)[w], ChargesOf(events)[i].ts)
    {
      OpenIs(WindowsOf(events)[w], ChargesOf(events)[i].ts);
    }
    LastCoveringIsUnique(WindowsOf(events), ChargesOf(events)[i].ts, None);
    PlacedNowhere(events, i);
  }

  lemma NoEvalFound(events: seq<Event>, i: nat)
    requires i < |ChargesOf(events)| && OutsideEvals(events, i)
    ensures EvalAt(EvalsOf(events), ChargesOf(events)[i].ts).None?
  {
    hide ChargesOf, EvalsOf;
  }

  // ----- evals counted -----

  predicate EndsIn(w: EvalWindow, id: u64)
  {
    w.moduleStack != [] && w.moduleStack[|w.moduleStack| - 1] == id
  }

  predicate EndsNowhere(w: EvalWindow, ids: set<u64>)
  {
    w.moduleStack == [] || w.moduleStack[|w.moduleStack| - 1] !in ids
  }

  /** The evals, among the first `n`, whose module stack ends in `id`. */
  function EndingIn(evals: seq<EvalWindow>, n: nat, id: u64): (r: set<nat>)
    requires n <= |evals|
  {
    set e: nat | e < n && EndsIn(evals[e], id)
  }

  /** The evals, among the first `n`, whose stack is empty or ends in a call of none of the `ids`. */
  function EndingNowhere(evals: seq<EvalWindow>, n: nat, ids: set<u64>): (r: set<nat>)
    requires n <= |evals|
  {
    set e: nat | e < n && EndsNowhere(evals[e], ids)
  }

  lemma {:induction false} LeavesCounted(evals: seq<EvalWindow>, ids: set<u64>, n: nat, id: u64)
    requires n <= |evals| && id in ids
    ensures LeafCount(evals, ids, n, AtCall(id)) == |EndingIn(evals, n, id)|
  {
    NoneEndsYet(evals, ids, id);
    if n > 0 {
      hide EndingIn;
      LeavesCounted(evals, ids, n - 1, id);
      OneMoreEndingIn(evals, n - 1, id);
    }
  }

  lemma NoneEndsYet(evals: seq<EvalWindow>, ids: set<u64>, id: u64)
    ensures EndingIn(evals, 0, id) == {} && EndingNowhere(evals, 0, ids) == {}
  {
  }

  lemma OneMoreEndingIn(evals: seq<EvalWindow>, n: nat, id: u64)
    requires n < |evals|
    ensures |EndingIn(evals, n + 1, id)| == |EndingIn(evals, n, id)| + if EndsIn(evals[n], id) then 1 else 0
  {
    hide EndsIn;
    if EndsIn(evals[n], id) {
      assert EndingIn(evals, n + 1, id) == EndingIn(evals, n, id) + {n};
    } else {
      assert EndingIn(evals, n + 1, id) == EndingIn(evals, n, id);
    }
  }

  lemma {:induction false} OthersCounted(evals: seq<EvalWindow>, ids: set<u64>, n: nat)
    requires n <= |evals|
    ensures LeafCount(evals, ids, n, Unscoped) == |EndingNowhere(evals, n, ids)|
  {
    NoneEndsYet(evals, ids, 0);
    if n > 0 {
      hide EndingNowhere;
      OthersCounted(evals, ids, n - 1);
      OneMoreEndingNowhere(evals, n - 1, ids);
    }
  }

  lemma OneMoreEndingNowhere(evals: seq<EvalWindow>, n: nat, ids: set<u64>)
    requires n < |evals|
    ensures |EndingNowhere(evals, n + 1, ids)| ==
            |EndingNowhere(evals, n, ids)| + if EndsNowhere(evals[n], ids) then 1 else 0
  {
    hide EndsNowhere;
    if EndsNowhere(evals[n], ids) {
      assert EndingNowhere(evals, n + 1, ids) == EndingNowhere(evals, n, ids) + {n};
    } else {
      assert EndingNowhere(evals, n + 1, ids) == EndingNowhere(evals, n, ids);
    }
  }

  /** Every call counts the evals it is the innermost call of. */
  lemma CallsCountTheirEvals(events: seq<Event>, id: u64)
    requires Entered(events, id)
    ensures id in ChargedCalls(events)
    ensures ChargedCalls(events)[id].evals == |EndingIn(EvalsOf(events), |EvalsOf(events)|, id)|
  {
    hide EnteredIds, EvalsOf, LeafCount, ChargesOf, SumWhere, ChargedCalls, EndingIn;
    EnteredIs(events, id);
    ChargedCallsHold(events, id);
    LeavesCounted(EvalsOf(events), EnteredIds(events, |events|), |EvalsOf(events)|, id);
  }

  // ----- the windows -----

  /** The window of the eval entered at `i` and returned at `r`; an asynchronous one gets half a second more. */
  function WindowOfEval(events: seq<Event>, i: nat, r: nat): (w: EvalWindow)
    requires i < |events| && events[i].payload.EvalEntered? && r < |events| && events[r].payload.EvalReturned?
  {
    var until := if events[r].payload.wasAsync then events[r].ts + 500_000_000 else events[r].ts;
    EvalWindow(events[i].ts, Min(until, U64_MAX), events[i].seqNo, events[i].payload.moduleStack)
  }

  /** The eval entered at `i` returns at `r`: nothing of its id in between. */
  ghost predicate ReturnsAt(events: seq<Event>, i: nat, r: nat)
  {
    && i < r < |events| && events[i].payload.EvalEntered? && events[r].payload.EvalReturned?
    && events[i].payload.call == events[r].payload.call
    && forall m :: i < m < r ==>
         !((events[m].payload.EvalEntered? || events[m].payload.EvalReturned?)
             && events[m].payload.call == events[r].payload.call)
  }

  lemma EvalEntryIs(events: seq<Event>, i: nat, r: nat)
    requires r < |events| && events[r].payload.EvalReturned?
    ensures OpenAt(events, r, EvalRole, events[r].payload.call) == Some(i) <==> ReturnsAt(events, i, r)
  {
    var id := events[r].payload.call;
    OpenAtIs(events, r, EvalRole, id, i);
    if i < r {
      assert EvalRole(events[i].payload) == Opens(id) <==>
            events[i].payload.EvalEntered? && events[i].payload.call == id;
    }
  }

  lemma {:induction false} EvalListHolds(events: seq<Event>, n: nat, i: nat, r: nat)
    requires r < n <= |events| && ReturnsAt(events, i, r)
    ensures WindowOfEval(events, i, r) in EvalList(events, n)
    decreases n
  {
    hide OpenAt, ReturnsAt;
    if r < n - 1 {
      EvalListHolds(events, n - 1, i, r);
    } else {
      EvalEntryAt(events, i, r);
    }
  }

  lemma EvalEntryAt(events: seq<Event>, i: nat, r: nat)
    requires ReturnsAt(events, i, r)
    ensures OpenAt(events, r, EvalRole, events[r].payload.call) == Some(i)
    ensures events[r].payload.EvalReturned? && events[i].payload.EvalEntered?
    ensures EvalOf(events[i], events[r]) == WindowOfEval(events, i, r)
  {
    hide OpenAt;
    EvalEntryIs(events, i, r);
  }

  lemma {:induction false} EvalListIs(events: seq<Event>, n: nat, w: EvalWindow) returns (i: nat, r: nat)
    requires n <= |events| && w in EvalList(events, n)
    ensures r < n && ReturnsAt(events, i, r) && w == WindowOfEval(events, i, r)
    decreases n
  {
    hide OpenAt, ReturnsAt;
    if w in EvalList(events, n - 1) {
      i, r := EvalListIs(events, n - 1, w);
    } else {
      r := n - 1;
      i := OpenAt(events, r, EvalRole, events[r].payload.call).value;
      EvalEntryIs(events, i, r);
      EvalEntryAt(events, i, r);
    }
  }

  /** The eval windows are those of the evals that return, and no others; they are sorted by their start. */
  lemma EvalWindowsAreTold(events: seq<Event>, w: EvalWindow)
    ensures w in EvalsOf(events) <==>
              exists i: nat, r: nat :: ReturnsAt(events, i, r) && w == WindowOfEval(events, i, r)
    ensures forall p, q :: 0 <= p < q < |EvalsOf(events)| ==> EvalsOf(events)[p].tIn <= EvalsOf(events)[q].tIn
  {
    hide EvalList, StableSort;
    var list := EvalList(events, |events|);
    StableSortSorts(list, EvalKey());
    assert w in EvalsOf(events) <==> w in multiset(EvalsOf(events));
    assert w in list <==> w in multiset(list);
    forall p, q | 0 <= p < q < |EvalsOf(events)|
      ensures EvalsOf(events)[p].tIn <= EvalsOf(events)[q].tIn
    {
      assert EvalKey()(EvalsOf(events)[p]) <= EvalKey()(EvalsOf(events)[q]);
    }
    if w in list {
      var i, r := EvalListIs(events, |events|, w);
    }
    if exists i: nat, r: nat :: ReturnsAt(events, i, r) && w == WindowOfEval(events, i, r) {
      var i: nat, r: nat :| ReturnsAt(events, i, r) && w == WindowOfEval(events, i, r);
      ReturnsInside(events, i, r);
      EvalListHolds(events, |events|, i, r);
    }
  }

  lemma ReturnsInside(events: seq<Event>, i: nat, r: nat)
    requires ReturnsAt(events, i, r)
    ensures r < |events|
  {
  }

  /** The call entered at `i` ends at the first return naming it, or with the session. */
  ghost predicate EndsAt(events: seq<Event>, i: nat, out: u64)
    requires i < |events| && Enters(events, i)
  {
    || (out == events[|events| - 1].ts
        && forall m :: i < m < |events| ==> events[m].payload != ModuleReturned(events[i].payload.call))
    || (exists j ::
          && i < j < |events| && events[j].payload == ModuleReturned(events[i].payload.call)
          && out == events[j].ts
          && forall m :: i < m < j ==> events[m].payload != ModuleReturned(events[i].payload.call))
  }

  lemma {:induction false} NoReturnNoEnd(events: seq<Event>, n: nat, i: nat, end: u64)
    requires n <= |events| && i < |events| && Enters(events, i)
    requires forall m :: i < m < n ==> events[m].payload != ModuleReturned(events[i].payload.call)
    ensures TimeOut(events, n, i, end) == end
  {
    if n > i + 1 {
      NoReturnNoEnd(events, n - 1, i, end);
    }
  }

  lemma {:induction false} FirstReturnFrom(events: seq<Event>, i: nat, from: nat) returns (j: nat)
    requires i < from && i < |events| && Enters(events, i)
    requires exists m :: from <= m < |events| && events[m].payload == ModuleReturned(events[i].payload.call)
    ensures from <= j < |events| && events[j].payload == ModuleReturned(events[i].payload.call)
    ensures forall m :: from <= m < j ==> events[m].payload != ModuleReturned(events[i].payload.call)
    decreases |events| - from
  {
    if events[from].payload == ModuleReturned(events[i].payload.call) {
      j := from;
    } else {
      j := FirstReturnFrom(events, i, from + 1);
    }
  }

  lemma EndIs(events: seq<Event>, i: nat, out: u64)
    requires DistinctCalls(events) && i < |events| && Enters(events, i) && EndsAt(events, i, out)
    ensures TimeOut(events, |events|, i, EndTs(events)) == out
  {
    hide TimeOut;
    if exists m :: i < m < |events| && events[m].payload == ModuleReturned(events[i].payload.call) {
      var j := FirstReturnFrom(events, i, i + 1);
      DistinctCallEndsAtFirstReturn(events, |events|, i, j, EndTs(events));
    } else {
      NoReturnNoEnd(events, |events|, i, EndTs(events));
    }
  }

  /** With distinct call ids every call has its window, from its entry to its end. */
  lemma ScopeWindowsAreTold(events: seq<Event>, i: nat, out: u64)
    requires DistinctCalls(events) && i < |events| && Enters(events, i) && EndsAt(events, i, out)
    ensures ScopeWindow(events[i].ts, out, events[i].payload.call, events[i].payload.qualname) in WindowsOf(events)
    ensures forall p, q :: 0 <= p < q < |WindowsOf(events)| ==> WindowsOf(events)[p].tIn <= WindowsOf(events)[q].tIn
    ensures |WindowsOf(events)| == |Entries(events, |events|)|
  {
    hide StableSort, EndsAt, TimeOut, DistinctCalls;
    var list, end := WindowList(events, |events|, EndTs(events)), EndTs(events);
    EndIs(events, i, out);
    EntryIsListed(events, |events|, i);
    var p :| 0 <= p < |Entries(events, |events|)| && Entries(events, |events|)[p] == i;
    assert list[p] in list;
    StableSortSorts(list, ScopeKey());
    assert list[p] in multiset(WindowsOf(events));
    forall p, q | 0 <= p < q < |WindowsOf(events)|
      ensures WindowsOf(events)[p].tIn <= WindowsOf(events)[q].tIn
    {
      assert ScopeKey()(WindowsOf(events)[p]) <= ScopeKey()(WindowsOf(events)[q]);
    }
  }

  lemma {:induction false} EntryIsListed(events: seq<Event>, n: nat, i: nat)
    requires i < n <= |events| && Enters(events, i)
    ensures i in Entries(events, n)
    decreases n
  {
    if i < n - 1 {
      EntryIsListed(events, n - 1, i);
    }
  }

  // ----- what a buffer counts -----

  /** A buffer counts as one, with the sum of its op times; without ops with nothing, or, in a session without any ops,
      with its time in flight. */
  lemma BufferCounts(events: seq<Event>, i: nat)
    requires i < |ChargesOf(events)|
    ensures i < |Completions(events, |events|)|
    ensures var k, c := Completions(events, |events|)[i], ChargesOf(events)[i];
            var own := OpsOf(events, |events|, k);
            && CommitOf(events, k).Some? && c.ts == events[CommitOf(events, k).value].ts && c.tally.cbs == 1
            && (own.Some? ==> c.tally.gpuNs == SumGpu(events[own.value].payload.ops))
            && (own.None? && (exists j :: 0 <= j < |events| && events[j].payload.CbOps?) ==> c.tally.gpuNs == 0)
            && (own.None? && (forall j :: 0 <= j < |events| ==> !events[j].payload.CbOps?) ==>
                  c.tally.gpuNs == events[k].payload.inFlightNs)
  {
    hide CommitOf, OpsOf, Completions;
    var k := Completions(events, |events|)[i];
    var own := OpsOf(events, |events|, k);
    if own.Some? {
      NoFactorAtAll(events[own.value].payload.ops);
    }
  }

  lemma NoFactorAtAll(ops: seq<OpSample>)
    ensures ScaleGpuOnly(None, ops) == ops
  {
  }

  // ----- the diagnostics -----

  function Indices<T>(s: seq<T>, n: nat, p: T -> bool): (r: set<nat>)
    requires n <= |s|
  {
    set i: nat | i < n && p(s[i])
  }

  lemma OneMoreIndex<T>(s: seq<T>, n: nat, p: T -> bool)
    requires n < |s|
    ensures Indices(s, n + 1, p) == if p(s[n]) then Indices(s, n, p) + {n} else Indices(s, n, p)
    ensures |Indices(s, n + 1, p)| == |Indices(s, n, p)| + if p(s[n]) then 1 else 0
  {
  }

  lemma {:induction false} UnsampledUpTo(completed: seq<CompletedCb>, n: nat, anyOps: bool)
    requires n <= |completed|
    ensures Unsampled(completed[..n], anyOps) ==
            if anyOps then |Indices(completed, n, (cb: CompletedCb) => cb.ops.None?)| else 0
  {
    hide Indices;
    if n == 0 {
      NoIndices(completed, (cb: CompletedCb) => cb.ops.None?);
    } else {
      UnsampledUpTo(completed, n - 1, anyOps);
      OneMoreIndex(completed, n - 1, (cb: CompletedCb) => cb.ops.None?);
      assert completed[..n][..n - 1] == completed[..n - 1];
    }
  }

  lemma NoIndices<T>(s: seq<T>, p: T -> bool)
    ensures |Indices(s, 0, p)| == 0
  {
    assert Indices(s, 0, p) == {};
  }

  /** Buffers without ops are counted in sessions that have some, and never otherwise. */
  lemma UnsampledCounted(completed: seq<CompletedCb>, anyOps: bool)
    ensures Unsampled(completed, anyOps) ==
            if anyOps then |set i: nat | i < |completed| && completed[i].ops.None?| else 0
  {
    UnsampledUpTo(completed, |completed|, anyOps);
    assert completed[..|completed|] == completed;
    assert Indices(completed, |completed|, (cb: CompletedCb) => cb.ops.None?)
        == set i: nat | i < |completed| && completed[i].ops.None?;
  }

  lemma {:induction false} BuffersUpTo(cs: seq<Charge>, n: nat, p: u64 -> bool)
    requires n <= |cs| && forall i :: 0 <= i < |cs| ==> cs[i].tally.cbs == 1
    ensures SumWhere(cs[..n], p).cbs == |Indices(cs, n, (c: Charge) => p(c.ts))|
  {
    hide Indices, SumWhere, Plus;
    if n == 0 {
      NoIndices(cs, (c: Charge) => p(c.ts));
      assert cs[..0] == [];
      NothingSummed(p);
    } else {
      BuffersUpTo(cs, n - 1, p);
      OneMoreIndex(cs, n - 1, (c: Charge) => p(c.ts));
      assert cs[..n] == cs[..n - 1] + [cs[n - 1]];
      SumWhereMore(cs[..n - 1], cs[n - 1], p);
      PlusCounts(SumWhere(cs[..n - 1], p), Share(cs[n - 1], p));
    }
  }

  lemma PlusCounts(a: Tally, b: Tally)
    ensures Plus(a, b).cbs == a.cbs + b.cbs
  {
  }

  /** Committed outside every eval, with no scope open. */
  ghost predicate Unmatched(events: seq<Event>, i: nat)
    requires i < |ChargesOf(events)|
  {
    && OutsideEvals(events, i)
    && forall w :: 0 <= w < |WindowsOf(events)| ==> !Open(WindowsOf(events)[w], ChargesOf(events)[i].ts)
  }

  ghost function UnmatchedBuffers(events: seq<Event>): (r: set<nat>)
  {
    set i: nat | i < |ChargesOf(events)| && Unmatched(events, i)
  }

  /** Exactly these are counted as unmatched. */
  lemma UnmatchedCounted(events: seq<Event>)
    ensures SumWhere(ChargesOf(events), FallsTo(EvalsOf(events), WindowsOf(events), Unscoped)).cbs
            == |UnmatchedBuffers(events)|
  {
    hide EvalsOf, WindowsOf, SumWhere, Unmatched, FallsTo;
    var cs, p := ChargesOf(events), FallsTo(EvalsOf(events), WindowsOf(events), Unscoped);
    BuffersUpTo(cs, |cs|, p);
    assert cs[..|cs|] == cs;
    forall i: nat | i < |cs|
      ensures p(cs[i].ts) <==> Unmatched(events, i)
    {
      FallsOutside(events, i);
    }
    assert Indices(cs, |cs|, (c: Charge) => p(c.ts)) == UnmatchedBuffers(events);
  }

  lemma FallsOutside(events: seq<Event>, i: nat)
    requires i < |ChargesOf(events)|
    ensures FallsTo(EvalsOf(events), WindowsOf(events), Unscoped)(ChargesOf(events)[i].ts) <==> Unmatched(events, i)
  {
    hide EvalsOf, WindowsOf, ChargesOf, Open, Covers;
    var ws, ts := WindowsOf(events), ChargesOf(events)[i].ts;
    forall w | 0 <= w < |ws|
      ensures Covers(ws[w], ts) <==> Open(ws[w], ts)
    {
      OpenIs(ws[w], ts);
    }
  }

  // ----- two levels -----

  /** An eval inside two nested calls, and one buffer of 7 ns inside the eval. */
  function TwoLevels(): (r: seq<Event>)
  {
    [ Event(0, 0, PythonSidecar, ModuleEntered(1, "outer", None)),
      Event(1, 1, PythonSidecar, ModuleEntered(2, "inner", Some(1))),
      Event(2, 2, PythonSidecar, EvalEntered(9, [1, 2])),
      Event(3, 3, MetalHook, CbCommitted(5, 0)),
      Event(4, 4, MetalHook, CbCompleted(5, 0, 7)),
      Event(6, 5, PythonSidecar, EvalReturned(9, false)) ]
  }

  lemma OneChargeThere()
    ensures ChargesOf(TwoLevels()) == [Charge(3, Tally(7, 1, map[]))]
  {
    var e := TwoLevels();
    assert Completions(e, 6) == [4];
    assert CommitOf(e, 4) == Some(3);
    assert OpsOf(e, 6, 4).None?;
    assert PairSpec(e, 6, map[]) == [CompletedCb(3, 7, None)];
    assert !AnyOps(e);
  }

  lemma OneEvalThere()
    ensures EvalsOf(TwoLevels()) == [EvalWindow(2, 6, 2, [1, 2])]
  {
    var e, w := TwoLevels(), EvalWindow(2, 6, 2, [1, 2]);
    assert EvalList(e, 5) == [];
    assert EvalList(e, 6) == [w];
    assert [w][..0] == [];
    assert StableSort([w][..0], EvalKey()) == [];
  }

  /** The inner call holds the 7 ns, the buffer and the eval; the outer one holds nothing of its own. */
  lemma InnerCallHoldsIt()
    ensures var calls := ChargedCalls(TwoLevels());
            && 1 in calls && 2 in calls
            && calls[2].own == Tally(7, 1, map[]) && calls[2].evals == 1
            && calls[1].own == Tally(0, 0, map[]) && calls[1].evals == 0
  {
    hide ChargedCalls, ChargesOf, EvalsOf, GoesTo, Plus, SumWhere, EndingIn;
    var e := TwoLevels();
    OneChargeThere();
    OneEvalThere();
    assert Entered(e, 2) by {
      assert Enters(e, 1);
    }
    assert Entered(e, 1) by {
      assert Enters(e, 0);
    }
    InnermostCallGetsTheBuffer(e, 0, 0, [1], 2);
    CallsCountTheirEvals(e, 1);
    CallsCountTheirEvals(e, 2);
    OneEvalEnds();
    NothingElse(e);
  }

  lemma OneEvalEnds()
    ensures var ws := [EvalWindow(2, 6, 2, [1, 2])];
            |EndingIn(ws, 1, 2)| == 1 && |EndingIn(ws, 1, 1)| == 0
  {
    var ws := [EvalWindow(2, 6, 2, [1, 2])];
    assert EndingIn(ws, 1, 2) == {0} && EndingIn(ws, 1, 1) == {};
  }

  lemma NothingElse(e: seq<Event>)
    requires ChargesOf(e) == [Charge(3, Tally(7, 1, map[]))] && GoesTo(e, 0, 2) && 1 in ChargedCalls(e)
    ensures ChargedCalls(e)[2].own == Tally(7, 1, map[]) && ChargedCalls(e)[1].own == Tally(0, 0, map[])
  {
    hide ChargedCalls, ChargesOf, ChargedAt, SumWhere, Plus;
    assert Without(ChargesOf(e), 0) == [];
    NothingSummed(ChargedAt(e, AtCall(1)));
    NothingSummed(ChargedAt(e, AtCall(2)));
    PlusNothing(Tally(7, 1, map[]));
  }

  lemma NothingSummed(p: u64 -> bool)
    ensures SumWhere([], p) == NOTHING
  {
  }

  /** The whole tree of that session. */
  lemma TreeOfTwoLevels()
    ensures TreeOf(TwoLevels(), [1]) ==
            ModuleBreakdown("<root>", 0, 0, 7, 0, 0,
              [ModuleBreakdown("outer", 1, 0, 7, 0, 0,
                [ModuleBreakdown("inner", 1, 7, 7, 1, 1, [], map[])], map[])], map[])
  {
    hide ChargedCalls, ChargesOf, EvalsOf, WindowsOf, Plus, SumWhere, ChargedAt, BuildAll, TreeOver, LeafCount,
         LatestEnter;
    var e := TwoLevels();
    ChargedCallsIndexed(e);
    RootsRank(e, [1]);
    InnerBuilt(e);
    OuterBuilt(e);
    NothingUnscoped();
    var outer := ModuleBreakdown("outer", 1, 0, 7, 0, 0, [ModuleBreakdown("inner", 1, 7, 7, 1, 1, [], map[])], map[]);
    BuildAllOne(ChargedCalls(e), e, 1, -1, outer);
    OneRoot(outer);
  }

  lemma OneRoot(b: ModuleBreakdown<OpTable>)
    ensures TreeOver([b], NOTHING, 0, 0) == ModuleBreakdown("<root>", 0, 0, b.gpuSubtree, 0, 0, [b], map[])
  {
    assert [b][..0] == [] && [b] + [] == [b];
    assert StableSort([b][..0], HeaviestFirst<OpTable>()) == [];
    assert SumBy([b][..0], SubtreeOf<OpTable>()) == 0;
  }

  lemma BuildAllOne(calls: map<u64, CallNode>, e: seq<Event>, id: u64, above: int, b: ModuleBreakdown<OpTable>)
    requires Indexed(calls, e) && -1 <= above < |e| && above < Rank(e, id) && Build(calls, e, id) == Some(b)
    ensures BuildAll(calls, e, [id], above) == [b]
  {
    hide Build, Rank, Indexed;
    assert [id][..0] == [];
    assert BuildAll(calls, e, [id][..0], above) == [];
  }

  /** The two calls with what is charged to them. */
  lemma TwoNodes(e: seq<Event>)
    requires e == TwoLevels()
    ensures 1 in ChargedCalls(e) && ChargedCalls(e)[1] == CallNode("outer", None, [2], NOTHING, 0)
    ensures 2 in ChargedCalls(e) && ChargedCalls(e)[2] == CallNode("inner", Some(1), [], Tally(7, 1, map[]), 1)
    ensures Rank(e, 1) == 0 && Rank(e, 2) == 1
  {
    hide ChargedCalls, ChargesOf, EvalsOf, WindowsOf, Plus, SumWhere, ChargedAt, LeafCount, LatestEnter, ChildIds;
    InnerCallHoldsIt();
    ChargedCallsHold(e, 1);
    ChargedCallsHold(e, 2);
    TwoRanks(e);
  }

  lemma InnerBuilt(e: seq<Event>)
    requires e == TwoLevels()
    ensures Indexed(ChargedCalls(e), e)
    ensures Build(ChargedCalls(e), e, 2) == Some(ModuleBreakdown("inner", 1, 7, 7, 1, 1, [], map[]))
  {
    hide ChargedCalls, BuildAll, Rank, Indexed;
    ChargedCallsIndexed(e);
    TwoNodes(e);
    NothingBuilt(ChargedCalls(e), e, Rank(e, 2));
  }

  lemma NothingBuilt(calls: map<u64, CallNode>, e: seq<Event>, above: int)
    requires Indexed(calls, e) && -1 <= above < |e|
    ensures BuildAll(calls, e, [], above) == []
    ensures SumBy([], SubtreeOf<OpTable>()) == 0 && StableSort([], HeaviestFirst<OpTable>()) == []
  {
  }

  lemma OuterBuilt(e: seq<Event>)
    requires e == TwoLevels()
    ensures Indexed(ChargedCalls(e), e)
    ensures Build(ChargedCalls(e), e, 1) ==
            Some(ModuleBreakdown("outer", 1, 0, 7, 0, 0, [ModuleBreakdown("inner", 1, 7, 7, 1, 1, [], map[])], map[]))
  {
    hide ChargedCalls, BuildAll, Rank, Indexed;
    var inner := ModuleBreakdown("inner", 1, 7, 7, 1, 1, [], map[]);
    ChargedCallsIndexed(e);
    InnerBuilt(e);
    TwoNodes(e);
    BuildAllOne(ChargedCalls(e), e, 2, 0, inner);
    OneSorted(inner);
  }

  lemma OneSorted(b: ModuleBreakdown<OpTable>)
    ensures SumBy([b], SubtreeOf<OpTable>()) == b.gpuSubtree && StableSort([b], HeaviestFirst<OpTable>()) == [b]
  {
    assert [b][..0] == [];
    assert StableSort([b][..0], HeaviestFirst<OpTable>()) == [];
    assert SumBy([b][..0], SubtreeOf<OpTable>()) == 0;
  }

  lemma TwoRanks(e: seq<Event>)
    requires e == TwoLevels()
    ensures LatestEnter(e, 6, 1) == Some(0) && LatestEnter(e, 6, 2) == Some(1)
    ensures ChildIds(e, 1, 6, 1) == [2] && ChildIds(e, 2, 6, 2) == []
  {
    assert ChildIds(e, 1, 1, 1) == [];
    assert ChildIds(e, 1, 2, 1) == [2];
    assert ChildIds(e, 1, 3, 1) == [2];
  }

  lemma NothingUnscoped()
    ensures var e := TwoLevels();
            && SumWhere(ChargesOf(e), ChargedAt(e, Unscoped)) == NOTHING
            && LeafCount(EvalsOf(e), EnteredIds(e, |e|), |EvalsOf(e)|, Unscoped) == 0
            && SumWhere(ChargesOf(e), FallsTo(EvalsOf(e), WindowsOf(e), Unscoped)) == NOTHING
  {
    hide ChargesOf, EvalsOf, WindowsOf, ChargedCalls, Plus, SumWhere, EnteredIds, EndingNowhere, ScopePlace;
    var e := TwoLevels();
    OneChargeThere();
    OneEvalThere();
    assert Entered(e, 2) by {
      assert Enters(e, 1);
    }
    EnteredIs(e, 2);
    InnermostCallGetsTheBuffer(e, 0, 0, [1], 2);
    assert Without(ChargesOf(e), 0) == [];
    NothingSummed(ChargedAt(e, Unscoped));
    OthersCounted(EvalsOf(e), EnteredIds(e, |e|), 1);
    NoneEndsNowhere(EnteredIds(e, |e|));
    SumWhereNever(ChargesOf(e), FallsTo(EvalsOf(e), WindowsOf(e), Unscoped));
  }

  lemma NoneEndsNowhere(ids: set<u64>)
    requires 2 in ids
    ensures |EndingNowhere([EvalWindow(2, 6, 2, [1, 2])], 1, ids)| == 0
  {
    assert EndingNowhere([EvalWindow(2, 6, 2, [1, 2])], 1, ids) == {};
  }
}
