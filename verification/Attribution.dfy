/** Where each completed command buffer's GPU time goes: to the leaf of the eval that was open when it
    committed, else to the innermost scope, else nowhere. */
module Attribution {
  import opened Bytes
  import opened Events
  import opened Windows
  import opened Sorting
  import opened OpClamp
  import opened Pairing
  import opened Tallies
  import opened CallTree

  datatype Place = AtCall(id: u64) | Unscoped

  // ----- the definition, one buffer at a time -----

  /** The innermost call of the eval's module stack, if that call ever entered. */
  function Leaf(stack: seq<u64>, ids: set<u64>): (r: Place)
  {
    if stack != [] && stack[|stack| - 1] in ids then AtCall(stack[|stack| - 1]) else Unscoped
  }

  function ScopePlace(windows: seq<ScopeWindow>, ts: u64): (r: Place)
  {
    match LastCovering(windows, ts) case Some(w) => AtCall(windows[w].call) case None => Unscoped
  }

  function PlaceOf(evals: seq<EvalWindow>, windows: seq<ScopeWindow>, ids: set<u64>, ts: u64): (r: Place)
  {
    match EvalAt(evals, ts)
    case Some(i) => Leaf(evals[i].moduleStack, ids)
    case None => ScopePlace(windows, ts)
  }

  function ChargedTo(evals: seq<EvalWindow>, windows: seq<ScopeWindow>, ids: set<u64>, p: Place): (r: u64 -> bool)
  {
    (ts: u64) => PlaceOf(evals, windows, ids, ts) == p
  }

  /** A buffer counts for its op times. Without ops it counts for nothing, unless no buffer of the
      session has any: then for its time in flight. */
  function TimeOfBuffer(cb: CompletedCb, anyOps: bool): (r: nat)
  {
    match cb.ops
    case Some(ops) => SumGpu(ops)
    case None => if anyOps then 0 else cb.inFlightNs
  }

  function ChargeOf(cb: CompletedCb, anyOps: bool): (r: Charge)
  {
    Charge(cb.commitTs, Tally(TimeOfBuffer(cb, anyOps), 1, match cb.ops case Some(ops) => TableOf(ops) case None =>
        map[]))
  }

  function Charges(completed: seq<CompletedCb>, anyOps: bool): (r: seq<Charge>)
    ensures |r| == |completed|
    ensures forall i :: 0 <= i < |r| ==> r[i] == ChargeOf(completed[i], anyOps)
  {
    seq(|completed|, i requires 0 <= i < |completed| => ChargeOf(completed[i], anyOps))
  }

  // ----- the conditions the passes sum over -----

  function InEval(evals: seq<EvalWindow>, i: nat): (r: u64 -> bool) { (ts: u64) => EvalAt(evals, ts) == Some(i) }

  function NoEval(evals: seq<EvalWindow>): (r: u64 -> bool) { (ts: u64) => EvalAt(evals, ts).None? }

  function LeafIs(evals: seq<EvalWindow>, ids: set<u64>, n: nat, p: Place): (r: u64 -> bool)
    requires n <= |evals|
  {
    (ts: u64) => match EvalAt(evals, ts) case Some(i) => i < n
        && Leaf(evals[i].moduleStack, ids) == p case None => false
  }

  function ScopeIs(windows: seq<ScopeWindow>, p: Place): (r: u64 -> bool) { (ts: u64) => ScopePlace(windows, ts) == p }

  function FallsTo(evals: seq<EvalWindow>, windows: seq<ScopeWindow>, p: Place): (r: u64 -> bool)
  {
    (ts: u64) => EvalAt(evals, ts).None? && ScopePlace(windows, ts) == p
  }

  // ----- pass 1: buffers into eval windows -----

  ghost predicate EvalTallies(perEval: seq<Tally>, evals: seq<EvalWindow>, cs: seq<Charge>)
  {
    && |perEval| == |evals|
    && forall i :: 0 <= i < |perEval| ==> perEval[i] == SumWhere(cs, InEval(evals, i))
  }

  lemma EvalTalliesStart(evals: seq<EvalWindow>)
    ensures EvalTallies(seq(|evals|, i requires 0 <= i < |evals| => NOTHING), evals, [])
  {
  }

  lemma EvalTalliesStep(perEval: seq<Tally>, evals: seq<EvalWindow>, cs: seq<Charge>, c: Charge)
    requires EvalTallies(perEval, evals, cs)
    ensures EvalTallies(
              match EvalAt(evals, c.ts) case Some(i) => perEval[i := Plus(perEval[i], c.tally)] case None => perEval,
              evals, cs + [c])
  {
    hide Plus, SumWhere, EvalAt;
    forall i | 0 <= i < |evals|
      ensures SumWhere(cs + [c], InEval(evals, i)) ==
              if EvalAt(evals, c.ts) == Some(i) then Plus(perEval[i], c.tally) else perEval[i]
    {
      SumWhereMore(cs, c, InEval(evals, i));
      PlusNothing(perEval[i]);
    }
  }

  lemma KeepMore(cs: seq<Charge>, c: Charge, p: u64 -> bool)
    ensures Keep(cs + [c], p) == Keep(cs, p) + if p(c.ts) then [c] else []
  {
    assert (cs + [c])[..|cs|] == cs;
  }

  method ChargeBuffer(t: Tally, cb: CompletedCb, anyOps: bool) returns (r: Tally)
    ensures r == Plus(t, ChargeOf(cb, anyOps).tally)
  {
    var ops := t.ops;
    MergeEmpty(t.ops);
    if cb.ops.Some? {
      ops := AddOps(ops, cb.ops.value);
    }
    r := Tally(t.gpuNs + TimeOfBuffer(cb, anyOps), t.cbs + 1, ops);
  }

  /** Buffers without an op sample, in a session that has some. */
  function Unsampled(completed: seq<CompletedCb>, anyOps: bool): (r: nat)
  {
    if completed == [] then 0
    else
      Unsampled(completed[..|completed| - 1], anyOps)
      + if anyOps && completed[|completed| - 1].ops.None? then 1 else 0
  }

  method ChargeEvals(completed: seq<CompletedCb>, anyOps: bool, evals: seq<EvalWindow>)
    returns (perEval: seq<Tally>, outside: seq<Charge>, unsampled: nat)
    ensures EvalTallies(perEval, evals, Charges(completed, anyOps))
    ensures outside == Keep(Charges(completed, anyOps), NoEval(evals))
    ensures unsampled == Unsampled(completed, anyOps)
  {
    hide EvalTallies, EvalAt, Plus, Keep, SumWhere;
    ghost var cs := Charges(completed, anyOps);
    perEval := seq(|evals|, i requires 0 <= i < |evals| => NOTHING);
    outside, unsampled := [], 0;
    EvalTalliesStart(evals);
    KeepNone(NoEval(evals));
    for k := 0 to |completed|
      invariant |perEval| == |evals| && EvalTallies(perEval, evals, cs[..k])
      invariant outside == Keep(cs[..k], NoEval(evals))
      invariant unsampled == Unsampled(completed[..k], anyOps)
    {
      var cb := completed[k];
      assert cs[..k + 1] == cs[..k] + [cs[k]] && completed[..k + 1][..k] == completed[..k];
      EvalTalliesStep(perEval, evals, cs[..k], cs[k]);
      KeepMore(cs[..k], cs[k], NoEval(evals));
      var idx := EvalAt(evals, cb.commitTs);
      if anyOps && cb.ops.None? {
        unsampled := unsampled + 1;
      }
      match idx {
        case Some(i) =>
          var t := ChargeBuffer(perEval[i], cb, anyOps);
          perEval := perEval[i := t];
        case None =>
          outside := outside + [ChargeOf(cb, anyOps)];
      }
    }
    assert cs[..|completed|] == cs && completed[..|completed|] == completed;
  }

  lemma KeepNone(p: u64 -> bool)
    ensures Keep([], p) == []
  {
  }

  // ----- pass 2: the rest into scopes, by a sweep in commit order -----

  /** Per-call sums so far; a call not in the map has none. */
  ghost predicate FallbackTracks(fallback: map<u64, Tally>, windows: seq<ScopeWindow>, cs: seq<Charge>)
  {
    forall id: u64 :: SumWhere(cs, ScopeIs(windows, AtCall(id))) == if id in fallback then fallback[id] else NOTHING
  }

  lemma FallbackStep(fallback: map<u64, Tally>, windows: seq<ScopeWindow>, cs: seq<Charge>, c: Charge)
    requires FallbackTracks(fallback, windows, cs)
    ensures FallbackTracks(
              match ScopePlace(windows, c.ts)
              case AtCall(id) => fallback[id := Plus(if id in fallback then fallback[id] else NOTHING, c.tally)]
              case Unscoped => fallback,
              windows, cs + [c])
  {
    hide Plus, SumWhere, ScopePlace;
    forall id: u64
      ensures SumWhere(cs + [c], ScopeIs(windows, AtCall(id))) ==
              var before := if id in fallback then fallback[id] else NOTHING;
              if ScopePlace(windows, c.ts) == AtCall(id) then Plus(before, c.tally) else before
    {
      SumWhereMore(cs, c, ScopeIs(windows, AtCall(id)));
      PlusNothing(SumWhere(cs, ScopeIs(windows, AtCall(id))));
    }
  }

  method AddTally(t: Tally, u: Tally) returns (r: Tally)
    ensures r == Plus(t, u)
  {
    var ops := MergeInto(t.ops, u.ops);
    r := Tally(t.gpuNs + u.gpuNs, t.cbs + u.cbs, ops);
  }

  ghost predicate NamesWindows(fallback: map<u64, Tally>, windows: seq<ScopeWindow>)
  {
    forall id :: id in fallback ==> exists w :: 0 <= w < |windows| && windows[w].call == id
  }

  method ChargeScope(c: Charge, innermost: Option<nat>, windows: seq<ScopeWindow>, before: map<u64, Tally>,
      rest: Tally, ghost cs: seq<Charge>)
    returns (fallback: map<u64, Tally>, unscoped: Tally)
    requires innermost == LastCovering(windows, c.ts)
    requires FallbackTracks(before, windows, cs) && NamesWindows(before, windows)
    requires rest == SumWhere(cs, ScopeIs(windows, Unscoped))
    ensures FallbackTracks(fallback, windows, cs + [c]) && NamesWindows(fallback, windows)
    ensures unscoped == SumWhere(cs + [c], ScopeIs(windows, Unscoped))
    ensures unscoped.cbs == rest.cbs + if innermost.None? then c.tally.cbs else 0
  {
    hide FallbackTracks, SumWhere, LastCovering;
    FallbackStep(before, windows, cs, c);
    SumWhereMore(cs, c, ScopeIs(windows, Unscoped));
    PlusNothing(rest);
    fallback, unscoped := before, rest;
    match innermost {
      case Some(w) =>
        var id := windows[w].call;
        var slot := AddTally(if id in fallback then fallback[id] else NOTHING, c.tally);
        fallback := fallback[id := slot];
      case None =>
        unscoped := AddTally(unscoped, c.tally);
    }
  }

  lemma SortedCharges(cs: seq<Charge>, s: seq<Charge>)
    requires s == StableSort(cs, ChargeKey())
    ensures forall i :: 0 < i < |s| ==> s[i - 1].ts <= s[i].ts
    ensures forall i :: 0 <= i < |s| ==> s[i] in cs
  {
    hide StableSort;
    StableSortSorts(cs, ChargeKey());
    forall i | 0 < i < |s|
      ensures s[i - 1].ts <= s[i].ts
    {
      assert ChargeKey()(s[i - 1]) <= ChargeKey()(s[i]);
    }
    forall i | 0 <= i < |s|
      ensures s[i] in cs
    {
      assert s[i] in multiset(s);
    }
  }

  method ChargeScopes(outside: seq<Charge>, windows: seq<ScopeWindow>)
    returns (fallback: map<u64, Tally>, unscoped: Tally, attributed: nat)
    requires SortedBy(windows, ScopeKey())
    requires forall c :: c in outside ==> c.tally.cbs == 1
    ensures FallbackTracks(fallback, windows, outside) && NamesWindows(fallback, windows)
    ensures unscoped == SumWhere(outside, ScopeIs(windows, Unscoped))
    ensures attributed + unscoped.cbs == |outside|
  {
    hide FallbackTracks, NamesWindows, SumWhere, LastCovering, StableSort, SortedBy;
    var sorted := StableSort(outside, ChargeKey());
    SortedCharges(outside, sorted);
    var sweep := new ScopeSweep(windows);
    fallback, unscoped, attributed := map[], NOTHING, 0;
    NothingYet(windows);
    for i := 0 to |sorted|
      invariant fresh(sweep) && sweep.Valid() && sweep.windows == windows
      invariant i < |sorted| ==> sweep.last <= sorted[i].ts
      invariant FallbackTracks(fallback, windows, sorted[..i]) && NamesWindows(fallback, windows)
      invariant unscoped == SumWhere(sorted[..i], ScopeIs(windows, Unscoped))
      invariant attributed + unscoped.cbs == i
    {
      assert sorted[i] in outside;
      var innermost := sweep.InnermostAt(sorted[i].ts);
      assert sorted[..i + 1] == sorted[..i] + [sorted[i]];
      fallback, unscoped := ChargeScope(sorted[i], innermost, windows, fallback, unscoped, sorted[..i]);
      if innermost.Some? {
        attributed := attributed + 1;
      }
    }
    assert sorted[..|sorted|] == sorted;
    Unsort(fallback, windows, outside);
    SumWhereSorted(outside, ScopeIs(windows, Unscoped));
  }

  lemma NothingYet(windows: seq<ScopeWindow>)
    ensures SumWhere([], ScopeIs(windows, Unscoped)) == NOTHING
    ensures FallbackTracks(map[], windows, []) && NamesWindows(map[], windows)
  {
  }

  lemma Unsort(fallback: map<u64, Tally>, windows: seq<ScopeWindow>, cs: seq<Charge>)
    requires FallbackTracks(fallback, windows, StableSort(cs, ChargeKey()))
    ensures FallbackTracks(fallback, windows, cs)
  {
    hide StableSort, SumWhere, ScopePlace;
    forall id: u64
      ensures SumWhere(cs, ScopeIs(windows, AtCall(id)))
              == SumWhere(StableSort(cs, ChargeKey()), ScopeIs(windows, AtCall(id)))
    {
      SumWhereSorted(cs, ScopeIs(windows, AtCall(id)));
    }
  }

  // ----- pass 3: eval sums to the leaves of their module stacks -----

  function LeafSum(evals: seq<EvalWindow>, perEval: seq<Tally>, ids: set<u64>, n: nat, p: Place): (r: Tally)
    requires n <= |evals| && |perEval| == |evals|
  {
    if n == 0 then NOTHING
    else
      Plus(LeafSum(evals, perEval, ids, n - 1, p),
           if Leaf(evals[n - 1].moduleStack, ids) == p then perEval[n - 1] else NOTHING)
  }

  function LeafCount(evals: seq<EvalWindow>, ids: set<u64>, n: nat, p: Place): (r: nat)
    requires n <= |evals|
  {
    if n == 0 then 0 else LeafCount(evals, ids, n - 1, p) + if Leaf(evals[n - 1].moduleStack, ids) == p then 1 else 0
  }

  /** Summing eval by eval is summing over the buffers whose eval has that leaf. */
  lemma {:induction false} LeafSumIsSumWhere(evals: seq<EvalWindow>, perEval: seq<Tally>, ids: set<u64>,
      cs: seq<Charge>, n: nat, p: Place)
    requires n <= |evals| && EvalTallies(perEval, evals, cs)
    ensures LeafSum(evals, perEval, ids, n, p) == SumWhere(cs, LeafIs(evals, ids, n, p))
  {
    hide Plus, SumWhere, EvalAt;
    if n == 0 {
      SumWhereNever(cs, LeafIs(evals, ids, 0, p));
    } else {
      LeafSumIsSumWhere(evals, perEval, ids, cs, n - 1, p);
      if Leaf(evals[n - 1].moduleStack, ids) == p {
        SumWhereEither(cs, LeafIs(evals, ids, n - 1, p), InEval(evals, n - 1), LeafIs(evals, ids, n, p));
      } else {
        SumWhereSame(cs, LeafIs(evals, ids, n - 1, p), LeafIs(evals, ids, n, p));
        PlusNothing(LeafSum(evals, perEval, ids, n - 1, p));
      }
    }
  }

  /** A node with more charged to it. */
  function Charged(node: CallNode, t: Tally, evals: nat): (r: CallNode)
  {
    node.(own := Plus(node.own, t), evals := node.evals + evals)
  }

  ghost predicate LeavesCharged(calls: map<u64, CallNode>, before: map<u64, CallNode>, evals: seq<EvalWindow>,
      perEval: seq<Tally>, n: nat)
    requires n <= |evals| && |perEval| == |evals|
  {
    && calls.Keys == before.Keys
    && forall id :: id in calls ==>
         calls[id] == Charged(before[id], LeafSum(evals, perEval, calls.Keys, n, AtCall(id)),
             LeafCount(evals, calls.Keys, n, AtCall(id)))
  }

  lemma LeavesStart(before: map<u64, CallNode>, evals: seq<EvalWindow>, perEval: seq<Tally>)
    requires |perEval| == |evals|
    ensures LeavesCharged(before, before, evals, perEval, 0)
  {
    hide Plus;
    forall id | id in before
      ensures Charged(before[id], NOTHING, 0) == before[id]
    {
      PlusNothing(before[id].own);
    }
  }

  lemma LeavesStep(calls: map<u64, CallNode>, before: map<u64, CallNode>, evals: seq<EvalWindow>, perEval: seq<Tally>,
      n: nat)
    requires n < |evals| && |perEval| == |evals| && LeavesCharged(calls, before, evals, perEval, n)
    ensures LeavesCharged(
              match Leaf(evals[n].moduleStack, calls.Keys)
              case AtCall(id) => calls[id := Charged(calls[id], perEval[n], 1)]
              case Unscoped => calls,
              before, evals, perEval, n + 1)
  {
    hide Plus, Leaf;
    var keys := calls.Keys;
    LeafIsKnown(evals[n].moduleStack, keys);
    forall id | id in calls
      ensures Charged(before[id], LeafSum(evals, perEval, keys, n + 1, AtCall(id)),
              LeafCount(evals, keys, n + 1, AtCall(id))) ==
              if Leaf(evals[n].moduleStack, keys) == AtCall(id) then Charged(calls[id], perEval[n], 1) else calls[id]
    {
      var sum := LeafSum(evals, perEval, keys, n, AtCall(id));
      PlusAssociates(before[id].own, sum, perEval[n]);
      PlusNothing(sum);
    }
    match Leaf(evals[n].moduleStack, keys) {
      case AtCall(id) => assert calls[id := Charged(calls[id], perEval[n], 1)].Keys == keys;
      case Unscoped =>
    }
  }

  lemma LeafIsKnown(stack: seq<u64>, ids: set<u64>)
    ensures Leaf(stack, ids).AtCall? ==> Leaf(stack, ids).id in ids
  {
  }

  method ChargeLeaves(before: map<u64, CallNode>, evals: seq<EvalWindow>, perEval: seq<Tally>, rest: Tally)
    returns (calls: map<u64, CallNode>, unscoped: Tally, unscopedEvals: nat)
    requires |perEval| == |evals|
    ensures LeavesCharged(calls, before, evals, perEval, |evals|)
    ensures unscoped == Plus(rest, LeafSum(evals, perEval, calls.Keys, |evals|, Unscoped))
    ensures unscopedEvals == LeafCount(evals, calls.Keys, |evals|, Unscoped)
  {
    hide LeavesCharged, Plus, LeafSum;
    calls, unscoped, unscopedEvals := before, rest, 0;
    LeavesStart(before, evals, perEval);
    NoLeaves(rest, evals, perEval, before.Keys);
    for i := 0 to |evals|
      invariant calls.Keys == before.Keys && LeavesCharged(calls, before, evals, perEval, i)
      invariant unscoped == Plus(rest, LeafSum(evals, perEval, calls.Keys, i, Unscoped))
      invariant unscopedEvals == LeafCount(evals, calls.Keys, i, Unscoped)
    {
      LeavesStep(calls, before, evals, perEval, i);
      UnscopedStep(rest, evals, perEval, calls.Keys, i);
      var stack := evals[i].moduleStack;
      if stack != [] && stack[|stack| - 1] in calls {
        var id := stack[|stack| - 1];
        var own := AddTally(calls[id].own, perEval[i]);
        calls := calls[id := calls[id].(own := own, evals := calls[id].evals + 1)];
      } else {
        unscoped := AddTally(unscoped, perEval[i]);
        unscopedEvals := unscopedEvals + 1;
      }
    }
  }

  lemma NoLeaves(rest: Tally, evals: seq<EvalWindow>, perEval: seq<Tally>, ids: set<u64>)
    requires |perEval| == |evals|
    ensures Plus(rest, LeafSum(evals, perEval, ids, 0, Unscoped)) == rest
  {
    PlusNothing(rest);
  }

  lemma UnscopedStep(rest: Tally, evals: seq<EvalWindow>, perEval: seq<Tally>, ids: set<u64>, n: nat)
    requires n < |evals| && |perEval| == |evals|
    ensures var before := Plus(rest, LeafSum(evals, perEval, ids, n, Unscoped));
            Plus(rest, LeafSum(evals, perEval, ids, n + 1, Unscoped)) ==
            if Leaf(evals[n].moduleStack, ids) == Unscoped then Plus(before, perEval[n]) else before
  {
    hide Plus;
    PlusAssociates(rest, LeafSum(evals, perEval, ids, n, Unscoped), perEval[n]);
    PlusNothing(LeafSum(evals, perEval, ids, n, Unscoped));
  }

  // ----- pass 4: the scope sums to their nodes -----

  ghost predicate FallbackMerged(calls: map<u64, CallNode>, before: map<u64, CallNode>, fallback: map<u64, Tally>)
  {
    && calls.Keys == before.Keys
    && forall id :: id in calls ==>
         calls[id] == if id in fallback then Charged(before[id], fallback[id], 0) else before[id]
  }

  lemma MergeOne(calls: map<u64, CallNode>, before: map<u64, CallNode>, done: map<u64, Tally>, id: u64, t: Tally)
    requires FallbackMerged(calls, before, done) && id in calls && id !in done
    ensures FallbackMerged(calls[id := Charged(calls[id], t, 0)], before, done[id := t])
  {
    hide Plus;
    assert calls[id := Charged(calls[id], t, 0)].Keys == calls.Keys;
  }

  /** The source's branch for a scope whose call is unknown is never taken: every window is an entered call's. */
  method MergeFallback(before: map<u64, CallNode>, fallback: map<u64, Tally>) returns (calls: map<u64, CallNode>)
    requires fallback.Keys <= before.Keys
    ensures FallbackMerged(calls, before, fallback)
  {
    hide Plus;
    calls := before;
    var rest := fallback;
    ghost var done: map<u64, Tally> := map[];
    while rest != map[]
      invariant done.Keys !! rest.Keys && done + rest == fallback
      invariant FallbackMerged(calls, before, done)
      decreases |rest|
    {
      hide FallbackMerged;
      var id :| id in rest;
      assert id in fallback && rest[id] == fallback[id];
      MergeOne(calls, before, done, id, rest[id]);
      MergedKeys(calls, before, done);
      var own := AddTally(calls[id].own, rest[id]);
      calls := calls[id := calls[id].(own := own)];
      MoveKey(done, rest, id);
      done := done[id := rest[id]];
      rest := rest - {id};
    }
    assert done + map[] == done;
  }

  lemma MergedKeys(calls: map<u64, CallNode>, before: map<u64, CallNode>, done: map<u64, Tally>)
    requires FallbackMerged(calls, before, done)
    ensures calls.Keys == before.Keys
  {
  }

  lemma MoveKey(done: map<u64, Tally>, rest: map<u64, Tally>, id: u64)
    requires done.Keys !! rest.Keys && id in rest
    ensures done[id := rest[id]].Keys !! (rest - {id}).Keys
    ensures done[id := rest[id]] + (rest - {id}) == done + rest
  {
  }

  // ----- the passes together refine the definition -----

  /** Every call holds exactly the buffers charged to it. */
  ghost predicate Attributed(calls: map<u64, CallNode>, unscoped: Tally, evals: seq<EvalWindow>,
      windows: seq<ScopeWindow>, cs: seq<Charge>)
  {
    && (forall id :: id in calls ==> calls[id].own == SumWhere(cs, ChargedTo(evals, windows, calls.Keys, AtCall(id))))
    && unscoped == SumWhere(cs, ChargedTo(evals, windows, calls.Keys, Unscoped))
  }

  /** The eval part and the scope part of one place make up its share. */
  lemma PlaceSplits(evals: seq<EvalWindow>, perEval: seq<Tally>, windows: seq<ScopeWindow>, ids: set<u64>,
      cs: seq<Charge>, p: Place)
    requires EvalTallies(perEval, evals, cs)
    ensures SumWhere(cs, ChargedTo(evals, windows, ids, p)) ==
            Plus(LeafSum(evals, perEval, ids, |evals|, p), SumWhere(Keep(cs, NoEval(evals)), ScopeIs(windows, p)))
  {
    hide Plus, SumWhere, Keep, EvalAt, LeafSum, Leaf, ScopePlace;
    LeafSumIsSumWhere(evals, perEval, ids, cs, |evals|, p);
    SumWhereKept(cs, NoEval(evals), ScopeIs(windows, p), FallsTo(evals, windows, p));
    SumWhereEither(cs, LeafIs(evals, ids, |evals|, p), FallsTo(evals, windows, p), ChargedTo(evals, windows, ids, p));
  }

  /** The four passes charge each call what the one-buffer-at-a-time definition charges it. */
  method Attribute(index: map<u64, CallNode>, evals: seq<EvalWindow>, windows: seq<ScopeWindow>,
      completed: seq<CompletedCb>, anyOps: bool)
    returns (calls: map<u64, CallNode>, unscoped: Tally, unscopedEvals: nat, unmatched: nat, scoped: nat,
        unsampled: nat)
    requires forall id :: id in index ==> index[id].own == NOTHING && index[id].evals == 0
    requires SortedBy(windows, ScopeKey()) && forall w :: 0 <= w < |windows| ==> windows[w].call in index
    ensures calls.Keys == index.Keys
    ensures forall id :: id in calls ==>
              calls[id] == index[id].(own := calls[id].own, evals := LeafCount(evals, calls.Keys, |evals|, AtCall(id)))
    ensures Attributed(calls, unscoped, evals, windows, Charges(completed, anyOps))
    ensures unscopedEvals == LeafCount(evals, calls.Keys, |evals|, Unscoped)
    ensures unmatched == SumWhere(Charges(completed, anyOps), FallsTo(evals, windows, Unscoped)).cbs
    ensures scoped + unmatched == |Keep(Charges(completed, anyOps), NoEval(evals))|
    ensures unsampled == Unsampled(completed, anyOps)
  {
    hide EvalTallies, Plus, SumWhere, LeafSum, LeafCount, FallbackTracks, Keep, SortedBy, Attributed;
    var perEval, outside;
    perEval, outside, unsampled := ChargeEvals(completed, anyOps, evals);
    ghost var cs := Charges(completed, anyOps);
    KeptAreCharges(cs, NoEval(evals));
    var fallback, rest;
    fallback, rest, scoped := ChargeScopes(outside, windows);
    unmatched := rest.cbs;
    SumWhereKept(cs, NoEval(evals), ScopeIs(windows, Unscoped), FallsTo(evals, windows, Unscoped));
    var leaves;
    EvalTalliesLength(perEval, evals, cs);
    leaves, unscoped, unscopedEvals := ChargeLeaves(index, evals, perEval, rest);
    calls := MergeFallback(leaves, fallback);
    AttributedAll(index, leaves, calls, evals, perEval, windows, cs, fallback, rest);
  }

  lemma EvalTalliesLength(perEval: seq<Tally>, evals: seq<EvalWindow>, cs: seq<Charge>)
    requires EvalTallies(perEval, evals, cs)
    ensures |perEval| == |evals|
  {
  }

  lemma {:induction false} KeptAreCharges(cs: seq<Charge>, p: u64 -> bool)
    ensures forall c :: c in Keep(cs, p) ==> c in cs
    decreases |cs|
  {
    if cs != [] {
      KeptAreCharges(cs[..|cs| - 1], p);
    }
  }

  lemma AttributedAll(index: map<u64, CallNode>, leaves: map<u64, CallNode>, calls: map<u64, CallNode>,
                      evals: seq<EvalWindow>, perEval: seq<Tally>, windows: seq<ScopeWindow>, cs: seq<Charge>,
                      fallback: map<u64, Tally>, rest: Tally)
    requires forall id :: id in index ==> index[id].own == NOTHING
    requires EvalTallies(perEval, evals, cs)
    requires LeavesCharged(leaves, index, evals, perEval, |evals|)
    requires FallbackMerged(calls, leaves, fallback) && FallbackTracks(fallback, windows, Keep(cs, NoEval(evals)))
    requires rest == SumWhere(Keep(cs, NoEval(evals)), ScopeIs(windows, Unscoped))
    ensures Attributed(calls, Plus(rest, LeafSum(evals, perEval, calls.Keys, |evals|, Unscoped)), evals, windows, cs)
  {
    hide Plus, SumWhere, Keep, LeafSum, LeafCount, ScopePlace, PlaceOf;
    EvalTalliesLength(perEval, evals, cs);
    var keys := calls.Keys;
    forall id | id in calls
      ensures calls[id].own == SumWhere(cs, ChargedTo(evals, windows, keys, AtCall(id)))
    {
      PlaceSplits(evals, perEval, windows, keys, cs, AtCall(id));
      var leaf := LeafSum(evals, perEval, keys, |evals|, AtCall(id));
      PlusNothing(leaf);
      assert leaves[id].own == leaf;
    }
    PlaceSplits(evals, perEval, windows, keys, cs, Unscoped);
    PlusCommutes(rest, LeafSum(evals, perEval, keys, |evals|, Unscoped));
  }
}
