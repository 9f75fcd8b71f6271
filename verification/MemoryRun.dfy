/** The pass behind the scope memory table, proved against the one-call definitions. */
module MemoryRun {
  import opened Bytes
  import opened Events
  import opened Windows
  import opened Memory

  // ----- counting ids on the stack -----

  lemma {:induction false} CountIdMore(stack: seq<OpenScope>, s: OpenScope, from: nat, id: u64)
    requires from <= |stack|
    ensures CountId(stack + [s], from, id) == CountId(stack, from, id) + if s.call == id then 1 else 0
    decreases |stack| - from
  {
    if from < |stack| {
      CountIdMore(stack, s, from + 1, id);
    }
  }

  lemma {:induction false} CountIdRemoved(stack: seq<OpenScope>, pos: nat, from: nat, id: u64)
    requires pos < |stack| && from < |stack|
    ensures var rest := stack[..pos] + stack[pos + 1..];
            from >= pos ==> CountId(rest, from, id) == CountId(stack, from + 1, id)
    ensures var rest := stack[..pos] + stack[pos + 1..];
            from <= pos ==> CountId(rest, from, id) == CountId(stack, from, id) - if stack[pos].call == id then 1 else 0
    decreases |stack| - from
  {
    var rest := stack[..pos] + stack[pos + 1..];
    if from < |rest| {
      CountIdRemoved(stack, pos, from + 1, id);
      assert rest[from] == if from < pos then stack[from] else stack[from + 1];
    } else {
      assert from == |stack| - 1;
    }
  }

  lemma {:induction false} CountIdSame(a: seq<OpenScope>, b: seq<OpenScope>, from: nat, id: u64)
    requires |a| == |b| && from <= |a| && forall i :: 0 <= i < |a| ==> a[i].call == b[i].call
    ensures CountId(a, from, id) == CountId(b, from, id)
    decreases |a| - from
  {
    if from < |a| {
      CountIdSame(a, b, from + 1, id);
    }
  }

  lemma {:induction false} CountIdNone(stack: seq<OpenScope>, from: nat, id: u64)
    requires from <= |stack| && forall i :: from <= i < |stack| ==> stack[i].call != id
    ensures CountId(stack, from, id) == 0
    decreases |stack| - from
  {
    if from < |stack| {
      CountIdNone(stack, from + 1, id);
    }
  }

  lemma {:induction false} CountIdSome(stack: seq<OpenScope>, from: nat, i: nat)
    requires from <= i < |stack|
    ensures CountId(stack, from, stack[i].call) > 0
    decreases |stack| - from
  {
    if from < i {
      CountIdSome(stack, from + 1, i);
    }
  }

  /** `iter().rposition(|s| s.call_id == id)`. */
  function LastCall(stack: seq<OpenScope>, id: u64): (r: Option<nat>)
    ensures r.Some? ==> r.value < |stack| && stack[r.value].call == id
    ensures forall i :: (if r.Some? then r.value else -1) < i < |stack| ==> stack[i].call != id
  {
    RPosition(stack, (s: OpenScope) => s.call == id)
  }

  // ----- one event over the stack -----

  /** An open call on an event that is not a return of its id and not an entry of its id. */
  lemma OpenUnaffected(s: OpenScope, k: nat, above: nat, es: seq<Event>, n: nat)
    requires n < |es| && OpenHolds(s, k, above, es, n)
    requires match es[n].payload
             case ModuleEntered(id, _, _) => id != s.call
             case ModuleReturned(id) => id != s.call
             case DeviceMemSample(_, _) => false
             case _ => true
    ensures OpenHolds(s, k, above, es, n + 1)
  {
    hide CallAccum;
    CallAccumStep(es, k, n);
  }

  lemma OpenUnderEntry(s: OpenScope, k: nat, above: nat, es: seq<Event>, n: nat)
    requires n < |es| && OpenHolds(s, k, above, es, n) && Enters(es, n) && es[n].payload.call == s.call
    ensures OpenHolds(s, k, above + 1, es, n + 1)
  {
    hide CallAccum;
    CallAccumStep(es, k, n);
  }

  lemma OpenUnderReturn(s: OpenScope, k: nat, above: nat, es: seq<Event>, n: nat)
    requires n < |es| && OpenHolds(s, k, above, es, n) && es[n].payload == ModuleReturned(s.call) && above > 0
    ensures OpenHolds(s, k, above - 1, es, n + 1)
  {
    hide CallAccum;
    CallAccumStep(es, k, n);
  }

  lemma OpenReturns(s: OpenScope, k: nat, es: seq<Event>, n: nat)
    requires n < |es| && OpenHolds(s, k, 0, es, n) && es[n].payload == ModuleReturned(s.call)
    ensures DrainingHolds(DrainingScope(s.qualname, s.accum, Deadline(es, n)), k, es, n + 1)
  {
    hide CallAccum;
    CallAccumStep(es, k, n);
  }

  lemma OpenSamples(s: OpenScope, k: nat, above: nat, es: seq<Event>, n: nat)
    requires n < |es| && OpenHolds(s, k, above, es, n) && es[n].payload.DeviceMemSample?
    ensures OpenHolds(s.(accum := CreditOpen(s.accum, es[n].payload.inUse)), k, above, es, n + 1)
  {
    hide CallAccum, CreditOpen;
    CallAccumStep(es, k, n);
  }

  lemma StackEnters(stack: seq<OpenScope>, at: seq<nat>, es: seq<Event>, n: nat)
    requires n < |es| && StackHolds(stack, at, es, n) && Enters(es, n)
    ensures StackHolds(stack + [OpenScope(es[n].payload.call, es[n].payload.qualname, EMPTY)], at + [n], es, n + 1)
  {
    hide OpenHolds, CountId;
    var s := OpenScope(es[n].payload.call, es[n].payload.qualname, EMPTY);
    var next := stack + [s];
    forall i | 0 <= i < |next|
      ensures OpenHolds(next[i], (at + [n])[i], CountId(next, i + 1, next[i].call), es, n + 1)
    {
      if i < |stack| {
        CountIdMore(stack, s, i + 1, stack[i].call);
        OpenUnderAnyEntry(stack[i], at[i], CountId(stack, i + 1, stack[i].call), es, n);
      } else {
        CountIdNone(next, i + 1, s.call);
        OpenFromTheStart(es, n);
      }
    }
  }

  lemma OpenUnderAnyEntry(s: OpenScope, k: nat, above: nat, es: seq<Event>, n: nat)
    requires n < |es| && OpenHolds(s, k, above, es, n) && Enters(es, n)
    ensures OpenHolds(s, k, above + if es[n].payload.call == s.call then 1 else 0, es, n + 1)
  {
    hide StateOf, CallAccum;
    if es[n].payload.call == s.call {
      OpenUnderEntry(s, k, above, es, n);
    } else {
      OpenUnaffected(s, k, above, es, n);
    }
  }

  lemma OpenFromTheStart(es: seq<Event>, n: nat)
    requires n < |es| && Enters(es, n)
    ensures OpenHolds(OpenScope(es[n].payload.call, es[n].payload.qualname, EMPTY), n, 0, es, n + 1)
  {
    hide CallAccum;
    CallAccumStart(es, n);
  }

  lemma StackReturns(stack: seq<OpenScope>, at: seq<nat>, es: seq<Event>, n: nat, pos: nat)
    requires n < |es| && StackHolds(stack, at, es, n) && es[n].payload.ModuleReturned?
    requires LastCall(stack, es[n].payload.call) == Some(pos)
    ensures StackHolds(stack[..pos] + stack[pos + 1..], at[..pos] + at[pos + 1..], es, n + 1)
    ensures DrainingHolds(DrainingScope(stack[pos].qualname, stack[pos].accum, Deadline(es, n)), at[pos], es, n + 1)
  {
    hide OpenHolds, CountId, DrainingHolds, LastCall;
    var id := es[n].payload.call;
    CountIdNone(stack, pos + 1, id);
    OpenReturns(stack[pos], at[pos], es, n);
    var next := stack[..pos] + stack[pos + 1..];
    forall i | 0 <= i < |next|
      ensures OpenHolds(next[i], (at[..pos] + at[pos + 1..])[i], CountId(next, i + 1, next[i].call), es, n + 1)
    {
      var j := if i < pos then i else i + 1;
      StackReturnsAt(stack, at, es, n, pos, j);
      CountIdRemoved(stack, pos, i + 1, next[i].call);
    }
  }

  lemma StackReturnsAt(stack: seq<OpenScope>, at: seq<nat>, es: seq<Event>, n: nat, pos: nat, j: nat)
    requires n < |es| && StackHolds(stack, at, es, n) && es[n].payload.ModuleReturned?
    requires pos < |stack| && stack[pos].call == es[n].payload.call && j < |stack| && j != pos
    requires j > pos ==> stack[j].call != es[n].payload.call
    ensures stack[j].call == es[n].payload.call ==>
              CountId(stack, j + 1, stack[j].call) > 0
                  && OpenHolds(stack[j], at[j], CountId(stack, j + 1, stack[j].call) - 1, es, n + 1)
    ensures stack[j].call != es[n].payload.call ==>
              OpenHolds(stack[j], at[j], CountId(stack, j + 1, stack[j].call), es, n + 1)
  {
    hide StateOf, CallAccum, CountId;
    var above := CountId(stack, j + 1, stack[j].call);
    assert OpenHolds(stack[j], at[j], above, es, n);
    if stack[j].call == es[n].payload.call {
      CountIdSome(stack, j + 1, pos);
      OpenUnderReturn(stack[j], at[j], above, es, n);
    } else {
      OpenUnaffected(stack[j], at[j], above, es, n);
    }
  }

  /** Anything but an entry, a sample, or a return of an open call leaves the stack as it is. */
  lemma StackIgnores(stack: seq<OpenScope>, at: seq<nat>, es: seq<Event>, n: nat)
    requires n < |es| && StackHolds(stack, at, es, n) && !Enters(es, n) && !es[n].payload.DeviceMemSample?
    requires es[n].payload.ModuleReturned? ==> LastCall(stack, es[n].payload.call).None?
    ensures StackHolds(stack, at, es, n + 1)
  {
    hide StateOf, CallAccum, CountId, LastCall;
    forall i | 0 <= i < |stack|
      ensures OpenHolds(stack[i], at[i], CountId(stack, i + 1, stack[i].call), es, n + 1)
    {
      assert OpenHolds(stack[i], at[i], CountId(stack, i + 1, stack[i].call), es, n);
      OpenUnaffected(stack[i], at[i], CountId(stack, i + 1, stack[i].call), es, n);
    }
  }

  // ----- one event over the draining calls -----

  lemma DrainIgnores(draining: seq<DrainingScope>, at: seq<nat>, es: seq<Event>, n: nat)
    requires n < |es| && DrainHolds(draining, at, es, n) && !es[n].payload.DeviceMemSample?
    ensures DrainHolds(draining, at, es, n + 1)
  {
    hide CallAccum;
    forall i | 0 <= i < |draining|
      ensures DrainingHolds(draining[i], at[i], es, n + 1)
    {
      assert DrainingHolds(draining[i], at[i], es, n);
      CallAccumStep(es, at[i], n);
    }
  }

  method CreditStack(stack: seq<OpenScope>, v: u64, ghost at: seq<nat>, ghost es: seq<Event>, ghost n: nat)
    returns (r: seq<OpenScope>)
    requires n < |es| && StackHolds(stack, at, es, n) && es[n].payload.DeviceMemSample? && es[n].payload.inUse == v
    ensures StackHolds(r, at, es, n + 1)
  {
    r := stack;
    for i := 0 to |stack|
      invariant |r| == |stack|
      invariant forall j :: 0 <= j < i ==> r[j] == stack[j].(accum := CreditOpen(stack[j].accum, v))
      invariant forall j :: i <= j < |stack| ==> r[j] == stack[j]
    {
      hide CreditOpen, StackHolds;
      var a := r[i].accum;
      r := r[i := r[i].(accum := CreditOpen(a, v))];
    }
    StackSamples(stack, r, at, es, n);
  }

  lemma StackSamples(stack: seq<OpenScope>, r: seq<OpenScope>, at: seq<nat>, es: seq<Event>, n: nat)
    requires n < |es| && StackHolds(stack, at, es, n) && es[n].payload.DeviceMemSample? && |r| == |stack|
    requires forall j :: 0 <= j < |stack| ==>
               r[j] == stack[j].(accum := CreditOpen(stack[j].accum, es[n].payload.inUse))
    ensures StackHolds(r, at, es, n + 1)
  {
    hide OpenHolds, CountId, CreditOpen;
    forall i | 0 <= i < |r|
      ensures OpenHolds(r[i], at[i], CountId(r, i + 1, r[i].call), es, n + 1)
    {
      CountIdSame(r, stack, i + 1, r[i].call);
      OpenSamples(stack[i], at[i], CountId(stack, i + 1, stack[i].call), es, n);
    }
  }

  function AfterSample(d: DrainingScope, ts: u64, v: u64): (r: DrainingScope)
  {
    if ts <= d.deadline then d.(accum := CreditDraining(d.accum, v)) else d
  }

  method CreditDrain(draining: seq<DrainingScope>, ts: u64, v: u64, ghost at: seq<nat>, ghost es: seq<Event>,
      ghost n: nat)
    returns (r: seq<DrainingScope>)
    requires n < |es| && DrainHolds(draining, at, es, n) && es[n].payload.DeviceMemSample?
    requires es[n].payload.inUse == v && es[n].ts == ts
    ensures DrainHolds(r, at, es, n + 1)
  {
    r := draining;
    for i := 0 to |draining|
      invariant |r| == |draining|
      invariant forall j :: 0 <= j < i ==> r[j] == AfterSample(draining[j], ts, v)
      invariant forall j :: i <= j < |draining| ==> r[j] == draining[j]
    {
      hide CreditDraining, DrainHolds;
      if ts <= r[i].deadline {
        var a := r[i].accum;
        r := r[i := r[i].(accum := CreditDraining(a, v))];
      }
    }
    forall i | 0 <= i < |r|
      ensures DrainingHolds(r[i], at[i], es, n + 1)
    {
      DrainingSamples(draining[i], at[i], es, n);
    }
  }

  lemma DrainingSamples(d: DrainingScope, k: nat, es: seq<Event>, n: nat)
    requires n < |es| && DrainingHolds(d, k, es, n) && es[n].payload.DeviceMemSample?
    ensures DrainingHolds(AfterSample(d, es[n].ts, es[n].payload.inUse), k, es, n + 1)
  {
    hide CallAccum, CreditDraining;
    CallAccumStep(es, k, n);
  }

  // ----- finishing calls -----

  lemma ExpiredIsFinal(d: DrainingScope, k: nat, es: seq<Event>, n: nat)
    requires Timely(es) && n < |es| && DrainingHolds(d, k, es, n) && d.deadline < es[n].ts
    ensures Summary(d.accum) == CallMemory(es, k) && Expired(es, k, n)
  {
    hide CallAccum, Summary;
    FrozenAfterDeadline(es, k, n, |es|);
  }

  lemma SwapRemove(at: seq<nat>, i: nat)
    requires i < |at|
    ensures multiset(at[i := at[|at| - 1]][..|at| - 1]) + multiset{at[i]} == multiset(at)
  {
    var last := |at| - 1;
    assert at == at[..last] + [at[last]];
    if i < last {
      assert at[i := at[last]][..last] == at[..last][i := at[last]];
      assert multiset(at[..last][i := at[last]]) == multiset(at[..last]) - multiset{at[i]} + multiset{at[last]};
      assert at[i] in at[..last];
    } else {
      assert at[i := at[last]][..last] == at[..last];
    }
  }

  /** None of the calls was due at an event before `n`. */
  ghost predicate Awaiting(es: seq<Event>, calls: multiset<nat>, n: nat)
  {
    forall k, m: nat :: k in calls && m < n ==> !Expired(es, k, m)
  }

  /** All of the calls were finished by the sweep before the event at `n`, in the order they fell due. */
  ghost predicate Finished(es: seq<Event>, done: seq<nat>, n: nat)
  {
    && AreCalls(es, done)
    && (forall i :: 0 <= i < |done| ==> StateOf(es, done[i], |es|).Closed?)
    && (forall i, m :: 0 <= i < |done| && n <= m < |es| ==> Expired(es, done[i], m))
    && (forall i, j, m :: 0 <= i < j < |done| && Expired(es, done[j], m) ==> Expired(es, done[i], m))
  }

  lemma FinishOneMore(es: seq<Event>, done: seq<nat>, k: nat, n: nat)
    requires Timely(es) && n < |es| && Finished(es, done, n) && Expired(es, k, n) && Awaiting(es, multiset{k}, n)
    ensures Finished(es, done + [k], n)
  {
    hide Expired, StateOf;
    var more := done + [k];
    ExpiredIsACall(es, k, n);
    forall m | n <= m < |es|
      ensures Expired(es, k, m)
    {
      ExpiredStays(es, k, n, m);
    }
    forall i, j, m | 0 <= i < j < |more| && Expired(es, more[j], m)
      ensures Expired(es, more[i], m)
    {
      if j == |done| {
        assert k in multiset{k};
        ExpiredIsACall(es, k, m);
      }
    }
  }

  lemma ExpiredIsACall(es: seq<Event>, k: nat, n: nat)
    requires Expired(es, k, n)
    ensures k < n < |es| && Enters(es, k)
    ensures Timely(es) ==> StateOf(es, k, |es|).Closed?
  {
    hide CallAccum;
    if Timely(es) {
      FrozenAfterDeadline(es, k, n, |es|);
    }
  }

  /** Finish every draining call whose grace is over, and no other. */
  method Sweep(draining: seq<DrainingScope>, rows: map<string, ScopeMemory>, ts: u64,
               ghost at: seq<nat>, ghost done: seq<nat>, ghost es: seq<Event>, ghost n: nat)
    returns (d: seq<DrainingScope>, r: map<string, ScopeMemory>, ghost left: seq<nat>, ghost finished: seq<nat>)
    requires Timely(es) && n < |es| && es[n].ts == ts
    requires DrainHolds(draining, at, es, n) && Awaiting(es, multiset(at), n)
    requires Finished(es, done, n) && rows == FoldRows(es, done)
    ensures DrainHolds(d, left, es, n) && Awaiting(es, multiset(left), n + 1)
    ensures done <= finished && Finished(es, finished, n) && r == FoldRows(es, finished)
    ensures multiset(left) + multiset(finished) == multiset(at) + multiset(done)
  {
    hide DrainingHolds, FoldRows, CallMemory, Summary, MergeRow, Expired, Finished;
    d, r, left, finished := draining, rows, at, done;
    FinishedAreCalls(es, done, n);
    var i := 0;
    while i < |d|
      invariant 0 <= i <= |d|
      invariant DrainHolds(d, left, es, n) && Awaiting(es, multiset(left), n)
      invariant done <= finished && Finished(es, finished, n) && AreCalls(es, finished) && r == FoldRows(es, finished)
      invariant multiset(left) + multiset(finished) == multiset(at) + multiset(done)
      invariant forall j :: 0 <= j < i ==> ts <= d[j].deadline
      decreases |d| - i
    {
      if d[i].deadline < ts {
        SweepOne(d[i], left, i, finished, es, n);
        r := MergeRow(r, d[i].qualname, Summary(d[i].accum));
        finished := finished + [left[i]];
        d, left := d[i := d[|d| - 1]][..|d| - 1], left[i := left[|left| - 1]][..|left| - 1];
      } else {
        i := i + 1;
      }
    }
    NoneLeftIsDue(d, left, es, n);
  }

  lemma FinishedAreCalls(es: seq<Event>, done: seq<nat>, n: nat)
    requires Finished(es, done, n)
    ensures AreCalls(es, done)
  {
  }

  lemma SweepOne(d: DrainingScope, left: seq<nat>, i: nat, finished: seq<nat>, es: seq<Event>, n: nat)
    requires Timely(es) && n < |es| && i < |left| && DrainingHolds(d, left[i], es, n) && d.deadline < es[n].ts
    requires Awaiting(es, multiset(left), n) && Finished(es, finished, n)
    ensures AreCalls(es, finished) && AreCalls(es, finished + [left[i]]) && Finished(es, finished + [left[i]], n)
    ensures FoldRows(es, finished + [left[i]]) == MergeRow(FoldRows(es, finished), d.qualname, Summary(d.accum))
    ensures multiset(left[i := left[|left| - 1]][..|left| - 1]) + multiset{left[i]} == multiset(left)
    ensures Awaiting(es, multiset(left[i := left[|left| - 1]][..|left| - 1]), n)
  {
    hide DrainingHolds, FoldRows, CallMemory, Summary, MergeRow, Expired;
    ExpiredIsFinal(d, left[i], es, n);
    IsEntry(d, left[i], es, n);
    FinishedAreCalls(es, finished, n);
    FoldRowsMore(es, finished, left[i]);
    FinishOneMore(es, finished, left[i], n);
    SwapRemove(left, i);
  }

  lemma NoneLeftIsDue(draining: seq<DrainingScope>, at: seq<nat>, es: seq<Event>, n: nat)
    requires n < |es| && DrainHolds(draining, at, es, n) && Awaiting(es, multiset(at), n)
    requires forall i :: 0 <= i < |draining| ==> es[n].ts <= draining[i].deadline
    ensures Awaiting(es, multiset(at), n + 1)
  {
    hide CallAccum, StateOf;
    forall k | k in multiset(at)
      ensures !Expired(es, k, n)
    {
      var i :| 0 <= i < |at| && at[i] == k;
      assert DrainingHolds(draining[i], k, es, n);
    }
  }

  lemma OpenCallsAwait(stack: seq<OpenScope>, at: seq<nat>, es: seq<Event>, n: nat)
    requires n < |es| && StackHolds(stack, at, es, n) && Awaiting(es, multiset(at), n)
    ensures Awaiting(es, multiset(at), n + 1)
  {
    hide CallAccum, StateOf, CountId;
    forall k | k in multiset(at)
      ensures !Expired(es, k, n)
    {
      var i :| 0 <= i < |at| && at[i] == k;
      assert OpenHolds(stack[i], k, CountId(stack, i + 1, stack[i].call), es, n);
    }
  }

  lemma IsEntry(d: DrainingScope, k: nat, es: seq<Event>, n: nat)
    requires n <= |es| && DrainingHolds(d, k, es, n)
    ensures k < |es| && Enters(es, k) && es[k].payload.qualname == d.qualname
  {
  }

  // ----- the pass -----

  /** Every entered call is on the stack, draining, or finished: in exactly one of them, once. */
  ghost predicate Parted(stackAt: seq<nat>, drainAt: seq<nat>, done: seq<nat>, es: seq<Event>, n: nat)
    requires n <= |es|
  {
    multiset(stackAt) + multiset(drainAt) + multiset(done) == multiset(Entries(es, n))
  }

  datatype Scopes = Scopes(stack: seq<OpenScope>, draining: seq<DrainingScope>)

  datatype Places = Places(stack: seq<nat>, drain: seq<nat>)

  ghost predicate ScopesHold(s: Scopes, p: Places, es: seq<Event>, n: nat)
    requires n <= |es|
  {
    StackHolds(s.stack, p.stack, es, n) && DrainHolds(s.draining, p.drain, es, n)
  }

  lemma EntriesStep(es: seq<Event>, n: nat)
    requires n < |es|
    ensures Entries(es, n + 1) == Entries(es, n) + if Enters(es, n) then [n] else []
  {
  }

  lemma RemoveAt(at: seq<nat>, pos: nat)
    requires pos < |at|
    ensures multiset(at[..pos] + at[pos + 1..]) + multiset{at[pos]} == multiset(at)
  {
    assert at == at[..pos] + [at[pos]] + at[pos + 1..];
  }

  lemma DrainMore(draining: seq<DrainingScope>, at: seq<nat>, d: DrainingScope, k: nat, es: seq<Event>, n: nat)
    requires n <= |es| && DrainHolds(draining, at, es, n) && DrainingHolds(d, k, es, n)
    ensures DrainHolds(draining + [d], at + [k], es, n)
  {
    hide DrainingHolds;
  }

  method Handle(s: Scopes, ev: Event, ghost p: Places, ghost es: seq<Event>, ghost n: nat)
    returns (r: Scopes, ghost q: Places)
    requires n < |es| && ev == es[n] && ScopesHold(s, p, es, n)
    ensures ScopesHold(r, q, es, n + 1)
    ensures multiset(q.stack) + multiset(q.drain) == multiset(p.stack) + multiset(p.drain)
            + if Enters(es, n) then multiset{n} else multiset{}
  {
    hide StackHolds, DrainHolds, LastCall, DrainingHolds;
    match ev.payload {
      case ModuleEntered(id, qualname, _) =>
        StackEnters(s.stack, p.stack, es, n);
        DrainIgnores(s.draining, p.drain, es, n);
        r := s.(stack := s.stack + [OpenScope(id, qualname, EMPTY)]);
        q := p.(stack := p.stack + [n]);
      case ModuleReturned(id) =>
        DrainIgnores(s.draining, p.drain, es, n);
        var pos := LastCall(s.stack, id);
        if pos.Some? {
          var i := pos.value;
          StackLength(s.stack, p.stack, es, n);
          StackReturns(s.stack, p.stack, es, n, i);
          RemoveAt(p.stack, i);
          var gone := DrainingScope(s.stack[i].qualname, s.stack[i].accum, SatAdd(ev.ts, ASYNC_GRACE_NS));
          DrainMore(s.draining, p.drain, gone, p.stack[i], es, n + 1);
          r := Scopes(s.stack[..i] + s.stack[i + 1..], s.draining + [gone]);
          q := Places(p.stack[..i] + p.stack[i + 1..], p.drain + [p.stack[i]]);
        } else {
          StackIgnores(s.stack, p.stack, es, n);
          r, q := s, p;
        }
      case DeviceMemSample(v, _) =>
        var stack := CreditStack(s.stack, v, p.stack, es, n);
        var draining := CreditDrain(s.draining, ev.ts, v, p.drain, es, n);
        r, q := Scopes(stack, draining), p;
      case _ =>
        StackIgnores(s.stack, p.stack, es, n);
        DrainIgnores(s.draining, p.drain, es, n);
        r, q := s, p;
    }
  }

  lemma StackLength(stack: seq<OpenScope>, at: seq<nat>, es: seq<Event>, n: nat)
    requires n <= |es| && StackHolds(stack, at, es, n)
    ensures |stack| == |at|
  {
  }

  lemma NothingHeld(es: seq<Event>)
    ensures ScopesHold(Scopes([], []), Places([], []), es, 0) && Parted([], [], [], es, 0)
    ensures Finished(es, [], 0) && FoldRows(es, []) == map[]
  {
  }

  method FlushDraining(draining: seq<DrainingScope>, rows: map<string, ScopeMemory>, ghost at: seq<nat>,
      ghost done: seq<nat>, ghost es: seq<Event>)
    returns (r: map<string, ScopeMemory>)
    requires DrainHolds(draining, at, es, |es|) && AreCalls(es, done) && rows == FoldRows(es, done)
    ensures AreCalls(es, done + at) && r == FoldRows(es, done + at)
  {
    hide DrainingHolds, FoldRows, CallMemory, Summary, MergeRow;
    r := rows;
    assert done + at[..0] == done;
    for i := 0 to |draining|
      invariant AreCalls(es, done + at[..i]) && r == FoldRows(es, done + at[..i])
    {
      IsEntry(draining[i], at[i], es, |es|);
      DrainingAtEnd(draining[i], at[i], es);
      FoldRowsMore(es, done + at[..i], at[i]);
      assert done + at[..i + 1] == done + at[..i] + [at[i]];
      r := MergeRow(r, draining[i].qualname, Summary(draining[i].accum));
    }
    assert at[..|at|] == at;
  }

  lemma DrainingAtEnd(d: DrainingScope, k: nat, es: seq<Event>)
    requires DrainingHolds(d, k, es, |es|)
    ensures k < |es| && Enters(es, k) && Summary(d.accum) == CallMemory(es, k)
  {
  }

  method FlushStack(stack: seq<OpenScope>, rows: map<string, ScopeMemory>, ghost at: seq<nat>, ghost done: seq<nat>,
      ghost es: seq<Event>)
    returns (r: map<string, ScopeMemory>)
    requires StackHolds(stack, at, es, |es|) && AreCalls(es, done) && rows == FoldRows(es, done)
    ensures AreCalls(es, done + at) && r == FoldRows(es, done + at)
  {
    hide OpenHolds, FoldRows, CallMemory, Summary, MergeRow, CountId;
    r := rows;
    assert done + at[..0] == done;
    for i := 0 to |stack|
      invariant AreCalls(es, done + at[..i]) && r == FoldRows(es, done + at[..i])
    {
      OpenAtEnd(stack[i], at[i], CountId(stack, i + 1, stack[i].call), es);
      FoldRowsMore(es, done + at[..i], at[i]);
      assert done + at[..i + 1] == done + at[..i] + [at[i]];
      r := MergeRow(r, stack[i].qualname, Summary(stack[i].accum));
    }
    assert at[..|at|] == at;
  }

  lemma OpenAtEnd(s: OpenScope, k: nat, above: nat, es: seq<Event>)
    requires OpenHolds(s, k, above, es, |es|)
    ensures k < |es| && Enters(es, k) && es[k].payload.qualname == s.qualname && Summary(s.accum) == CallMemory(es, k)
  {
  }

  /** Rows do not depend on the order the calls were finished in. */
  lemma SummarizesAnyOrder(rows: map<string, ScopeMemory>, es: seq<Event>, a: seq<nat>, b: seq<nat>)
    requires Summarizes(rows, es, a) && multiset(a) == multiset(b)
    ensures Summarizes(rows, es, b)
  {
    hide CallMemory, IsCall;
    assert forall k :: k in a <==> k in multiset(b);
    assert forall k :: k in a <==> k in b;
    forall q | q in rows
      ensures RowHolds(rows[q], es, b, q)
    {
      assert RowHolds(rows[q], es, a, q);
    }
  }

  /** The table: the calls' own figures merged one after another, every entered call exactly once, in the order
      their grace ended. So each name's row has its calls' largest peak and growth, the rest from a call with that
      peak. */
  method ComputeMemoryBreakdown(events: seq<Event>) returns (rows: map<string, ScopeMemory>, ghost order: seq<nat>)
    ensures var es := InTimeOrder(events);
            && multiset(order) == multiset(Entries(es, |events|))
            && AreCalls(es, order) && rows == FoldRows(es, order)
            && InFinishingOrder(es, order)
            && Summarizes(rows, es, Entries(es, |events|))
  {
    hide ScopesHold, Summarizes, StackHolds, DrainHolds, InTimeOrder, Timely, Entries, Finished, FoldRows, Awaiting,
         AreCalls, InFinishingOrder;
    var es := InTimeOrder(events);
    SortedLength(events);
    SortedIsTimely(events, es);
    var s := Scopes([], []);
    ghost var p, done := Places([], []), [];
    rows := map[];
    NothingHeld(es);
    NoneAwait(es);
    for i := 0 to |es|
      invariant ScopesHold(s, p, es, i) && Parted(p.stack, p.drain, done, es, i)
      invariant Awaiting(es, multiset(p.stack), i) && Awaiting(es, multiset(p.drain), i)
      invariant Finished(es, done, i) && AreCalls(es, done) && rows == FoldRows(es, done)
    {
      ScopesSplit(s, p, es, i);
      var draining;
      ghost var left, was, drained := [], done, p.drain;
      draining, rows, left, done := Sweep(s.draining, rows, es[i].ts, p.drain, done, es, i);
      OpenCallsAwait(s.stack, p.stack, es, i);
      ScopesJoin(s.stack, draining, p.stack, left, es, i);
      ghost var before := Places(p.stack, left);
      Regroup(multiset(before.stack), multiset(drained), multiset(was), multiset(left), multiset(done));
      s, p := Handle(Scopes(s.stack, draining), es[i], before, es, i);
      PartedStep(before.stack, before.drain, p.stack, p.drain, done, es, i);
      AwaitingStep(before.stack, before.drain, p.stack, p.drain, es, i);
      FinishedBefore(es, done, i);
    }
    ScopesSplit(s, p, es, |es|);
    FinishingOrder(s, p, done, es);
    rows := FlushDraining(s.draining, rows, p.drain, done, es);
    rows := FlushStack(s.stack, rows, p.stack, done + p.drain, es);
    order := done + p.drain + p.stack;
    FoldSummarizes(es, order);
    SummarizesAnyOrder(rows, es, order, Entries(es, |es|));
  }

  lemma NoneAwait(es: seq<Event>)
    ensures Awaiting(es, multiset([]), 0) && AreCalls(es, [])
  {
  }

  lemma FinishedBefore(es: seq<Event>, done: seq<nat>, n: nat)
    requires Finished(es, done, n)
    ensures Finished(es, done, n + 1) && AreCalls(es, done)
  {
    hide Expired;
  }

  lemma AwaitingStep(stackAt: seq<nat>, drainAt: seq<nat>, stackNext: seq<nat>, drainNext: seq<nat>, es: seq<Event>,
      n: nat)
    requires n < |es| && Awaiting(es, multiset(stackAt), n + 1) && Awaiting(es, multiset(drainAt), n + 1)
    requires multiset(stackNext) + multiset(drainNext) == multiset(stackAt) + multiset(drainAt)
             + if Enters(es, n) then multiset{n} else multiset{}
    ensures Awaiting(es, multiset(stackNext), n + 1) && Awaiting(es, multiset(drainNext), n + 1)
  {
    hide StateOf, Deadline;
    forall k | k in multiset(stackNext) || k in multiset(drainNext)
      ensures k == n || k in multiset(stackAt) || k in multiset(drainAt)
    {
      assert k in multiset(stackNext) + multiset(drainNext);
    }
  }

  lemma NeverExpired(es: seq<Event>, k: nat, n: nat)
    requires Awaiting(es, multiset{k}, |es|)
    ensures !Expired(es, k, n)
  {
    hide StateOf, Deadline;
    assert k in multiset{k};
  }

  lemma FinishingOrder(s: Scopes, p: Places, done: seq<nat>, es: seq<Event>)
    requires Timely(es) && StackHolds(s.stack, p.stack, es, |es|) && DrainHolds(s.draining, p.drain, es, |es|)
    requires Awaiting(es, multiset(p.stack), |es|) && Awaiting(es, multiset(p.drain), |es|)
    requires Finished(es, done, |es|)
    ensures AreCalls(es, done + p.drain + p.stack) && InFinishingOrder(es, done + p.drain + p.stack)
  {
    hide StateOf, Expired, CallAccum, CountId;
    var order := done + p.drain + p.stack;
    forall i | 0 <= i < |p.drain|
      ensures p.drain[i] < |es| && Enters(es, p.drain[i]) && StateOf(es, p.drain[i], |es|).Closed?
    {
      assert DrainingHolds(s.draining[i], p.drain[i], es, |es|);
    }
    forall i | 0 <= i < |p.stack|
      ensures p.stack[i] < |es| && Enters(es, p.stack[i]) && StateOf(es, p.stack[i], |es|).Open?
    {
      assert OpenHolds(s.stack[i], p.stack[i], CountId(s.stack, i + 1, s.stack[i].call), es, |es|);
    }
    forall j, n: nat | |done| <= j < |order|
      ensures !Expired(es, order[j], n)
    {
      assert order[j] in multiset(p.drain) || order[j] in multiset(p.stack);
      NeverExpired(es, order[j], n);
    }
  }

  lemma Regroup(a: multiset<nat>, b: multiset<nat>, c: multiset<nat>, x: multiset<nat>, y: multiset<nat>)
    requires x + y == b + c
    ensures a + x + y == a + b + c
  {
    assert a + x + y == a + (x + y);
    assert a + b + c == a + (b + c);
  }

  lemma PartedStep(stackAt: seq<nat>, drainAt: seq<nat>, stackNext: seq<nat>, drainNext: seq<nat>, done: seq<nat>,
      es: seq<Event>, n: nat)
    requires n < |es| && Parted(stackAt, drainAt, done, es, n)
    requires multiset(stackNext) + multiset(drainNext) == multiset(stackAt) + multiset(drainAt)
             + if Enters(es, n) then multiset{n} else multiset{}
    ensures Parted(stackNext, drainNext, done, es, n + 1)
  {
    EntriesStep(es, n);
    assert multiset(Entries(es, n + 1)) == multiset(Entries(es, n)) + if Enters(es, n) then multiset{n} else multiset{};
  }

  lemma ScopesSplit(s: Scopes, p: Places, es: seq<Event>, n: nat)
    requires n <= |es| && ScopesHold(s, p, es, n)
    ensures StackHolds(s.stack, p.stack, es, n) && DrainHolds(s.draining, p.drain, es, n)
  {
  }

  lemma ScopesJoin(stack: seq<OpenScope>, draining: seq<DrainingScope>, stackAt: seq<nat>, drainAt: seq<nat>,
      es: seq<Event>, n: nat)
    requires n <= |es| && StackHolds(stack, stackAt, es, n) && DrainHolds(draining, drainAt, es, n)
    ensures ScopesHold(Scopes(stack, draining), Places(stackAt, drainAt), es, n)
  {
  }

  lemma SortedLength(events: seq<Event>)
    ensures |InTimeOrder(events)| == |events|
  {
  }
}
