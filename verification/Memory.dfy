/** Device memory per scope: a one-pass machine over open and draining scopes, against a definition that looks
    at each call on its own. */
module Memory {
  import opened Bytes
  import opened Events
  import opened Windows
  import opened Sorting

  // ----- time order -----

  function TimeKey(): (r: Event -> int) { (e: Event) => e.ts * 0x1_0000_0000_0000_0000 + e.seqNo }

  function InTimeOrder(events: seq<Event>): (r: seq<Event>) { StableSort(events, TimeKey()) }

  ghost predicate Timely(es: seq<Event>)
  {
    forall i, j :: 0 <= i < j < |es| ==> es[i].ts <= es[j].ts
  }

  lemma SortedIsTimely(events: seq<Event>, es: seq<Event>)
    requires es == InTimeOrder(events)
    ensures Timely(es)
  {
    hide StableSort;
    StableSortSorts(events, TimeKey());
    forall i, j | 0 <= i < j < |es|
      ensures es[i].ts <= es[j].ts
    {
      assert TimeKey()(es[i]) <= TimeKey()(es[j]);
    }
  }

  /** The events by time, and by sequence number among those of one time; none lost, none added. */
  lemma InTimeOrderIs(events: seq<Event>)
    ensures multiset(InTimeOrder(events)) == multiset(events)
    ensures forall i, j :: 0 <= i < j < |InTimeOrder(events)| ==>
              var a, b := InTimeOrder(events)[i], InTimeOrder(events)[j];
              a.ts < b.ts || (a.ts == b.ts && a.seqNo <= b.seqNo)
  {
    hide StableSort;
    StableSortSorts(events, TimeKey());
    forall i, j | 0 <= i < j < |InTimeOrder(events)|
      ensures TimeKey()(InTimeOrder(events)[i]) <= TimeKey()(InTimeOrder(events)[j])
    {
    }
  }

  // ----- one call on its own -----

  /** A call is open, with so many later entries of its id still open, or it was closed by the return at `at`. */
  datatype State = Open(above: nat) | Closed(at: nat)

  /** Matches returns to entries of the same id like brackets. */
  function StateOf(es: seq<Event>, k: nat, n: nat): (r: State)
    requires k < n <= |es| && Enters(es, k)
    ensures r.Closed? ==> k < r.at < n && es[r.at].payload == ModuleReturned(es[k].payload.call)
    decreases n
  {
    if n == k + 1 then Open(0)
    else match StateOf(es, k, n - 1)
      case Closed(at) => Closed(at)
      case Open(above) =>
        match es[n - 1].payload
        case ModuleEntered(id, _, _) => if id == es[k].payload.call then Open(above + 1) else Open(above)
        case ModuleReturned(id) =>
          if id != es[k].payload.call then Open(above) else if above == 0 then Closed(n - 1) else Open(above - 1)
        case _ => Open(above)
  }

  function Deadline(es: seq<Event>, at: nat): (r: u64)
    requires at < |es|
  {
    SatAdd(es[at].ts, ASYNC_GRACE_NS)
  }

  /** Whether the sample at `m` counts for the call entered at `k`: taken while it was open, or within the grace
      after its return. */
  predicate Credited(es: seq<Event>, k: nat, m: nat)
    requires k < m < |es| && Enters(es, k)
  {
    es[m].payload.DeviceMemSample?
    && match StateOf(es, k, m) case Open(_) => true case Closed(at) => es[m].ts <= Deadline(es, at)
  }

  /** What counts for the call among the first `n` events, in order. */
  function Credits(es: seq<Event>, k: nat, n: nat): (r: seq<u64>)
    requires k < n <= |es| && Enters(es, k)
    decreases n
  {
    if n == k + 1 then []
    else Credits(es, k, n - 1) + if Credited(es, k, n - 1) then [es[n - 1].payload.inUse] else []
  }

  /** What was sampled while the call was open. */
  function WhileOpen(es: seq<Event>, k: nat, n: nat): (r: seq<u64>)
    requires k < n <= |es| && Enters(es, k)
    decreases n
  {
    if n == k + 1 then []
    else
      WhileOpen(es, k, n - 1)
      + if es[n - 1].payload.DeviceMemSample? && StateOf(es, k, n - 1).Open? then [es[n - 1].payload.inUse] else []
  }

  function MaxOf(s: seq<u64>): (r: u64)
    ensures forall i :: 0 <= i < |s| ==> s[i] <= r
    ensures s != [] ==> r in s
  {
    if s == [] then 0 else Max(MaxOf(s[..|s| - 1]), s[|s| - 1])
  }

  function SumOf(s: seq<u64>): (r: nat) { if s == [] then 0 else SumOf(s[..|s| - 1]) + s[|s| - 1] }

  function FirstOf(s: seq<u64>): (r: u64) { if s == [] then 0 else s[0] }

  function LastOf(s: seq<u64>): (r: u64) { if s == [] then 0 else s[|s| - 1] }

  datatype Accum = Accum(peak: u64, sum: nat, count: nat, first: u64, last: u64, runningPeak: u64)

  const EMPTY := Accum(0, 0, 0, 0, 0, 0)

  function AccumOf(credits: seq<u64>, open: seq<u64>): (r: Accum)
  {
    Accum(MaxOf(credits), SumOf(credits), |credits|, FirstOf(credits), LastOf(credits), MaxOf(open))
  }

  function CallAccum(es: seq<Event>, k: nat, n: nat): (r: Accum)
    requires k < n <= |es| && Enters(es, k)
  {
    AccumOf(Credits(es, k, n), WhileOpen(es, k, n))
  }

  datatype ScopeMemory = ScopeMemory(peak: u64, avg: nat, end: u64, growth: nat, samples: nat)

  function Summary(a: Accum): (r: ScopeMemory)
  {
    ScopeMemory(a.peak, if a.count > 0 then a.sum / a.count else 0, a.last, SatSub(a.runningPeak, a.first), a.count)
  }

  /** The call's row, from its own samples. */
  function CallMemory(es: seq<Event>, k: nat): (r: ScopeMemory)
    requires k < |es| && Enters(es, k)
  {
    Summary(CallAccum(es, k, |es|))
  }

  // ----- the machine's rows -----

  datatype OpenScope = OpenScope(call: u64, qualname: string, accum: Accum)

  datatype DrainingScope = DrainingScope(qualname: string, accum: Accum, deadline: u64)

  function CreditOpen(a: Accum, v: u64): (r: Accum)
  {
    Accum(Max(a.peak, v), a.sum + v, a.count + 1, if a.count == 0 then v else a.first, v, Max(a.runningPeak, v))
  }

  function CreditDraining(a: Accum, v: u64): (r: Accum)
  {
    Accum(Max(a.peak, v), a.sum + v, a.count + 1, if a.count == 0 then v else a.first, v, a.runningPeak)
  }

  lemma AccumMore(credits: seq<u64>, open: seq<u64>, v: u64)
    ensures AccumOf(credits + [v], open + [v]) == CreditOpen(AccumOf(credits, open), v)
    ensures AccumOf(credits + [v], open) == CreditDraining(AccumOf(credits, open), v)
  {
    assert (credits + [v])[..|credits|] == credits && (open + [v])[..|open|] == open;
  }

  /** How one event changes one call's sums. */
  lemma CallAccumStep(es: seq<Event>, k: nat, n: nat)
    requires k < n < |es| && Enters(es, k)
    ensures CallAccum(es, k, n + 1) ==
            match es[n].payload
            case DeviceMemSample(v, _) =>
              (match StateOf(es, k, n)
               case Open(_) => CreditOpen(CallAccum(es, k, n), v)
               case Closed(at) => if es[n].ts <= Deadline(es, at) then CreditDraining(CallAccum(es, k, n), v)
                   else CallAccum(es, k, n))
            case _ => CallAccum(es, k, n)
  {
    hide AccumOf, StateOf, CreditOpen, CreditDraining;
    match es[n].payload {
      case DeviceMemSample(v, _) =>
        AccumMore(Credits(es, k, n), WhileOpen(es, k, n), v);
        assert Credits(es, k, n) + [] == Credits(es, k, n) && WhileOpen(es, k, n) + [] == WhileOpen(es, k, n);
      case _ =>
        assert Credits(es, k, n + 1) == Credits(es, k, n) && WhileOpen(es, k, n + 1) == WhileOpen(es, k, n);
    }
  }

  lemma CallAccumStart(es: seq<Event>, k: nat)
    requires k < |es| && Enters(es, k)
    ensures CallAccum(es, k, k + 1) == EMPTY && StateOf(es, k, k + 1) == Open(0)
  {
  }

  /** Past its deadline a call's sums no longer change. */
  lemma {:induction false} FrozenAfterDeadline(es: seq<Event>, k: nat, n: nat, m: nat)
    requires Timely(es) && k < n <= m <= |es| && Enters(es, k) && StateOf(es, k, n).Closed?
    requires n < |es| ==> Deadline(es, StateOf(es, k, n).at) < es[n].ts
    ensures CallAccum(es, k, m) == CallAccum(es, k, n) && StateOf(es, k, m) == StateOf(es, k, n)
    decreases m
  {
    hide CallAccum, Deadline;
    if n < m {
      FrozenAfterDeadline(es, k, n, m - 1);
      CallAccumStep(es, k, m - 1);
      assert es[n].ts <= es[m - 1].ts;
    }
  }

  // ----- what the machine tracks -----

  /** Entries of `id` on the stack from position `from` on. */
  function CountId(stack: seq<OpenScope>, from: nat, id: u64): (r: nat)
    requires from <= |stack|
    decreases |stack| - from
  {
    if from == |stack| then 0 else (if stack[from].call == id then 1 else 0) + CountId(stack, from + 1, id)
  }

  ghost predicate OpenHolds(s: OpenScope, k: nat, above: nat, es: seq<Event>, n: nat)
    requires n <= |es|
  {
    && k < n && Enters(es, k) && s.call == es[k].payload.call && s.qualname == es[k].payload.qualname
    && StateOf(es, k, n) == Open(above) && s.accum == CallAccum(es, k, n)
  }

  /** The stack holds the open calls, `at` naming their entries. */
  ghost predicate StackHolds(stack: seq<OpenScope>, at: seq<nat>, es: seq<Event>, n: nat)
    requires n <= |es|
  {
    && |stack| == |at|
    && forall i :: 0 <= i < |stack| ==> OpenHolds(stack[i], at[i], CountId(stack, i + 1, stack[i].call), es, n)
  }

  ghost predicate DrainingHolds(d: DrainingScope, k: nat, es: seq<Event>, n: nat)
    requires n <= |es|
  {
    && k < n && Enters(es, k) && d.qualname == es[k].payload.qualname
    && StateOf(es, k, n).Closed? && d.deadline == Deadline(es, StateOf(es, k, n).at) && d.accum == CallAccum(es, k, n)
  }

  ghost predicate DrainHolds(draining: seq<DrainingScope>, at: seq<nat>, es: seq<Event>, n: nat)
    requires n <= |es|
  {
    && |draining| == |at|
    && forall i :: 0 <= i < |draining| ==> DrainingHolds(draining[i], at[i], es, n)
  }

  predicate IsCall(es: seq<Event>, k: nat, q: string)
  {
    k < |es| && Enters(es, k) && es[k].payload.qualname == q
  }

  /** A row stands for the finished calls of its name: their largest peak and growth, the rest from a call with that
      peak. */
  ghost predicate RowHolds(row: ScopeMemory, es: seq<Event>, done: seq<nat>, q: string)
  {
    && (forall k :: k in done && IsCall(es, k, q) ==>
         CallMemory(es, k).peak <= row.peak && CallMemory(es, k).growth <= row.growth)
    && (exists k :: k in done && IsCall(es, k, q) && row == CallMemory(es, k).(growth := row.growth))
    && (exists k :: k in done && IsCall(es, k, q) && row.growth == CallMemory(es, k).growth)
  }

  ghost predicate Summarizes(rows: map<string, ScopeMemory>, es: seq<Event>, done: seq<nat>)
  {
    && (forall q :: q in rows <==> exists k :: k in done && IsCall(es, k, q))
    && (forall q :: q in rows ==> RowHolds(rows[q], es, done, q))
  }

  function MergeRow(rows: map<string, ScopeMemory>, q: string, m: ScopeMemory): (r: map<string, ScopeMemory>)
  {
    if q !in rows then rows[q := m]
    else
      var kept := if m.peak > rows[q].peak then m else rows[q];
      rows[q := kept.(growth := Max(rows[q].growth, m.growth))]
  }

  lemma RowGrows(row: ScopeMemory, es: seq<Event>, done: seq<nat>, k: nat, q: string)
    requires RowHolds(row, es, done, q) && k < |es| && Enters(es, k)
    ensures es[k].payload.qualname != q ==> RowHolds(row, es, done + [k], q)
    ensures es[k].payload.qualname == q ==>
              var m := CallMemory(es, k);
              RowHolds((if m.peak > row.peak then m else row).(growth := Max(row.growth, m.growth)), es, done + [k], q)
  {
    hide CallMemory;
    var i :| i in done && IsCall(es, i, q) && row == CallMemory(es, i).(growth := row.growth);
    var j :| j in done && IsCall(es, j, q) && row.growth == CallMemory(es, j).growth;
    assert i in done + [k] && j in done + [k] && k in done + [k];
  }

  lemma FirstRow(es: seq<Event>, done: seq<nat>, k: nat)
    requires k < |es| && Enters(es, k) && forall i :: i in done ==> !IsCall(es, i, es[k].payload.qualname)
    ensures RowHolds(CallMemory(es, k), es, done + [k], es[k].payload.qualname)
  {
    hide CallMemory;
    assert k in done + [k];
  }

  /** Merging one more finished call. */
  lemma SummarizesMore(rows: map<string, ScopeMemory>, es: seq<Event>, done: seq<nat>, k: nat)
    requires Summarizes(rows, es, done) && k < |es| && Enters(es, k)
    ensures Summarizes(MergeRow(rows, es[k].payload.qualname, CallMemory(es, k)), es, done + [k])
  {
    hide RowHolds, CallMemory;
    var name, next, more := es[k].payload.qualname, MergeRow(rows, es[k].payload.qualname, CallMemory(es, k)),
        done + [k];
    forall q
      ensures q in next <==> exists i :: i in more && IsCall(es, i, q)
    {
      if q in rows {
        var i :| i in done && IsCall(es, i, q);
        assert i in more;
      } else if q == name {
        assert k in more && IsCall(es, k, q);
      } else {
        assert forall i :: i in done ==> !IsCall(es, i, q);
      }
    }
    forall q | q in next
      ensures RowHolds(next[q], es, more, q)
    {
      if q in rows {
        RowGrows(rows[q], es, done, k, q);
      } else {
        FirstRow(es, done, k);
      }
    }
  }

  // ----- finishing calls one after another -----

  ghost predicate AreCalls(es: seq<Event>, order: seq<nat>)
  {
    forall i :: 0 <= i < |order| ==> order[i] < |es| && Enters(es, order[i])
  }

  /** The rows after merging the calls entered at `order`, one after another. */
  function FoldRows(es: seq<Event>, order: seq<nat>): (rows: map<string, ScopeMemory>)
    requires AreCalls(es, order)
  {
    if order == [] then map[]
    else
      var k := order[|order| - 1];
      MergeRow(FoldRows(es, order[..|order| - 1]), es[k].payload.qualname, CallMemory(es, k))
  }

  lemma FoldRowsMore(es: seq<Event>, order: seq<nat>, k: nat)
    requires AreCalls(es, order) && k < |es| && Enters(es, k)
    ensures AreCalls(es, order + [k])
    ensures FoldRows(es, order + [k]) == MergeRow(FoldRows(es, order), es[k].payload.qualname, CallMemory(es, k))
  {
    hide MergeRow, CallMemory;
    assert (order + [k])[..|order|] == order;
  }

  /** Merged in any order, calls leave each name's largest peak and growth, the rest from a call with that peak. */
  lemma {:induction false} FoldSummarizes(es: seq<Event>, order: seq<nat>)
    requires AreCalls(es, order)
    ensures Summarizes(FoldRows(es, order), es, order)
    decreases |order|
  {
    hide MergeRow, CallMemory, RowHolds;
    if order != [] {
      var init, k := order[..|order| - 1], order[|order| - 1];
      FoldSummarizes(es, init);
      SummarizesMore(FoldRows(es, init), es, init, k);
      assert order == init + [k];
    }
  }

  /** The first call, in the order of merging, with the row's peak, and no earlier one with as large a peak. */
  ghost predicate FirstPeak(es: seq<Event>, order: seq<nat>, q: string, row: ScopeMemory, i: nat)
    requires AreCalls(es, order)
  {
    && i < |order| && IsCall(es, order[i], q) && row == CallMemory(es, order[i]).(growth := row.growth)
    && forall j :: 0 <= j < i && IsCall(es, order[j], q) ==> CallMemory(es, order[j]).peak < row.peak
  }

  /** Of calls with the same peak the first merged keeps its figures. */
  lemma {:induction false} FirstPeakWins(es: seq<Event>, order: seq<nat>, q: string) returns (i: nat)
    requires AreCalls(es, order) && q in FoldRows(es, order)
    ensures FirstPeak(es, order, q, FoldRows(es, order)[q], i)
    decreases |order|
  {
    hide CallMemory, MergeRow;
    var init, k := order[..|order| - 1], order[|order| - 1];
    var before := FoldRows(es, init);
    MergedRow(before, es[k].payload.qualname, CallMemory(es, k), q);
    FoldSummarizes(es, init);
    if q in before {
      i := FirstPeakWins(es, init, q);
      if es[k].payload.qualname == q && CallMemory(es, k).peak > before[q].peak {
        i := |order| - 1;
        forall j | 0 <= j < i && IsCall(es, order[j], q)
          ensures CallMemory(es, order[j]).peak < CallMemory(es, k).peak
        {
          assert order[j] == init[j] && init[j] in init;
        }
      }
    } else {
      i := |order| - 1;
      forall j | 0 <= j < i
        ensures !IsCall(es, order[j], q)
      {
        assert order[j] == init[j] && init[j] in init;
      }
    }
  }

  lemma MergedRow(rows: map<string, ScopeMemory>, name: string, m: ScopeMemory, q: string)
    ensures var next := MergeRow(rows, name, m);
            && (q in next <==> q in rows || q == name)
            && (q in rows && q != name ==> next[q] == rows[q])
            && (q == name && q !in rows ==> next[q] == m)
            && (q == name && q in rows && m.peak > rows[q].peak ==> next[q] == m.(growth := next[q].growth))
            && (q == name && q in rows && m.peak <= rows[q].peak ==> next[q] == rows[q].(growth := next[q].growth))
  {
  }

  /** The call has returned, and its grace was over at the event at `n`. */
  predicate Expired(es: seq<Event>, k: nat, n: nat)
  {
    && k < n < |es| && Enters(es, k)
    && StateOf(es, k, n).Closed? && Deadline(es, StateOf(es, k, n).at) < es[n].ts
  }

  lemma ExpiredStays(es: seq<Event>, k: nat, n: nat, m: nat)
    requires Timely(es) && Expired(es, k, n) && n <= m < |es|
    ensures Expired(es, k, m)
  {
    hide CallAccum;
    FrozenAfterDeadline(es, k, n, m);
  }

  /** Calls are finished in the order their grace ended, then those still in grace, then those still open. */
  ghost predicate InFinishingOrder(es: seq<Event>, order: seq<nat>)
    requires AreCalls(es, order)
  {
    && (forall i, j, n :: 0 <= i < j < |order| && Expired(es, order[j], n) ==> Expired(es, order[i], n))
    && (forall i, j :: 0 <= i < j < |order| && StateOf(es, order[i], |es|).Open? ==> StateOf(es, order[j], |es|).Open?)
  }

  // ----- what the definitions say -----

  /** Of two entries of one id, the inner closes first. */
  lemma {:induction false} InnerClosesFirst(es: seq<Event>, outer: nat, inner: nat, n: nat)
    requires outer < inner < n <= |es| && Enters(es, outer) && Enters(es, inner)
    requires es[outer].payload.call == es[inner].payload.call && StateOf(es, inner, n).Open?
    ensures match StateOf(es, outer, n)
            case Open(above) => above > StateOf(es, inner, n).above
            case Closed(at) => at < inner
    decreases n
  {
    if n > inner + 1 {
      InnerClosesFirst(es, outer, inner, n - 1);
    }
  }

  /** A return closes at most one call, and only one of the id it names: orphan and out-of-order returns
      leave every other call alone. */
  lemma {:induction false} ReturnClosesOneCall(es: seq<Event>, a: nat, b: nat, n: nat)
    requires a < b < n <= |es| && Enters(es, a) && Enters(es, b)
    requires StateOf(es, a, n).Closed? && StateOf(es, b, n).Closed?
    ensures StateOf(es, a, n).at != StateOf(es, b, n).at
    decreases n
  {
    if n > b + 1 && es[a].payload.call == es[b].payload.call {
      if StateOf(es, a, n - 1).Closed? && StateOf(es, b, n - 1).Closed? {
        ReturnClosesOneCall(es, a, b, n - 1);
      } else if StateOf(es, b, n - 1).Open? {
        InnerClosesFirst(es, a, b, n - 1);
      }
    }
  }

  /** What was sampled while the call was open comes first among what counts for it. */
  lemma {:induction false} OpenSamplesComeFirst(es: seq<Event>, k: nat, n: nat)
    requires k < n <= |es| && Enters(es, k)
    ensures WhileOpen(es, k, n) <= Credits(es, k, n)
    ensures StateOf(es, k, n).Open? ==> WhileOpen(es, k, n) == Credits(es, k, n)
    decreases n
  {
    if n > k + 1 {
      OpenSamplesComeFirst(es, k, n - 1);
    }
  }

  /** Growth is the largest rise above the first sample while the call was open, and nothing when its first
      sample came after its return. */
  lemma GrowthIsTheRiseWhileOpen(es: seq<Event>, k: nat)
    requires k < |es| && Enters(es, k)
    ensures var open := WhileOpen(es, k, |es|);
            CallMemory(es, k).growth == if open == [] then 0 else MaxOf(open) - open[0]
  {
    hide StateOf, WhileOpen, Credits;
    OpenSamplesComeFirst(es, k, |es|);
  }
}
