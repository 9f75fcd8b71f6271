/** Time windows built from the event stream, and the searches over them. */
module Windows {
  import opened Bytes
  import opened Events
  import opened Sorting

  const ASYNC_GRACE_NS: u64 := 500_000_000

  // ----- open and close, told backwards -----

  /** What an event does to the id slots of one kind of lifetime. */
  datatype Role = Opens(id: u64) | Closes(id: u64) | Neither

  /** The event holding `id` open just before position `k`: the latest event touching `id`
      decides. This is the reference for every "insert on open, remove on close" map. */
  function OpenAt(events: seq<Event>, k: nat, role: Payload -> Role, id: u64): (r: Option<nat>)
    requires k <= |events|
    ensures r.Some? ==> r.value < k && role(events[r.value].payload) == Opens(id)
  {
    if k == 0 then None
    else match role(events[k - 1].payload)
      case Opens(x) => if x == id then Some(k - 1) else OpenAt(events, k - 1, role, id)
      case Closes(x) => if x == id then None else OpenAt(events, k - 1, role, id)
      case Neither => OpenAt(events, k - 1, role, id)
  }

  predicate Enters(events: seq<Event>, k: nat)
    requires k < |events|
  {
    events[k].payload.ModuleEntered?
  }

  /** `iter().rposition(p)`. */
  function RPosition<T>(s: seq<T>, p: T -> bool): (r: Option<nat>)
    ensures r.Some? ==> r.value < |s| && p(s[r.value])
    ensures forall i :: (if r.Some? then r.value else -1) < i < |s| ==> !p(s[i])
  {
    if s == [] then None else if p(s[|s| - 1]) then Some(|s| - 1) else RPosition(s[..|s| - 1], p)
  }

  // ----- eval windows -----

  datatype EvalWindow = EvalWindow(tIn: u64, tOut: u64, seqNo: u64, moduleStack: seq<u64>)

  function EvalRole(p: Payload): (r: Role)
  {
    match p
    case EvalEntered(call, _) => Opens(call)
    case EvalReturned(call, _) => Closes(call)
    case _ => Neither
  }

  function EvalOf(enter: Event, ret: Event): (r: EvalWindow)
    requires enter.payload.EvalEntered? && ret.payload.EvalReturned?
  {
    EvalWindow(
      enter.ts,
      if ret.payload.wasAsync then SatAdd(ret.ts, ASYNC_GRACE_NS) else ret.ts,
      enter.seqNo,
      enter.payload.moduleStack)
  }

  /** One window per return whose call is open, in return order. */
  function EvalList(events: seq<Event>, n: nat): (r: seq<EvalWindow>)
    requires n <= |events|
  {
    if n == 0 then []
    else
      EvalList(events, n - 1)
      + match events[n - 1].payload
        case EvalReturned(call, _) =>
          (match OpenAt(events, n - 1, EvalRole, call)
           case Some(j) => [EvalOf(events[j], events[n - 1])]
           case None => [])
        case _ => []
  }

  function EvalKey(): (r: EvalWindow -> int) { (w: EvalWindow) => w.tIn }

  /** All eval windows of the session, by start. */
  function EvalsOf(events: seq<Event>): (r: seq<EvalWindow>) { StableSort(EvalList(events, |events|), EvalKey()) }

  method EvalWindows(events: seq<Event>) returns (windows: seq<EvalWindow>)
    ensures windows == EvalsOf(events)
  {
    var open: map<u64, EvalWindow> := map[];
    windows := [];
    for i := 0 to |events|
      invariant windows == EvalList(events, i)
      invariant forall id: u64 ::
                  && (id in open <==> OpenAt(events, i, EvalRole, id).Some?)
                  && (id in open ==> var e := events[OpenAt(events, i, EvalRole, id).value];
                        open[id] == EvalWindow(e.ts, e.ts, e.seqNo, e.payload.moduleStack))
    {
      var e := events[i];
      match e.payload {
        case EvalEntered(call, stack) =>
          open := open[call := EvalWindow(e.ts, e.ts, e.seqNo, stack)];
        case EvalReturned(call, wasAsync) =>
          if call in open {
            var w := open[call];
            open := open - {call};
            windows := windows + [w.(tOut := if wasAsync then SatAdd(e.ts, ASYNC_GRACE_NS) else e.ts)];
          }
        case _ =>
      }
    }
    windows := StableSort(windows, EvalKey());
  }

  // ----- scope windows -----

  datatype ScopeWindow = ScopeWindow(tIn: u64, tOut: u64, call: u64, qualname: string)

  function ScopeKey(): (r: ScopeWindow -> int) { (w: ScopeWindow) => w.tIn }

  /** How many entries of `id` are not yet returned. */
  function Depth(events: seq<Event>, k: nat, id: u64): (r: nat)
    requires k <= |events|
  {
    if k == 0 then 0
    else
      var d := Depth(events, k - 1, id);
      match events[k - 1].payload
      case ModuleEntered(x, _, _) => if x == id then d + 1 else d
      case ModuleReturned(x) => if x == id && d > 0 then d - 1 else d
      case _ => d
  }

  function LatestEnter(events: seq<Event>, k: nat, id: u64): (r: Option<nat>)
    requires k <= |events|
    ensures r.Some? ==> r.value < k && events[r.value].payload.ModuleEntered? && events[r.value].payload.call == id
  {
    if k == 0 then None
    else if events[k - 1].payload.ModuleEntered? && events[k - 1].payload.call == id then Some(k - 1)
    else LatestEnter(events, k - 1, id)
  }

  /** The positions of the entries among the first `n` events. */
  function Entries(events: seq<Event>, n: nat): (r: seq<nat>)
    requires n <= |events|
    ensures forall i :: 0 <= i < |r| ==> r[i] < n && events[r[i]].payload.ModuleEntered?
  {
    if n == 0 then []
    else Entries(events, n - 1) + if events[n - 1].payload.ModuleEntered? then [n - 1] else []
  }

  /** A return acts on the latest entry of the id it carries, if that is still open. */
  predicate ClosesEntry(events: seq<Event>, j: nat, i: nat)
    requires i < |events| && j < |events| && events[i].payload.ModuleEntered?
  {
    var e := events[j].payload;
    e.ModuleReturned? && e.call == events[i].payload.call && Depth(events, j, e.call) > 0
    && LatestEnter(events, j, e.call) == Some(i)
  }

  /** When the call entered at `i` ended, going by the first `n` events; `end` when it has not. */
  function TimeOut(events: seq<Event>, n: nat, i: nat, end: u64): (r: u64)
    requires i < |events| && n <= |events| && events[i].payload.ModuleEntered?
  {
    if n <= i + 1 then end
    else if ClosesEntry(events, n - 1, i) then events[n - 1].ts
    else TimeOut(events, n - 1, i, end)
  }

  function WindowAt(events: seq<Event>, n: nat, i: nat, end: u64): (r: ScopeWindow)
    requires i < |events| && n <= |events| && events[i].payload.ModuleEntered?
  {
    ScopeWindow(events[i].ts, TimeOut(events, n, i, end), events[i].payload.call, events[i].payload.qualname)
  }

  function WindowList(events: seq<Event>, n: nat, end: u64): (r: seq<ScopeWindow>)
    requires n <= |events|
  {
    var es := Entries(events, n);
    seq(|es|, p requires 0 <= p < |es| => WindowAt(events, n, es[p], end))
  }

  function EndTs(events: seq<Event>): (r: u64) { if events == [] then 0 else events[|events| - 1].ts }

  /** Returns naming a call never entered, and calls still open. */
  function Malformed(events: seq<Event>, n: nat): (r: (int, int))
    requires n <= |events|
  {
    if n == 0 then (0, 0)
    else
      var (orphans, open) := Malformed(events, n - 1);
      match events[n - 1].payload
      case ModuleEntered(_, _, _) => (orphans, open + 1)
      case ModuleReturned(id) =>
        if Depth(events, n - 1, id) > 0 then (orphans, open - 1)
        else if LatestEnter(events, n - 1, id).None? then (orphans + 1, open)
        else (orphans, open)
      case _ => (orphans, open)
  }

  /** `iter().rposition(|c| c == id)`. */
  function LastIndexOf(s: seq<u64>, id: u64): (r: Option<nat>)
    ensures r.Some? ==> r.value < |s| && s[r.value] == id
    ensures r.None? ==> id !in s
  {
    RPosition(s, (c: u64) => c == id)
  }

  /** Removing one occurrence lowers that id's count by one and no other's. */
  lemma RemoveOne(s: seq<u64>, p: nat)
    requires p < |s|
    ensures forall id: u64 :: multiset(s[..p] + s[p + 1..])[id] == multiset(s)[id] - if id == s[p] then 1 else 0
  {
    assert s == s[..p] + [s[p]] + s[p + 1..];
  }

  /** The open list holds every id as often as it is open. */
  ghost predicate OpenTracks(open: seq<u64>, events: seq<Event>, k: nat)
    requires k <= |events|
  {
    forall id: u64 :: multiset(open)[id] == Depth(events, k, id)
  }

  /** The index names the position of every id's latest entry. */
  ghost predicate IndexTracks(index: map<u64, nat>, events: seq<Event>, k: nat)
    requires k <= |events|
  {
    && (forall id: u64 :: id in index <==> LatestEnter(events, k, id).Some?)
    && (forall id: u64 :: id in index ==>
          index[id] < |Entries(events, k)| && Entries(events, k)[index[id]] == LatestEnter(events, k, id).value)
  }

  lemma OpenTracksEntry(open: seq<u64>, events: seq<Event>, k: nat)
    requires k < |events| && OpenTracks(open, events, k) && events[k].payload.ModuleEntered?
    ensures OpenTracks(open + [events[k].payload.call], events, k + 1)
  {
  }

  lemma OpenTracksReturn(open: seq<u64>, events: seq<Event>, k: nat, pos: Option<nat>)
    requires k < |events| && OpenTracks(open, events, k) && events[k].payload.ModuleReturned?
    requires pos == LastIndexOf(open, events[k].payload.call)
    ensures pos.Some? <==> Depth(events, k, events[k].payload.call) > 0
    ensures pos.Some? ==> OpenTracks(open[..pos.value] + open[pos.value + 1..], events, k + 1)
    ensures pos.None? ==> OpenTracks(open, events, k + 1)
  {
    var id := events[k].payload.call;
    assert multiset(open)[id] == Depth(events, k, id);
    assert id in open <==> multiset(open)[id] > 0;
    if pos.Some? {
      RemoveOne(open, pos.value);
      var rest: seq<u64> := open[..pos.value] + open[pos.value + 1..];
      forall other: u64
        ensures multiset(rest)[other] == Depth(events, k + 1, other)
      {
        assert multiset(open)[other] == Depth(events, k, other);
      }
    }
  }

  lemma OpenTracksOther(open: seq<u64>, events: seq<Event>, k: nat)
    requires k < |events| && OpenTracks(open, events, k)
    requires !events[k].payload.ModuleEntered? && !events[k].payload.ModuleReturned?
    ensures OpenTracks(open, events, k + 1)
  {
  }

  lemma IndexTracksStep(index: map<u64, nat>, events: seq<Event>, k: nat)
    requires k < |events| && IndexTracks(index, events, k)
    ensures IndexTracks(
              if events[k].payload.ModuleEntered? then index[events[k].payload.call := |Entries(events, k)|] else index,
              events, k + 1)
  {
  }

  lemma WindowListAtEntry(events: seq<Event>, k: nat, end: u64)
    requires k < |events| && events[k].payload.ModuleEntered?
    ensures WindowList(events, k + 1, end) ==
            WindowList(events, k, end) + [ScopeWindow(events[k].ts, end, events[k].payload.call,
                events[k].payload.qualname)]
  {
    var es := Entries(events, k);
    forall p | 0 <= p < |es|
      ensures WindowAt(events, k + 1, es[p], end) == WindowAt(events, k, es[p], end)
    {
    }
  }

  lemma WindowListAtReturn(events: seq<Event>, k: nat, end: u64, index: map<u64, nat>)
    requires k < |events| && events[k].payload.ModuleReturned? && IndexTracks(index, events, k)
    ensures var id := events[k].payload.call;
            var ws := WindowList(events, k, end);
            WindowList(events, k + 1, end) ==
            if Depth(events, k, id) > 0 && id in index then ws[index[id] := ws[index[id]].(tOut := events[k].ts)]
                else ws
  {
    hide Depth;
    var id := events[k].payload.call;
    var es := Entries(events, k);
    forall p | 0 <= p < |es|
      ensures ClosesEntry(events, k, es[p]) <==> Depth(events, k, id) > 0 && id in index && p == index[id]
      ensures WindowAt(events, k + 1, es[p], end) ==
              if ClosesEntry(events, k, es[p]) then WindowAt(events, k, es[p], end).(tOut := events[k].ts)
              else WindowAt(events, k, es[p], end)
    {
      EntriesAreDistinct(events, k);
    }
  }

  lemma {:induction false} EntriesAreDistinct(events: seq<Event>, n: nat)
    requires n <= |events|
    ensures forall p, q :: 0 <= p < q < |Entries(events, n)| ==> Entries(events, n)[p] < Entries(events, n)[q]
  {
    if n > 0 {
      EntriesAreDistinct(events, n - 1);
    }
  }

  lemma WindowListOther(events: seq<Event>, k: nat, end: u64)
    requires k < |events| && !events[k].payload.ModuleEntered? && !events[k].payload.ModuleReturned?
    ensures WindowList(events, k + 1, end) == WindowList(events, k, end)
  {
    var es := Entries(events, k);
    forall p | 0 <= p < |es|
      ensures WindowAt(events, k + 1, es[p], end) == WindowAt(events, k, es[p], end)
    {
    }
  }

  /** All scope windows of the session, by start. */
  function WindowsOf(events: seq<Event>): (r: seq<ScopeWindow>)
  {
    StableSort(WindowList(events, |events|, EndTs(events)), ScopeKey())
  }

  method ScopeWindows(events: seq<Event>) returns (windows: seq<ScopeWindow>, malformed: int)
    ensures windows == WindowsOf(events)
    ensures malformed == Malformed(events, |events|).0 + Malformed(events, |events|).1
  {
    hide WindowList, OpenTracks, Depth, LastIndexOf;
    var end := EndTs(events);
    windows, malformed := [], 0;
    var index: map<u64, nat>, open: seq<u64> := map[], [];
    NothingTracked(events, end);
    for i := 0 to |events|
      invariant windows == WindowList(events, i, end) && |windows| == |Entries(events, i)|
      invariant OpenTracks(open, events, i) && IndexTracks(index, events, i)
      invariant (malformed, |open|) == Malformed(events, i)
    {
      var e := events[i];
      IndexTracksStep(index, events, i);
      match e.payload {
        case ModuleEntered(id, qualname, _) =>
          WindowListAtEntry(events, i, end);
          OpenTracksEntry(open, events, i);
          index := index[id := |windows|];
          open := open + [id];
          windows := windows + [ScopeWindow(e.ts, end, id, qualname)];
        case ModuleReturned(id) =>
          WindowListAtReturn(events, i, end, index);
          var pos := LastIndexOf(open, id);
          OpenTracksReturn(open, events, i, pos);
          if pos.Some? {
            open := open[..pos.value] + open[pos.value + 1..];
            if id in index {
              windows := windows[index[id] := windows[index[id]].(tOut := e.ts)];
            }
          } else if id !in index {
            malformed := malformed + 1;
          }
        case _ =>
          WindowListOther(events, i, end);
          OpenTracksOther(open, events, i);
      }
    }
    malformed := malformed + |open|;
    windows := StableSort(windows, ScopeKey());
  }

  lemma NothingTracked(events: seq<Event>, end: u64)
    ensures WindowList(events, 0, end) == [] && OpenTracks([], events, 0)
  {
  }

  /** With distinct call ids, a call's window ends at the first return naming it, or at the end of the session. */
  lemma {:induction false} DistinctCallEndsAtFirstReturn(events: seq<Event>, n: nat, i: nat, j: nat, end: u64)
    requires i < j < n <= |events| && events[i].payload.ModuleEntered?
    requires forall a, b ::
               0 <= a < b < |events| && events[a].payload.ModuleEntered? && events[b].payload.ModuleEntered?
               ==> events[a].payload.call != events[b].payload.call
    requires events[j].payload == ModuleReturned(events[i].payload.call)
    requires forall k :: i < k < j ==> events[k].payload != ModuleReturned(events[i].payload.call)
    ensures TimeOut(events, n, i, end) == events[j].ts
    decreases n
  {
    var id := events[i].payload.call;
    OneOpenEntry(events, n - 1, i, j);
    if n > j + 1 {
      DistinctCallEndsAtFirstReturn(events, n - 1, i, j, end);
    }
  }

  lemma {:induction false} OneOpenEntry(events: seq<Event>, k: nat, i: nat, j: nat)
    requires i < j < |events| && events[i].payload.ModuleEntered? && k <= |events|
    requires forall a, b ::
               0 <= a < b < |events| && events[a].payload.ModuleEntered? && events[b].payload.ModuleEntered?
               ==> events[a].payload.call != events[b].payload.call
    requires events[j].payload == ModuleReturned(events[i].payload.call)
    requires forall m :: i < m < j ==> events[m].payload != ModuleReturned(events[i].payload.call)
    ensures var id := events[i].payload.call;
            && Depth(events, k, id) == (if i < k <= j then 1 else 0)
            && LatestEnter(events, k, id) == (if i < k then Some(i) else None)
  {
    if k > 0 {
      OneOpenEntry(events, k - 1, i, j);
    }
  }

  /** Whether `ts` lies within the window and its grace tail. */
  predicate Covers(w: ScopeWindow, ts: u64)
  {
    w.tIn <= ts <= SatAdd(w.tOut, ASYNC_GRACE_NS)
  }

  /** The definition: the last window, in start order, that covers `ts`. */
  function LastCovering(ws: seq<ScopeWindow>, ts: u64): (r: Option<nat>)
    ensures r.Some? ==> r.value < |ws| && Covers(ws[r.value], ts)
    ensures r.Some? ==> forall i :: r.value < i < |ws| ==> !Covers(ws[i], ts)
    ensures r.None? ==> forall i :: 0 <= i < |ws| ==> !Covers(ws[i], ts)
  {
    if ws == [] then None
    else if Covers(ws[|ws| - 1], ts) then Some(|ws| - 1)
    else LastCovering(ws[..|ws| - 1], ts)
  }

  /** Walks non-decreasing timestamps over windows sorted by start. */
  class ScopeSweep {
    const windows: seq<ScopeWindow>
    var next: nat
    var stack: seq<nat>
    /** The last timestamp asked for. */
    ghost var last: u64

    /** Every window entered but no longer on the stack expired before `last`. */
    ghost predicate Valid()
      reads this
    {
      && SortedBy(windows, ScopeKey()) && next <= |windows|
      && (forall i :: 0 <= i < next ==> windows[i].tIn <= last)
      && (forall i :: 0 <= i < |stack| ==> stack[i] < next)
      && (forall i, j :: 0 <= i < j < |stack| ==> stack[i] < stack[j])
      && (forall w :: 0 <= w < next && w !in stack ==> SatAdd(windows[w].tOut, ASYNC_GRACE_NS) < last)
    }

    constructor (windows: seq<ScopeWindow>)
      requires SortedBy(windows, ScopeKey())
      ensures Valid() && this.windows == windows && last == 0
    {
      this.windows := windows;
      next, stack, last := 0, [], 0;
    }

    /** Push every window entered by `ts`. */
    method Enter(ts: u64)
      requires Valid() && last <= ts
      modifies this
      ensures Valid() && last == ts
      ensures forall i :: next <= i < |windows| ==> ts < windows[i].tIn
    {
      last := ts;
      while next < |windows| && windows[next].tIn <= ts
        invariant Valid() && last == ts
        decreases |windows| - next
      {
        ghost var before := stack;
        stack := stack + [next];
        next := next + 1;
        forall w | 0 <= w < next && w !in stack
          ensures w < next - 1 && w !in before
        {
          assert stack[|before|] == next - 1;
        }
      }
      if next < |windows| {
        forall i | next <= i < |windows|
          ensures ts < windows[i].tIn
        {
          assert ScopeKey()(windows[next]) <= ScopeKey()(windows[i]);
        }
      }
    }

    /** Pop expired windows off the top. */
    method Expire(ts: u64)
      requires Valid() && last == ts
      modifies this`stack
      ensures Valid()
      ensures stack != [] ==> SatAdd(windows[stack[|stack| - 1]].tOut, ASYNC_GRACE_NS) >= last
    {
      while stack != [] && SatAdd(windows[stack[|stack| - 1]].tOut, ASYNC_GRACE_NS) < ts
        invariant Valid()
        decreases |stack|
      {
        ghost var before, top := stack, stack[|stack| - 1];
        stack := stack[..|stack| - 1];
        assert before == stack + [top];
        forall w | 0 <= w < next && w !in stack
          ensures w == top || w !in before
        {
        }
      }
    }

    /** The stack sweep gives what the full search gives, even when windows do not nest. */
    method InnermostAt(ts: u64) returns (r: Option<nat>)
      requires Valid() && last <= ts
      modifies this
      ensures Valid() && last == ts
      ensures r == LastCovering(windows, ts)
    {
      hide SortedBy, LastCovering;
      Enter(ts);
      Expire(ts);
      r := if stack == [] then None else Some(stack[|stack| - 1]);
      forall i | (if r.Some? then r.value else -1) < i < |windows|
        ensures !Covers(windows[i], ts)
      {
        if i < next {
          NotAboveTheTop(stack, i);
        }
      }
      LastCoveringIsUnique(windows, ts, r);
    }
  }

  lemma NotAboveTheTop(stack: seq<nat>, i: nat)
    requires forall a, b :: 0 <= a < b < |stack| ==> stack[a] < stack[b]
    requires stack != [] ==> stack[|stack| - 1] < i
    ensures i !in stack
  {
  }

  lemma LastCoveringIsUnique(ws: seq<ScopeWindow>, ts: u64, r: Option<nat>)
    requires r.Some? ==> r.value < |ws| && Covers(ws[r.value], ts)
    requires forall i :: (if r.Some? then r.value else -1) < i < |ws| ==> !Covers(ws[i], ts)
    ensures r == LastCovering(ws, ts)
  {
  }

  /** The window that starts last among those that contain `ts`. */
  function EvalAt(ws: seq<EvalWindow>, ts: u64): (r: Option<nat>)
    ensures r.Some? ==> r.value < |ws| && ws[r.value].tIn <= ts <= ws[r.value].tOut
    ensures forall i :: (if r.Some? then r.value else -1) < i < |ws| ==> !(ws[i].tIn <= ts <= ws[i].tOut)
  {
    if ws == [] then None
    else if ws[|ws| - 1].tIn <= ts <= ws[|ws| - 1].tOut then Some(|ws| - 1)
    else EvalAt(ws[..|ws| - 1], ts)
  }
}
