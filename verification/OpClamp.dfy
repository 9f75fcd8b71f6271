/** Per-buffer serialization clamp: op times of a command buffer never exceed the time its
    queue gave it. Scale factors are exact ratios; a scaled time is rounded down. */
module OpClamp {
  import opened Arithmetic
  import opened Bytes
  import opened Events
  import opened Windows

  function SchedRole(p: Payload): (r: Role)
  {
    match p
    case CbScheduled(cb, _) => Opens(cb)
    case CbCompleted(cb, _, _) => Closes(cb)
    case _ => Neither
  }

  /** When the queue last completed a buffer, before position `k`. */
  function LastDone(events: seq<Event>, k: nat, queue: u64): (r: Option<u64>)
    requires k <= |events|
  {
    if k == 0 then None
    else if events[k - 1].payload.CbCompleted? && events[k - 1].payload.queue == queue then Some(events[k - 1].ts)
    else LastDone(events, k - 1, queue)
  }

  function OrZero(t: Option<u64>): (r: u64) { match t case Some(x) => x case None => 0 }

  /** The scheduling event of the lifetime that completes at `k`. */
  function SchedOf(events: seq<Event>, k: nat): (r: Option<nat>)
    requires k < |events|
    ensures r.Some? ==> events[k].payload.CbCompleted? && r.value < k
  {
    if events[k].payload.CbCompleted? then OpenAt(events, k, SchedRole, events[k].payload.cb) else None
  }

  /** The time the completion at `k` had its queue to itself: from its scheduling, or the queue's
      previous completion if later, to its own completion. */
  function WindowLen(events: seq<Event>, k: nat): (r: nat)
    requires k < |events| && SchedOf(events, k).Some?
  {
    SatSub(events[k].ts, Max(events[SchedOf(events, k).value].ts, OrZero(LastDone(events, k, events[k].payload.queue))))
  }

  /** The completion whose window the next ops event of `cb` will consume: the latest event of
      that buffer decides, and an ops event leaves nothing behind. */
  function PendingWindow(events: seq<Event>, k: nat, cb: u64): (r: Option<nat>)
    requires k <= |events|
    ensures r.Some? ==> r.value < k && SchedOf(events, r.value).Some? && events[r.value].payload.cb == cb
  {
    if k == 0 then None
    else match events[k - 1].payload
      case CbCompleted(x, _, _) =>
        if x == cb then (if SchedOf(events, k - 1).Some? then Some(k - 1) else None)
            else PendingWindow(events, k - 1, cb)
      case CbOps(x, _) => if x == cb then None else PendingWindow(events, k - 1, cb)
      case _ => PendingWindow(events, k - 1, cb)
  }

  function SumGpu(ops: seq<OpSample>): (r: nat)
  {
    if ops == [] then 0 else SumGpu(ops[..|ops| - 1]) + ops[|ops| - 1].gpuNs
  }

  /** `window / sum`, applied only when the op sum exceeds the window. */
  datatype Scale = Scale(window: nat, sum: nat)

  function ScaleAt(events: seq<Event>, j: nat): (r: Option<Scale>)
    requires j < |events|
    ensures r.Some? ==> r.value.window < r.value.sum
  {
    match events[j].payload
    case CbOps(cb, ops) =>
      (match PendingWindow(events, j, cb)
       case Some(k) =>
         var w, s := WindowLen(events, k), SumGpu(ops);
         if s > w then Some(Scale(w, s)) else None
       case None => None)
    case _ => None
  }

  function ApplyScale(s: Option<Scale>, gpuNs: nat): (r: nat)
  {
    match s
    case Some(f) => if f.sum == 0 then gpuNs else gpuNs * f.window / f.sum
    case None => gpuNs
  }

  // ----- the state machine -----

  ghost predicate TracksSched(m: map<u64, u64>, events: seq<Event>, k: nat)
    requires k <= |events|
  {
    && (forall id: u64 :: id in m <==> OpenAt(events, k, SchedRole, id).Some?)
    && (forall id: u64 :: id in m ==> m[id] == events[OpenAt(events, k, SchedRole, id).value].ts)
  }

  ghost predicate TracksDone(m: map<u64, u64>, events: seq<Event>, k: nat)
    requires k <= |events|
  {
    && (forall q: u64 :: q in m <==> LastDone(events, k, q).Some?)
    && (forall q: u64 :: q in m ==> m[q] == LastDone(events, k, q).value)
  }

  ghost predicate TracksWindow(m: map<u64, nat>, events: seq<Event>, k: nat)
    requires k <= |events|
  {
    && (forall cb: u64 :: cb in m <==> PendingWindow(events, k, cb).Some?)
    && (forall cb: u64 :: cb in m ==> m[cb] == WindowLen(events, PendingWindow(events, k, cb).value))
  }

  lemma SchedStep(m: map<u64, u64>, events: seq<Event>, k: nat)
    requires k < |events| && TracksSched(m, events, k)
    ensures TracksSched(
              match events[k].payload
              case CbScheduled(cb, _) => m[cb := events[k].ts]
              case CbCompleted(cb, _, _) => m - {cb}
              case _ => m, events, k + 1)
  {
  }

  lemma DoneStep(m: map<u64, u64>, events: seq<Event>, k: nat)
    requires k < |events| && TracksDone(m, events, k)
    ensures TracksDone(
              if events[k].payload.CbCompleted? then m[events[k].payload.queue := events[k].ts] else m, events, k + 1)
  {
  }

  lemma WindowStep(m: map<u64, nat>, events: seq<Event>, k: nat)
    requires k < |events| && TracksWindow(m, events, k)
    ensures TracksWindow(
              match events[k].payload
              case CbCompleted(cb, _, _) => if SchedOf(events, k).Some? then m[cb := WindowLen(events, k)] else m - {cb}
              case CbOps(cb, _) => m - {cb}
              case _ => m, events, k + 1)
  {
    hide WindowLen, OpenAt;
  }

  class OpClampState {
    var lastSched: map<u64, u64>
    var queueLastDone: map<u64, u64>
    /** The window of a buffer's latest completion, consumed by the ops event that follows it. */
    var windowForCb: map<u64, nat>
    ghost const session: seq<Event>
    ghost var at: nat

    ghost predicate Valid()
      reads this
    {
      && at <= |session| && TracksSched(lastSched, session, at)
      && TracksDone(queueLastDone, session, at) && TracksWindow(windowForCb, session, at)
    }

    constructor (ghost session: seq<Event>)
      ensures Valid() && this.session == session && at == 0
    {
      this.session := session;
      lastSched, queueLastDone, windowForCb, at := map[], map[], map[], 0;
    }

    /** Feed the next event of the session. */
    method Observe(ev: Event) returns (r: Option<Scale>)
      requires Valid() && at < |session| && ev == session[at]
      modifies this
      ensures Valid() && at == old(at) + 1
      ensures r == ScaleAt(session, old(at))
    {
      hide SumGpu, OpenAt, LastDone, PendingWindow;
      SchedStep(lastSched, session, at);
      DoneStep(queueLastDone, session, at);
      WindowStep(windowForCb, session, at);
      r := None;
      match ev.payload {
        case CbScheduled(cb, _) =>
          lastSched := lastSched[cb := ev.ts];
        case CbCompleted(cb, queue, _) =>
          var done := ev.ts;
          if cb in lastSched {
            var start := Max(lastSched[cb], if queue in queueLastDone then queueLastDone[queue] else 0);
            windowForCb := windowForCb[cb := SatSub(done, start)];
          } else {
            windowForCb := windowForCb - {cb};
          }
          lastSched := lastSched - {cb};
          queueLastDone := queueLastDone[queue := done];
        case CbOps(cb, ops) =>
          if cb in windowForCb {
            var window, sum := windowForCb[cb], SumGpu(ops);
            if sum > window {
              r := Some(Scale(window, sum));
            }
          }
          windowForCb := windowForCb - {cb};
        case _ =>
      }
      at := at + 1;
    }
  }

  function ScalesUpTo(events: seq<Event>, n: nat): (r: map<u64, Scale>)
    requires n <= |events|
  {
    if n == 0 then map[]
    else match ScaleAt(events, n - 1)
      case Some(s) => ScalesUpTo(events, n - 1)[events[n - 1].seqNo := s]
      case None => ScalesUpTo(events, n - 1)
  }

  method ComputeOpTimeScales(events: seq<Event>) returns (scales: map<u64, Scale>)
    ensures scales == ScalesUpTo(events, |events|)
  {
    hide ScaleAt, TracksSched, TracksDone, TracksWindow;
    var state := new OpClampState(events);
    scales := map[];
    for i := 0 to |events|
      invariant state.Valid() && state.session == events && state.at == i && fresh(state)
      invariant scales == ScalesUpTo(events, i)
    {
      var scale := state.Observe(events[i]);
      if scale.Some? {
        scales := scales[events[i].seqNo := scale.value];
      }
    }
  }

  function Lookup(scales: map<u64, Scale>, seqNo: u64): (r: Option<Scale>)
  {
    if seqNo in scales then Some(scales[seqNo]) else None
  }

  function ScaleOp(s: Option<Scale>, op: OpSample): (r: OpSample)
  {
    op.(gpuNs := ApplyScale(s, op.gpuNs),
        apportioned := match op.apportioned case Some(a) => Some(ApplyScale(s, a)) case None => None)
  }

  function ScaleOps(s: Option<Scale>, ops: seq<OpSample>): (r: seq<OpSample>)
    ensures |r| == |ops|
    ensures forall i :: 0 <= i < |ops| ==> r[i] == ScaleOp(s, ops[i])
  {
    seq(|ops|, i requires 0 <= i < |ops| => ScaleOp(s, ops[i]))
  }

  function ScaleEvent(scales: map<u64, Scale>, e: Event): (r: Event)
  {
    match e.payload
    case CbOps(cb, ops) => e.(payload := CbOps(cb, ScaleOps(Lookup(scales, e.seqNo), ops)))
    case _ => e
  }

  function ScaleEvents(scales: map<u64, Scale>, events: seq<Event>): (r: seq<Event>)
    ensures |r| == |events|
    ensures forall i :: 0 <= i < |events| ==> r[i] == ScaleEvent(scales, events[i])
  {
    seq(|events|, i requires 0 <= i < |events| => ScaleEvent(scales, events[i]))
  }

  // ----- scaling, told without a quotient -----

  /** `x` is `g` scaled down by `window / sum`, rounded down. */
  predicate ScaledDown(g: nat, x: nat, window: nat, sum: nat)
  {
    x * sum <= g * window < (x + 1) * sum
  }

  /** Ops of which each time is scaled down, and nothing else changed but the apportioned part, which is scaled
      alike. */
  ghost predicate AllScaledDown(before: seq<OpSample>, after: seq<OpSample>, window: nat, sum: nat)
  {
    && |after| == |before|
    && forall p :: 0 <= p < |before| ==>
         && ScaledDown(before[p].gpuNs, after[p].gpuNs, window, sum)
         && after[p] == before[p].(gpuNs := after[p].gpuNs, apportioned := after[p].apportioned)
         && match (before[p].apportioned, after[p].apportioned)
            case (None, None) => true
            case (Some(a), Some(b)) => ScaledDown(a, b, window, sum)
            case _ => false
  }

  lemma QuotientIsScaledDown(g: nat, f: Scale)
    requires f.sum > 0
    ensures ScaledDown(g, ApplyScale(Some(f), g), f.window, f.sum)
  {
    FloorScaleFits(g, f.window, f.sum);
    FloorScaleReaches(g * f.window, f.sum);
  }

  lemma FloorScaleReaches(a: nat, b: nat)
    requires b > 0
    ensures a < (a / b + 1) * b
  {
  }

  lemma OpsAreScaledDown(ops: seq<OpSample>, f: Scale)
    requires f.sum > 0
    ensures AllScaledDown(ops, ScaleOps(Some(f), ops), f.window, f.sum)
  {
    hide ApplyScale, ScaledDown;
    forall p | 0 <= p < |ops|
      ensures ScaledDown(ops[p].gpuNs, ApplyScale(Some(f), ops[p].gpuNs), f.window, f.sum)
      ensures ops[p].apportioned.Some? ==>
                ScaledDown(ops[p].apportioned.value, ApplyScale(Some(f), ops[p].apportioned.value), f.window, f.sum)
    {
      QuotientIsScaledDown(ops[p].gpuNs, f);
      if ops[p].apportioned.Some? {
        QuotientIsScaledDown(ops[p].apportioned.value, f);
      }
    }
  }

  lemma ScaledByNothing(ops: seq<OpSample>)
    ensures ScaleOps(None, ops) == ops
  {
    forall p | 0 <= p < |ops|
      ensures ScaleOp(None, ops[p]) == ops[p]
    {
    }
  }

  /** An ops event with a factor has its times scaled down; every other event is as it was. */
  ghost predicate Rewritten(scales: map<u64, Scale>, before: Event, after: Event)
  {
    if before.payload.CbOps? && before.seqNo in scales then
      var f := scales[before.seqNo];
      && after.payload.CbOps? && after == before.(payload := CbOps(before.payload.cb, after.payload.ops))
      && (f.sum > 0 ==> AllScaledDown(before.payload.ops, after.payload.ops, f.window, f.sum))
    else after == before
  }

  lemma EachIsRewritten(scales: map<u64, Scale>, before: seq<Event>, after: seq<Event>)
    requires after == ScaleEvents(scales, before)
    ensures forall k :: 0 <= k < |before| ==> Rewritten(scales, before[k], after[k])
  {
    hide ScaleOps, AllScaledDown;
    forall k | 0 <= k < |before|
      ensures Rewritten(scales, before[k], after[k])
    {
      if before[k].payload.CbOps? {
        ScaledByNothing(before[k].payload.ops);
        if before[k].seqNo in scales && scales[before[k].seqNo].sum > 0 {
          OpsAreScaledDown(before[k].payload.ops, scales[before[k].seqNo]);
        }
      }
    }
  }

  /** Rewrites op times in place; events without a factor keep their raw values. */
  method ApplyOpTimeScales(events: array<Event>, scales: map<u64, Scale>)
    modifies events
    ensures events[..] == ScaleEvents(scales, old(events[..]))
    ensures forall k :: 0 <= k < events.Length ==> Rewritten(scales, old(events[..])[k], events[k])
  {
    for i := 0 to events.Length
      invariant forall k :: 0 <= k < i ==> events[k] == ScaleEvent(scales, old(events[..])[k])
      invariant forall k :: i <= k < events.Length ==> events[k] == old(events[..])[k]
    {
      var e := events[i];
      match e.payload {
        case CbOps(cb, ops) =>
          if e.seqNo in scales {
            var s := Some(scales[e.seqNo]);
            var out := ops;
            for p := 0 to |ops|
              invariant |out| == |ops|
              invariant forall k :: 0 <= k < p ==> out[k] == ScaleOp(s, ops[k])
              invariant forall k :: p <= k < |ops| ==> out[k] == ops[k]
            {
              out := out[p := ScaleOp(s, out[p])];
            }
            assert out == ScaleOps(s, ops);
            events[i] := e.(payload := CbOps(cb, out));
          } else {
            assert ScaleOps(None, ops) == ops;
          }
        case _ =>
      }
    }
    EachIsRewritten(scales, old(events[..]), events[..]);
  }

  // ----- each event gets its own factor -----

  /** Factors are keyed by sequence number, so ops events must not share one. */
  ghost predicate DistinctOpsSeq(events: seq<Event>)
  {
    forall i, j :: 0 <= i < j < |events| && events[i].payload.CbOps? && events[j].payload.CbOps? ==>
          events[i].seqNo != events[j].seqNo
  }

  lemma {:induction false} FactorIsItsOwn(events: seq<Event>, n: nat, j: nat)
    requires DistinctOpsSeq(events) && n <= |events| && j < |events| && events[j].payload.CbOps?
    ensures Lookup(ScalesUpTo(events, n), events[j].seqNo) == if j < n then ScaleAt(events, j) else None
  {
    hide PendingWindow, WindowLen, SumGpu;
    if n > 0 {
      FactorIsItsOwn(events, n - 1, j);
    }
  }

  // ----- a scaled buffer fits its window -----

  lemma {:induction false} ScaledSumFits(ops: seq<OpSample>, f: Scale)
    requires f.sum > 0
    ensures SumGpu(ScaleOps(Some(f), ops)) * f.sum <= SumGpu(ops) * f.window
    decreases |ops|
  {
    if ops != [] {
      var init, g := ops[..|ops| - 1], ops[|ops| - 1].gpuNs;
      ScaledSumFits(init, f);
      assert ScaleOps(Some(f), ops)[..|ops| - 1] == ScaleOps(Some(f), init);
      FloorScaleFits(g, f.window, f.sum);
      Distribute(SumGpu(ScaleOps(Some(f), init)), g * f.window / f.sum, f.sum);
      Distribute(SumGpu(init), g, f.window);
    }
  }

  /** The op times of one ops event after the clamp. */
  function ClampedSum(events: seq<Event>, j: nat): (r: nat)
    requires j < |events|
  {
    match events[j].payload
    case CbOps(_, ops) => SumGpu(ScaleOps(ScaleAt(events, j), ops))
    case _ => 0
  }

  lemma ScaleOpsNone(ops: seq<OpSample>)
    ensures ScaleOps(None, ops) == ops
  {
  }

  lemma ClampedFitsItsWindow(events: seq<Event>, j: nat)
    requires j < |events| && events[j].payload.CbOps?
    requires PendingWindow(events, j, events[j].payload.cb).Some?
    ensures ClampedSum(events, j) <= WindowLen(events, PendingWindow(events, j, events[j].payload.cb).value)
  {
    hide PendingWindow, WindowLen, SumGpu;
    var ops := events[j].payload.ops;
    match ScaleAt(events, j) {
      case Some(f) =>
        ScaledSumFits(ops, f);
        CancelFactor(SumGpu(ScaleOps(Some(f), ops)), f.window, f.sum);
      case None => ScaleOpsNone(ops);
    }
  }

  // ----- windows of one queue never overlap -----

  /** Completions of the queue come in time order. */
  ghost predicate CompletionsInOrder(events: seq<Event>, queue: u64)
  {
    forall i, j :: 0 <= i < j < |events| && OnQueue(events, i, queue) && OnQueue(events, j, queue) ==>
          events[i].ts <= events[j].ts
  }

  predicate OnQueue(events: seq<Event>, k: nat, queue: u64)
    requires k < |events|
  {
    events[k].payload.CbCompleted? && events[k].payload.queue == queue
  }

  /** Whether the completion at `k` belongs to the queue and has a window. */
  predicate HasWindow(events: seq<Event>, k: nat, queue: u64)
    requires k < |events|
  {
    OnQueue(events, k, queue) && SchedOf(events, k).Some?
  }

  /** The windows of the first `n` events on one queue, added up. */
  function WindowSum(events: seq<Event>, n: nat, queue: u64): (r: nat)
    requires n <= |events|
  {
    if n == 0 then 0
    else WindowSum(events, n - 1, queue) + if HasWindow(events, n - 1, queue) then WindowLen(events, n - 1) else 0
  }

  /** The earliest scheduling among the buffers with a window on the queue. */
  function FirstSched(events: seq<Event>, n: nat, queue: u64): (r: Option<u64>)
    requires n <= |events|
  {
    if n == 0 then None
    else
      var before := FirstSched(events, n - 1, queue);
      if !HasWindow(events, n - 1, queue) then before
      else
        var t := events[SchedOf(events, n - 1).value].ts;
        match before case None => Some(t) case Some(f) => Some(Min(f, t))
  }

  /** Last completion minus first scheduling. */
  function QueueSpan(events: seq<Event>, n: nat, queue: u64): (r: nat)
    requires n <= |events|
  {
    match FirstSched(events, n, queue)
    case Some(f) => SatSub(OrZero(LastDone(events, n, queue)), f)
    case None => 0
  }

  lemma {:induction false} LastDoneIsLatest(events: seq<Event>, n: nat, queue: u64, k: nat)
    requires CompletionsInOrder(events, queue) && n <= k < |events| && OnQueue(events, k, queue)
    ensures OrZero(LastDone(events, n, queue)) <= events[k].ts
  {
    if n > 0 {
      if OnQueue(events, n - 1, queue) {
        assert events[n - 1].ts <= events[k].ts;
      } else {
        LastDoneIsLatest(events, n - 1, queue, k);
      }
    }
  }

  /** The windows of a queue are disjoint pieces of its span. */
  lemma {:induction false} WindowsFitTheSpan(events: seq<Event>, n: nat, queue: u64)
    requires n <= |events| && CompletionsInOrder(events, queue)
    ensures FirstSched(events, n, queue).None? ==> WindowSum(events, n, queue) == 0
    ensures WindowSum(events, n, queue) <= QueueSpan(events, n, queue)
  {
    hide OpenAt, CompletionsInOrder;
    if n > 0 {
      WindowsFitTheSpan(events, n - 1, queue);
      if OnQueue(events, n - 1, queue) {
        LastDoneIsLatest(events, n - 1, queue, n - 1);
      }
    }
  }

  // ----- each window is consumed at most once -----

  /** Whether an ops event before `n` took the window of the completion at `k`. */
  predicate Consumed(events: seq<Event>, k: nat, n: nat)
    requires n <= |events|
  {
    n > k + 1 && (Consumes(events, n - 1, k) || Consumed(events, k, n - 1))
  }

  predicate Consumes(events: seq<Event>, j: nat, k: nat)
    requires j < |events|
  {
    events[j].payload.CbOps? && PendingWindow(events, j, events[j].payload.cb) == Some(k)
  }

  lemma {:induction false} PendingIsNotConsumed(events: seq<Event>, n: nat, cb: u64)
    requires n <= |events| && PendingWindow(events, n, cb).Some?
    ensures !Consumed(events, PendingWindow(events, n, cb).value, n)
  {
    hide OpenAt;
    var k := PendingWindow(events, n, cb).value;
    if n > k + 1 {
      PendingIsNotConsumed(events, n - 1, cb);
    }
  }

  /** The windows on the queue among the first `m` events that were consumed before `n`. */
  function ConsumedSum(events: seq<Event>, m: nat, n: nat, queue: u64): (r: nat)
    requires m <= |events| && n <= |events|
  {
    if m == 0 then 0
    else ConsumedSum(events, m - 1, n, queue)
         + if HasWindow(events, m - 1, queue) && Consumed(events, m - 1, n) then WindowLen(events, m - 1) else 0
  }

  lemma {:induction false} ConsumedSumIsPart(events: seq<Event>, m: nat, n: nat, queue: u64)
    requires m <= |events| && n <= |events|
    ensures ConsumedSum(events, m, n, queue) <= WindowSum(events, m, queue)
  {
    hide Consumed, WindowLen;
    if m > 0 {
      ConsumedSumIsPart(events, m - 1, n, queue);
    }
  }

  /** One more event consumes the window it finds pending, and no other. */
  lemma {:induction false} ConsumedSumStep(events: seq<Event>, m: nat, n: nat, queue: u64)
    requires m <= n < |events|
    ensures ConsumedSum(events, m, n + 1, queue) ==
            ConsumedSum(events, m, n, queue)
            + if events[n].payload.CbOps? then
                match PendingWindow(events, n, events[n].payload.cb)
                case Some(k) => if k < m && HasWindow(events, k, queue) then WindowLen(events, k) else 0
                case None => 0
              else 0
  {
    hide PendingWindow, WindowLen, HasWindow;
    if m > 0 {
      ConsumedSumStep(events, m - 1, n, queue);
      if events[n].payload.CbOps? && PendingWindow(events, n, events[n].payload.cb) == Some(m - 1) {
        PendingIsNotConsumed(events, n, events[n].payload.cb);
      }
    }
  }

  /** The queue whose window the ops event at `j` consumes. */
  function ChargedQueue(events: seq<Event>, j: nat): (r: Option<u64>)
    requires j < |events|
  {
    if !events[j].payload.CbOps? then None
    else match PendingWindow(events, j, events[j].payload.cb)
      case Some(k) => Some(events[k].payload.queue)
      case None => None
  }

  /** The clamped op times charged to the queue by the first `n` events. */
  function ClampedOn(events: seq<Event>, n: nat, queue: u64): (r: nat)
    requires n <= |events|
  {
    if n == 0 then 0
    else
      ClampedOn(events, n - 1, queue)
      + if ChargedQueue(events, n - 1) == Some(queue) then ClampedSum(events, n - 1) else 0
  }

  lemma PendingBelongsToItsQueue(events: seq<Event>, n: nat, cb: u64)
    requires n <= |events| && PendingWindow(events, n, cb).Some?
    ensures var k := PendingWindow(events, n, cb).value;
            forall q: u64 :: HasWindow(events, k, q) <==> q == events[k].payload.queue
  {
    hide PendingWindow, OpenAt;
  }

  lemma {:induction false} ClampedIsConsumed(events: seq<Event>, n: nat, queue: u64)
    requires n <= |events|
    ensures ClampedOn(events, n, queue) <= ConsumedSum(events, n, n, queue)
  {
    hide PendingWindow, WindowLen, HasWindow, ClampedSum, Consumed;
    if n > 0 {
      ClampedIsConsumed(events, n - 1, queue);
      ConsumedSumStep(events, n - 1, n - 1, queue);
      NewestIsNotConsumed(events, n);
      if events[n - 1].payload.CbOps? && PendingWindow(events, n - 1, events[n - 1].payload.cb).Some? {
        ClampedFitsItsWindow(events, n - 1);
        PendingBelongsToItsQueue(events, n - 1, events[n - 1].payload.cb);
      }
    }
  }

  lemma NewestIsNotConsumed(events: seq<Event>, n: nat)
    requires 0 < n <= |events|
    ensures !Consumed(events, n - 1, n)
  {
  }

  /** Wall-clock bound: on every queue whose completions come in order, the clamped op times of a
      whole run add up to at most last completion minus first scheduling. */
  lemma ClampedTimesFitTheQueueSpan(events: seq<Event>, queue: u64)
    requires CompletionsInOrder(events, queue)
    ensures ClampedOn(events, |events|, queue) <= QueueSpan(events, |events|, queue)
  {
    ClampedIsConsumed(events, |events|, queue);
    ConsumedSumIsPart(events, |events|, |events|, queue);
    WindowsFitTheSpan(events, |events|, queue);
  }

  // ----- all queues together -----

  function ClampedTotal(events: seq<Event>, n: nat): (r: nat)
    requires n <= |events|
  {
    if n == 0 then 0 else ClampedTotal(events, n - 1) + ClampedSum(events, n - 1)
  }

  function SumOver(qs: seq<u64>, f: u64 -> nat): (r: nat)
  {
    if qs == [] then 0 else SumOver(qs[..|qs| - 1], f) + f(qs[|qs| - 1])
  }

  ghost predicate Distinct(qs: seq<u64>)
  {
    forall i, j :: 0 <= i < j < |qs| ==> qs[i] != qs[j]
  }

  /** Every ops event finds the window of its own completion. */
  ghost predicate EveryOpsHasAWindow(events: seq<Event>, qs: seq<u64>)
  {
    forall j :: 0 <= j < |events| && events[j].payload.CbOps? ==>
      ChargedQueue(events, j).Some? && ChargedQueue(events, j).value in qs
  }

  lemma {:induction false} AddAtOneQueue(qs: seq<u64>, f: u64 -> nat, g: u64 -> nat, q: u64, x: nat)
    requires Distinct(qs)
    requires forall p :: g(p) == f(p) + if p == q then x else 0
    ensures SumOver(qs, g) == SumOver(qs, f) + if q in qs then x else 0
    decreases |qs|
  {
    if qs != [] {
      var init, last := qs[..|qs| - 1], qs[|qs| - 1];
      AddAtOneQueue(init, f, g, q, x);
      assert qs == init + [last];
    }
  }

  lemma {:induction false} SumOverSame(qs: seq<u64>, f: u64 -> nat, g: u64 -> nat)
    requires forall p :: p in qs ==> f(p) <= g(p)
    ensures SumOver(qs, f) <= SumOver(qs, g)
    decreases |qs|
  {
    if qs != [] {
      assert qs[|qs| - 1] in qs;
      SumOverSame(qs[..|qs| - 1], f, g);
    }
  }

  lemma {:induction false} TotalIsSumOverQueues(events: seq<Event>, n: nat, qs: seq<u64>)
    requires n <= |events| && Distinct(qs) && EveryOpsHasAWindow(events, qs)
    ensures ClampedTotal(events, n) == SumOver(qs, q => ClampedOn(events, n, q))
  {
    hide ChargedQueue;
    if n == 0 {
      SumOfZeros(qs, q => ClampedOn(events, 0, q));
    } else {
      TotalIsSumOverQueues(events, n - 1, qs);
      var q0 := if ChargedQueue(events, n - 1).Some? then ChargedQueue(events, n - 1).value else 0;
      var x := if ChargedQueue(events, n - 1).Some? then ClampedSum(events, n - 1) else 0;
      AddAtOneQueue(qs, q => ClampedOn(events, n - 1, q), q => ClampedOn(events, n, q), q0, x);
      assert !events[n - 1].payload.CbOps? ==> ClampedSum(events, n - 1) == 0;
    }
  }

  lemma {:induction false} SumOfZeros(qs: seq<u64>, f: u64 -> nat)
    requires forall q :: f(q) == 0
    ensures SumOver(qs, f) == 0
  {
    if qs != [] {
      SumOfZeros(qs[..|qs| - 1], f);
    }
  }

  /** The clamped op times of a whole run add up to at most the spans of its queues. */
  lemma ClampedTotalFitsTheSpans(events: seq<Event>, qs: seq<u64>)
    requires Distinct(qs) && EveryOpsHasAWindow(events, qs)
    requires forall q :: q in qs ==> CompletionsInOrder(events, q)
    ensures ClampedTotal(events, |events|) <= SumOver(qs, q => QueueSpan(events, |events|, q))
  {
    TotalIsSumOverQueues(events, |events|, qs);
    forall q | q in qs
      ensures ClampedOn(events, |events|, q) <= QueueSpan(events, |events|, q)
    {
      ClampedTimesFitTheQueueSpan(events, q);
    }
    SumOverSame(qs, q => ClampedOn(events, |events|, q), q => QueueSpan(events, |events|, q));
  }
}
