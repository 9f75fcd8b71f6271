/** Command-buffer lifetimes: buffer ids are recycled, so commits, completions and ops are
    paired in stream order, never through the id alone. */
module Pairing {
  import opened Bytes
  import opened Events
  import opened Windows
  import opened OpClamp

  datatype CompletedCb = CompletedCb(commitTs: u64, inFlightNs: u64, ops: Option<seq<OpSample>>)

  function CommitRole(p: Payload): (r: Role)
  {
    match p
    case CbCommitted(cb, _) => Opens(cb)
    case CbCompleted(cb, _, _) => Closes(cb)
    case _ => Neither
  }

  /** The commit of the lifetime that completes at `k`. */
  function CommitOf(events: seq<Event>, k: nat): (r: Option<nat>)
    requires k < |events|
    ensures r.Some? ==> r.value < k && events[k].payload.CbCompleted?
  {
    if events[k].payload.CbCompleted? then OpenAt(events, k, CommitRole, events[k].payload.cb) else None
  }

  /** The latest paired completion of the buffer before position `n`. */
  function LastPaired(events: seq<Event>, n: nat, cb: u64): (r: Option<nat>)
    requires n <= |events|
    ensures r.Some? ==> r.value < n && CommitOf(events, r.value).Some? && events[r.value].payload.cb == cb
  {
    if n == 0 then None
    else if CommitOf(events, n - 1).Some? && events[n - 1].payload.cb == cb then Some(n - 1)
    else LastPaired(events, n - 1, cb)
  }

  /** The ops event at `j` belongs to the completion at `k`. */
  predicate Attaches(events: seq<Event>, j: nat, k: nat)
    requires j < |events|
  {
    events[j].payload.CbOps? && LastPaired(events, j, events[j].payload.cb) == Some(k)
  }

  /** The ops the completion at `k` ends up with, going by the first `n` events: the last that belong to it. */
  function OpsOf(events: seq<Event>, n: nat, k: nat): (r: Option<nat>)
    requires n <= |events|
    ensures r.Some? ==> r.value < n && Attaches(events, r.value, k)
  {
    if n == 0 then None else if Attaches(events, n - 1, k) then Some(n - 1) else OpsOf(events, n - 1, k)
  }

  /** Positions of the paired completions among the first `n` events. */
  function Completions(events: seq<Event>, n: nat): (r: seq<nat>)
    requires n <= |events|
    ensures forall i :: 0 <= i < |r| ==> r[i] < n && CommitOf(events, r[i]).Some?
  {
    if n == 0 then [] else Completions(events, n - 1) + if CommitOf(events, n - 1).Some? then [n - 1] else []
  }

  function ScaleGpuOnly(s: Option<Scale>, ops: seq<OpSample>): (r: seq<OpSample>)
    ensures |r| == |ops|
    ensures forall i :: 0 <= i < |ops| ==> r[i] == ops[i].(gpuNs := ApplyScale(s, ops[i].gpuNs))
  {
    seq(|ops|, i requires 0 <= i < |ops| => ops[i].(gpuNs := ApplyScale(s, ops[i].gpuNs)))
  }

  function OpsAt(events: seq<Event>, j: nat, scales: map<u64, Scale>): (r: seq<OpSample>)
    requires j < |events| && events[j].payload.CbOps?
  {
    ScaleGpuOnly(Lookup(scales, events[j].seqNo), events[j].payload.ops)
  }

  function CompletedAt(events: seq<Event>, n: nat, k: nat, scales: map<u64, Scale>): (r: CompletedCb)
    requires n <= |events| && k < |events| && CommitOf(events, k).Some?
  {
    CompletedCb(
      events[CommitOf(events, k).value].ts,
      events[k].payload.inFlightNs,
      match OpsOf(events, n, k) case Some(j) => Some(OpsAt(events, j, scales)) case None => None)
  }

  function PairSpec(events: seq<Event>, n: nat, scales: map<u64, Scale>): (r: seq<CompletedCb>)
    requires n <= |events|
    ensures |r| == |Completions(events, n)|
  {
    var ks := Completions(events, n);
    seq(|ks|, i requires 0 <= i < |ks| => CompletedAt(events, n, ks[i], scales))
  }

  predicate AnyOps(events: seq<Event>)
  {
    exists j :: 0 <= j < |events| && events[j].payload.CbOps?
  }

  ghost predicate TracksCommit(m: map<u64, u64>, events: seq<Event>, n: nat)
    requires n <= |events|
  {
    && (forall id: u64 :: id in m <==> OpenAt(events, n, CommitRole, id).Some?)
    && (forall id: u64 :: id in m ==> m[id] == events[OpenAt(events, n, CommitRole, id).value].ts)
  }

  ghost predicate TracksLast(m: map<u64, nat>, events: seq<Event>, n: nat)
    requires n <= |events|
  {
    && (forall id: u64 :: id in m <==> LastPaired(events, n, id).Some?)
    && (forall id: u64 :: id in m ==>
          m[id] < |Completions(events, n)| && Completions(events, n)[m[id]] == LastPaired(events, n, id).value)
  }

  lemma CommitStep(m: map<u64, u64>, events: seq<Event>, n: nat)
    requires n < |events| && TracksCommit(m, events, n)
    ensures TracksCommit(
              match events[n].payload
              case CbCommitted(cb, _) => m[cb := events[n].ts]
              case CbCompleted(cb, _, _) => m - {cb}
              case _ => m, events, n + 1)
  {
  }

  lemma LastStep(m: map<u64, nat>, events: seq<Event>, n: nat)
    requires n < |events| && TracksLast(m, events, n)
    ensures TracksLast(
              if CommitOf(events, n).Some? then m[events[n].payload.cb := |Completions(events, n)|] else m,
              events, n + 1)
  {
    hide CommitOf;
  }

  lemma {:induction false} CompletionsIncrease(events: seq<Event>, n: nat)
    requires n <= |events|
    ensures forall p, q :: 0 <= p < q < |Completions(events, n)| ==>
              Completions(events, n)[p] < Completions(events, n)[q]
  {
    hide CommitOf;
    if n > 0 {
      CompletionsIncrease(events, n - 1);
    }
  }

  /** A paired completion is one more, without ops so far; the others are as before. */
  lemma PairCompletion(events: seq<Event>, n: nat, scales: map<u64, Scale>)
    requires n < |events| && CommitOf(events, n).Some?
    ensures PairSpec(events, n + 1, scales)
         == PairSpec(events, n, scales) + [CompletedCb(events[CommitOf(events, n).value].ts,
             events[n].payload.inFlightNs, None)]
  {
    hide CommitOf, OpsAt, Completions, LastPaired;
    var ks := Completions(events, n);
    assert Completions(events, n + 1) == ks + [n] by {
      CompletionsStep(events, n);
    }
    NoOpsYet(events, n, n);
    forall i | 0 <= i < |ks|
      ensures CompletedAt(events, n + 1, ks[i], scales) == CompletedAt(events, n, ks[i], scales)
    {
    }
  }

  lemma CompletionsStep(events: seq<Event>, n: nat)
    requires n < |events|
    ensures Completions(events, n + 1) == Completions(events, n) + if CommitOf(events, n).Some? then [n] else []
  {
    hide CommitOf;
  }

  /** Any other event can only replace the ops of the completion it belongs to. */
  lemma PairOther(events: seq<Event>, n: nat, scales: map<u64, Scale>)
    requires n < |events| && CommitOf(events, n).None?
    ensures var before, after, ks := PairSpec(events, n, scales), PairSpec(events, n + 1, scales),
            Completions(events, n);
            && |after| == |before|
            && forall i :: 0 <= i < |ks| ==>
                 after[i] == if Attaches(events, n, ks[i]) then before[i].(ops := Some(OpsAt(events, n, scales)))
                     else before[i]
  {
    hide CommitOf, OpsAt, Completions, LastPaired;
    CompletionsStep(events, n);
    assert Completions(events, n) + [] == Completions(events, n);
  }

  /** One more event adds a completion, replaces one buffer's ops, or changes nothing. */
  lemma PairStep(events: seq<Event>, n: nat, scales: map<u64, Scale>, last: map<u64, nat>)
    requires n < |events| && TracksLast(last, events, n)
    ensures var before, after := PairSpec(events, n, scales), PairSpec(events, n + 1, scales);
            if CommitOf(events, n).Some? then
              after == before + [CompletedCb(events[CommitOf(events, n).value].ts, events[n].payload.inFlightNs, None)]
            else if events[n].payload.CbOps? && events[n].payload.cb in last then
              var i := last[events[n].payload.cb];
              i < |before| && after == before[i := before[i].(ops := Some(OpsAt(events, n, scales)))]
            else after == before
  {
    hide CommitOf, OpsAt, PairSpec, Completions, LastPaired;
    CompletionsIncrease(events, n);
    if CommitOf(events, n).Some? {
      PairCompletion(events, n, scales);
    } else {
      PairOther(events, n, scales);
    }
  }

  lemma {:induction false} NoOpsYet(events: seq<Event>, n: nat, k: nat)
    requires n <= k < |events|
    ensures OpsOf(events, n, k).None?
    ensures k == n && !events[n].payload.CbOps? ==> OpsOf(events, n + 1, k).None?
  {
    hide CommitOf;
    if n > 0 {
      NoOpsYet(events, n - 1, k);
    }
  }

  method PairCommandBuffers(events: seq<Event>, scales: map<u64, Scale>)
    returns (completed: seq<CompletedCb>, seenAnyOps: bool)
    ensures completed == PairSpec(events, |events|, scales)
    ensures seenAnyOps == AnyOps(events)
  {
    hide PairSpec, TracksCommit, TracksLast, OpsAt;
    var commitTs: map<u64, u64>, lastCompleted: map<u64, nat> := map[], map[];
    completed, seenAnyOps := [], false;
    NothingPaired(events, scales);
    for i := 0 to |events|
      invariant completed == PairSpec(events, i, scales) && |completed| == |Completions(events, i)|
      invariant TracksCommit(commitTs, events, i) && TracksLast(lastCompleted, events, i)
      invariant seenAnyOps <==> exists j :: 0 <= j < i && events[j].payload.CbOps?
    {
      var e := events[i];
      CommitStep(commitTs, events, i);
      CommitFound(commitTs, events, i);
      LastStep(lastCompleted, events, i);
      PairStep(events, i, scales, lastCompleted);
      match e.payload {
        case CbCommitted(cb, _) =>
          commitTs := commitTs[cb := e.ts];
        case CbCompleted(cb, _, inFlightNs) =>
          if cb in commitTs {
            lastCompleted := lastCompleted[cb := |completed|];
            completed := completed + [CompletedCb(commitTs[cb], inFlightNs, None)];
          }
          commitTs := commitTs - {cb};
        case CbOps(cb, ops) =>
          seenAnyOps := true;
          if cb in lastCompleted {
            var p := lastCompleted[cb];
            completed := completed[p := completed[p].(ops := Some(OpsAt(events, i, scales)))];
          }
        case _ =>
      }
    }
  }

  lemma NothingPaired(events: seq<Event>, scales: map<u64, Scale>)
    ensures PairSpec(events, 0, scales) == [] && TracksCommit(map[], events, 0) && TracksLast(map[], events, 0)
  {
  }

  lemma CommitFound(m: map<u64, u64>, events: seq<Event>, n: nat)
    requires n < |events| && TracksCommit(m, events, n)
    ensures CommitOf(events, n).Some? <==> events[n].payload.CbCompleted? && events[n].payload.cb in m
    ensures CommitOf(events, n).Some? ==> m[events[n].payload.cb] == events[CommitOf(events, n).value].ts
  {
  }

  // ----- exactness -----

  /** The latest paired completion of a buffer id, told by positions. */
  lemma {:induction false} LastPairedIs(events: seq<Event>, n: nat, cb: u64, k: nat)
    requires n <= |events|
    ensures LastPaired(events, n, cb) == Some(k) <==>
            && k < n && CommitOf(events, k).Some? && events[k].payload.cb == cb
            && forall m :: k < m < n ==> !(CommitOf(events, m).Some? && events[m].payload.cb == cb)
  {
    hide CommitOf;
    if n > 0 {
      LastPairedIs(events, n - 1, cb, k);
    }
  }

  /** The ops of a completion are those of the last ops event of its id before the id's next paired completion. */
  lemma {:induction false} OpsAre(events: seq<Event>, n: nat, k: nat, j: nat)
    requires n <= |events|
    ensures OpsOf(events, n, k) == Some(j) <==>
            j < n && Attaches(events, j, k) && forall m :: j < m < n ==> !Attaches(events, m, k)
  {
    hide Attaches;
    if n > 0 {
      OpsAre(events, n - 1, k, j);
    }
  }

  /** However often ids are recycled, no ops event is used for two completions. */
  lemma OpsAreUsedOnce(events: seq<Event>, n: nat, k1: nat, k2: nat)
    requires n <= |events| && OpsOf(events, n, k1).Some? && OpsOf(events, n, k1) == OpsOf(events, n, k2)
    ensures k1 == k2
  {
    var j := OpsOf(events, n, k1).value;
    assert Attaches(events, j, k1) && Attaches(events, j, k2);
  }

  predicate Touches(p: Payload, cb: u64)
  {
    (p.CbCommitted? || p.CbCompleted? || p.CbOps?) && p.cb == cb
  }

  /** The previous event of the same buffer id. */
  function PrevTouch(events: seq<Event>, n: nat, cb: u64): (r: Option<nat>)
    requires n <= |events|
    ensures r.Some? ==> r.value < n && Touches(events[r.value].payload, cb)
    ensures forall i :: (if r.Some? then r.value else -1) < i < n ==> !Touches(events[i].payload, cb)
  {
    if n == 0 then None else if Touches(events[n - 1].payload, cb) then Some(n - 1) else PrevTouch(events, n - 1, cb)
  }

  predicate FollowsCommit(events: seq<Event>, j: nat, cb: u64)
    requires j <= |events|
  {
    PrevTouch(events, j, cb).Some? && events[PrevTouch(events, j, cb).value].payload.CbCommitted?
  }

  predicate FollowsCompletion(events: seq<Event>, j: nat, cb: u64)
    requires j <= |events|
  {
    PrevTouch(events, j, cb).Some? && events[PrevTouch(events, j, cb).value].payload.CbCompleted?
  }

  predicate InLifetimeOrder(events: seq<Event>, j: nat)
    requires j < |events|
  {
    match events[j].payload
    case CbCommitted(cb, _) => !FollowsCommit(events, j, cb)
    case CbCompleted(cb, _, _) => FollowsCommit(events, j, cb)
    case CbOps(cb, _) => FollowsCompletion(events, j, cb)
    case _ => true
  }

  /** Every buffer id repeats: committed, completed, optional ops; ids interleave freely. */
  ghost predicate WellFormedLifetimes(events: seq<Event>)
  {
    forall j :: 0 <= j < |events| ==> InLifetimeOrder(events, j)
  }

  lemma {:induction false} OpenFollowsTouches(events: seq<Event>, n: nat, cb: u64)
    requires n <= |events|
    ensures FollowsCommit(events, n, cb) ==>
              OpenAt(events, n, CommitRole, cb) == PrevTouch(events, n, cb)
  {
    if n > 0 && !Touches(events[n - 1].payload, cb) {
      OpenFollowsTouches(events, n - 1, cb);
    }
  }

  /** Each completion gets its own lifetime's commit. */
  lemma CompletionGetsItsCommit(events: seq<Event>, k: nat)
    requires WellFormedLifetimes(events) && k < |events| && events[k].payload.CbCompleted?
    ensures CommitOf(events, k).Some? && CommitOf(events, k) == PrevTouch(events, k, events[k].payload.cb)
  {
    assert InLifetimeOrder(events, k);
    OpenFollowsTouches(events, k, events[k].payload.cb);
  }

  lemma {:induction false} LastPairedFollowsTouches(events: seq<Event>, n: nat, cb: u64)
    requires WellFormedLifetimes(events) && n <= |events|
    ensures FollowsCompletion(events, n, cb) ==>
              LastPaired(events, n, cb) == PrevTouch(events, n, cb)
  {
    hide WellFormedLifetimes, OpenAt;
    if n > 0 {
      if Touches(events[n - 1].payload, cb) {
        if events[n - 1].payload.CbCompleted? {
          CompletionGetsItsCommit(events, n - 1);
        }
      } else {
        LastPairedFollowsTouches(events, n - 1, cb);
      }
    }
  }

  /** Each completion gets its own lifetime's ops: exactly the ops event that follows it, if any. */
  lemma {:induction false} CompletionGetsItsOps(events: seq<Event>, n: nat, k: nat, j: nat)
    requires WellFormedLifetimes(events) && j < n <= |events| && events[j].payload.CbOps? && k < j
    requires events[k].payload.CbCompleted? && events[k].payload.cb == events[j].payload.cb
    ensures OpsOf(events, n, k) == Some(j) <==> PrevTouch(events, j, events[j].payload.cb) == Some(k)
    decreases n
  {
    hide OpenAt, LastPaired, PrevTouch;
    var cb := events[j].payload.cb;
    assert InLifetimeOrder(events, j);
    LastPairedFollowsTouches(events, j, cb);
    if n - 1 > j {
      CompletionGetsItsOps(events, n - 1, k, j);
      if Attaches(events, n - 1, k) {
        assert InLifetimeOrder(events, n - 1);
        LastPairedFollowsTouches(events, n - 1, cb);
        assert Touches(events[j].payload, cb);
      }
    }
  }
}
