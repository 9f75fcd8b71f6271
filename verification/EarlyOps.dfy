/** Ops that arrive before their completion: when every ops event is drawn in its own buffer's window,
    and a session that stays off by one. */
module EarlyOps {
  import opened Bytes
  import opened Events
  import opened Pairing
  import opened Export
  import opened ExportRun

  predicate Uses(events: seq<Event>, k: nat, cb: u64)
    requires k < |events|
  {
    (CommitOf(events, k).Some? || events[k].payload.CbOps?) && events[k].payload.cb == cb
  }

  /** The latest paired completion or ops event of the buffer id. */
  function LastUse(events: seq<Event>, n: nat, cb: u64): (r: Option<nat>)
    requires n <= |events|
    ensures r.Some? ==> r.value < n && Uses(events, r.value, cb)
    ensures forall k :: (if r.Some? then r.value else -1) < k < n ==> !Uses(events, k, cb)
  {
    if n == 0 then None else if Uses(events, n - 1, cb) then Some(n - 1) else LastUse(events, n - 1, cb)
  }

  /** The id's latest use is a paired completion. */
  predicate AfterCompletion(events: seq<Event>, n: nat, cb: u64)
    requires n <= |events|
  {
    LastUse(events, n, cb).Some? && CommitOf(events, LastUse(events, n, cb).value).Some?
  }

  predicate OpsOfId(events: seq<Event>, j: nat, cb: u64)
  {
    j < |events| && events[j].payload.CbOps? && events[j].payload.cb == cb
  }

  /** The ops event at `j` makes the exporter draw its ops, all and nothing else, in the window of the completion
      the breakdown attaches them to. */
  predicate DrawnAtOnce(events: seq<Event>, j: nat)
    requires j < |events| && events[j].payload.CbOps?
  {
    var own := LastPaired(events, j, events[j].payload.cb);
    && own.Some?
    && BatchesUpTo(events, j + 1) == BatchesUpTo(events, j)
       + [Batch(WindowOf(events, own.value), events[j].payload.ops)]
  }

  lemma DrawnWhenWaiting(events: seq<Event>, j: nat)
    requires j < |events| && events[j].payload.CbOps?
    ensures DrawnAtOnce(events, j) <==> SlotAt(events, j, events[j].payload.cb).Waits?
  {
    hide SlotAt, BatchesUpTo, CommitOf, LastPaired;
    SlotAfterOps(events, j, events[j].payload.cb);
    if SlotAt(events, j, events[j].payload.cb).Waits? {
      TheLatestWaits(events, j, events[j].payload.cb);
    } else {
      assert BatchesUpTo(events, j) + [] == BatchesUpTo(events, j);
    }
  }

  /** A slot's last use: a completion left it waiting, ops are what it holds. */
  lemma {:induction false} SlotShowsLastUse(events: seq<Event>, n: nat, cb: u64)
    requires n <= |events|
    ensures SlotAt(events, n, cb).Waits? ==> AfterCompletion(events, n, cb)
    ensures SlotAt(events, n, cb).Holds? ==> LastUse(events, n, cb).Some? && !AfterCompletion(events, n, cb)
  {
    hide CommitOf;
    if n > 0 {
      SlotShowsLastUse(events, n - 1, cb);
      if events[n - 1].payload.CbOps? {
        NotPaired(events, n - 1);
      }
    }
  }

  /** Every ops event of the id follows a completion. */
  ghost predicate OnTime(events: seq<Event>, n: nat, cb: u64)
    requires n <= |events|
  {
    forall j :: 0 <= j < n && OpsOfId(events, j, cb) ==> AfterCompletion(events, j, cb)
  }

  lemma {:induction false} OnTimeNeverHolds(events: seq<Event>, n: nat, cb: u64)
    requires n <= |events| && OnTime(events, n, cb)
    ensures !SlotAt(events, n, cb).Holds?
    ensures AfterCompletion(events, n, cb) ==> SlotAt(events, n, cb).Waits?
  {
    hide CommitOf, LastUse;
    if n == 0 {
      NeverUsed(events, cb);
    } else {
      OnTimeNeverHolds(events, n - 1, cb);
      UseAfter(events, n - 1, cb);
      if OpsOfId(events, n - 1, cb) {
        assert AfterCompletion(events, n - 1, cb);
        NotPaired(events, n - 1);
      }
    }
  }

  lemma NeverUsed(events: seq<Event>, cb: u64)
    ensures !AfterCompletion(events, 0, cb)
  {
  }

  lemma UseAfter(events: seq<Event>, k: nat, cb: u64)
    requires k < |events|
    ensures AfterCompletion(events, k + 1, cb) <==>
              if Uses(events, k, cb) then CommitOf(events, k).Some? else AfterCompletion(events, k, cb)
  {
    hide CommitOf;
  }

  /** All ops of an id are drawn in their own buffers' windows exactly when each of its ops events comes right
      after a paired completion, commits aside. */
  lemma OpsAreDrawnAtOnceIff(events: seq<Event>, n: nat, cb: u64)
    requires n <= |events|
    ensures (forall j :: 0 <= j < n && OpsOfId(events, j, cb) ==> DrawnAtOnce(events, j)) <==> OnTime(events, n, cb)
  {
    hide SlotAt, BatchesUpTo, CommitOf, LastPaired, AfterCompletion, DrawnAtOnce;
    forall j | 0 <= j < n && OpsOfId(events, j, cb)
      ensures DrawnAtOnce(events, j) ==> AfterCompletion(events, j, cb)
      ensures OnTime(events, n, cb) ==> DrawnAtOnce(events, j)
    {
      DrawnWhenWaiting(events, j);
      SlotShowsLastUse(events, j, cb);
      if OnTime(events, n, cb) {
        OnTimeNeverHolds(events, j, cb);
      }
    }
  }

  /** Once an id holds ops, orderly lifetimes do not bring it back: while completions and ops events alternate,
      each completion is drawn with the ops of an earlier one, and its own are kept. */
  lemma {:induction false} OffByOneForGood(events: seq<Event>, n: nat, m: nat, cb: u64)
    requires n <= m <= |events| && SlotAt(events, n, cb).Holds?
    requires forall j :: n <= j < m && Uses(events, j, cb) ==>
               (events[j].payload.CbOps? <==> AfterCompletion(events, j, cb))
    ensures SlotAt(events, m, cb) == Empty || SlotAt(events, m, cb).Holds?
    ensures SlotAt(events, m, cb).Holds? <==> !AfterCompletion(events, m, cb)
    ensures forall j :: n <= j < m && OpsOfId(events, j, cb) ==> !DrawnAtOnce(events, j)
    decreases m
  {
    hide CommitOf, AfterCompletion, DrawnAtOnce;
    SlotShowsLastUse(events, m, cb);
    if n < m {
      OffByOneForGood(events, n, m - 1, cb);
      UseAfter(events, m - 1, cb);
      if OpsOfId(events, m - 1, cb) {
        NotPaired(events, m - 1);
        DrawnWhenWaiting(events, m - 1);
      }
    }
  }

  // ----- a commit lost to a partial capture -----

  const A: OpSample := OpSample("a", None, 1, 1, None)
  const B: OpSample := OpSample("b", None, 2, 1, None)

  function LostCommit(): (r: seq<Event>)
  {
    [ Event(1, 0, MetalHook, CbCompleted(1, 0, 1)),
      Event(2, 1, MetalHook, CbOps(1, [A])),
      Event(3, 2, MetalHook, CbCommitted(1, 0)),
      Event(4, 3, MetalHook, CbCompleted(1, 0, 1)),
      Event(5, 4, MetalHook, CbOps(1, [B])) ]
  }

  /** The only completion is drawn with the ops that came before it, its own ops are never drawn, and the
      breakdown attaches those: the two disagree. */
  lemma LostCommitShiftsOps()
    ensures var e := LostCommit();
            && Completions(e, 5) == [3]
            && BatchesUpTo(e, 5) == [Batch(0, [A])]
            && SlotAt(e, 5, 1) == Holds([B])
            && OpsOf(e, 5, 3) == Some(4)
            && !OnTime(e, 5, 1)
  {
    assert OpsOfId(LostCommit(), 1, 1) && !AfterCompletion(LostCommit(), 1, 1);
  }

  /** Two ops events before their completion. */
  function TwoEarly(): (r: seq<Event>)
  {
    [ Event(1, 0, MetalHook, CbOps(1, [A])),
      Event(2, 1, MetalHook, CbOps(1, [B])),
      Event(3, 2, MetalHook, CbCommitted(1, 0)),
      Event(4, 3, MetalHook, CbCompleted(1, 0, 1)) ]
  }

  /** They are drawn together, in the order they came. */
  lemma TwoEarlyDrawnInOrder()
    ensures BatchesUpTo(TwoEarly(), 4) == [Batch(0, [A, B])]
  {
    assert SlotAt(TwoEarly(), 1, 1) == Holds([A]);
    assert SlotAt(TwoEarly(), 2, 1) == Holds([A] + [B]) == Holds([A, B]);
    assert SlotAt(TwoEarly(), 3, 1) == Holds([A, B]);
    assert CommitOf(TwoEarly(), 3) == Some(2) && CommitOf(TwoEarly(), 2).None?;
    assert Completions(TwoEarly(), 3) == [];
    assert BatchesUpTo(TwoEarly(), 3) == [];
  }
}
