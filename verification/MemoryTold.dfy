/** What the memory table says of a call, told from the samples and times alone. */
module MemoryTold {
  import opened Bytes
  import opened Events
  import opened Windows
  import opened CallTree
  import opened Memory
  import opened Selection

  // ----- which samples count -----

  /** With distinct ids a call is open until the first return naming it. */
  lemma {:induction false} DistinctState(es: seq<Event>, k: nat, n: nat)
    requires DistinctCalls(es) && k < n <= |es| && Enters(es, k)
    ensures match StateOf(es, k, n)
            case Open(above) =>
              above == 0 && forall m :: k < m < n ==> es[m].payload != ModuleReturned(es[k].payload.call)
            case Closed(at) =>
              && k < at < n && es[at].payload == ModuleReturned(es[k].payload.call)
              && forall m :: k < m < at ==> es[m].payload != ModuleReturned(es[k].payload.call)
    decreases n
  {
    if n > k + 1 {
      DistinctState(es, k, n - 1);
      assert Enters(es, n - 1) ==> es[n - 1].payload.call != es[k].payload.call;
    }
  }

  /** The sample at `m` counts for the call entered at `k`: taken before the first return naming the call, or at most
      half a second after it. */
  ghost predicate Counts(es: seq<Event>, k: nat, m: nat)
    requires k < |es| && Enters(es, k)
  {
    && k < m < |es| && es[m].payload.DeviceMemSample?
    && forall j :: k < j < m && es[j].payload == ModuleReturned(es[k].payload.call)
                   && (forall i :: k < i < j ==> es[i].payload != ModuleReturned(es[k].payload.call))
         ==> es[m].ts <= es[j].ts + 500_000_000
  }

  lemma CountsIs(es: seq<Event>, k: nat, m: nat)
    requires DistinctCalls(es) && k < m < |es| && Enters(es, k)
    ensures Credited(es, k, m) <==> Counts(es, k, m)
  {
    hide StateOf, DistinctCalls;
    DistinctState(es, k, m);
  }

  /** `vs` are the values of the samples that count among the first `n` events, in order. */
  ghost predicate Counted(es: seq<Event>, k: nat, n: nat, at: seq<nat>, vs: seq<u64>)
    requires k < n <= |es| && Enters(es, k)
  {
    && |at| == |vs| && Increasing(at)
    && (forall i :: 0 <= i < |at| ==> at[i] < n && Counts(es, k, at[i]) && vs[i] == es[at[i]].payload.inUse)
    && (forall m: nat :: m < n && Counts(es, k, m) ==> m in at)
  }

  lemma {:induction false} CreditsCounted(es: seq<Event>, k: nat, n: nat) returns (at: seq<nat>)
    requires DistinctCalls(es) && k < n <= |es| && Enters(es, k)
    ensures Counted(es, k, n, at, Credits(es, k, n))
    decreases n
  {
    hide StateOf, DistinctCalls, Credited, Counts, Counted;
    if n == k + 1 {
      at := [];
      NothingBefore(es, k);
    } else {
      at := CreditsCounted(es, k, n - 1);
      CountsIs(es, k, n - 1);
      at := OneMoreCounted(es, k, n - 1, at, Credits(es, k, n - 1));
    }
  }

  lemma NothingBefore(es: seq<Event>, k: nat)
    requires k < |es| && Enters(es, k)
    ensures Counted(es, k, k + 1, [], [])
  {
  }

  lemma OneMoreCounted(es: seq<Event>, k: nat, m: nat, at: seq<nat>, vs: seq<u64>) returns (next: seq<nat>)
    requires k < m < |es| && Enters(es, k) && Counted(es, k, m, at, vs)
    ensures Counts(es, k, m) ==>
              es[m].payload.DeviceMemSample? && Counted(es, k, m + 1, next, vs + [es[m].payload.inUse])
    ensures !Counts(es, k, m) ==> Counted(es, k, m + 1, next, vs) && vs + [] == vs
  {
    next := at;
    if Counts(es, k, m) {
      next := at + [m];
      assert m in next;
      forall j: nat | j < m + 1 && Counts(es, k, j)
        ensures j in next
      {
        if j < m {
          assert j in at;
        }
      }
    }
  }

  // ----- the figures -----

  lemma QuotientIs(sum: nat, count: nat)
    requires count > 0
    ensures sum / count * count <= sum < (sum / count + 1) * count
  {
  }

  /** A call's row: the largest of the values that count, their average rounded down, the last of them, and how many. */
  lemma RowIsTold(es: seq<Event>, k: nat) returns (at: seq<nat>, vs: seq<u64>)
    requires DistinctCalls(es) && k < |es| && Enters(es, k)
    ensures Counted(es, k, |es|, at, vs)
    ensures var row := CallMemory(es, k);
            && row.samples == |vs|
            && (vs == [] ==> row.peak == 0 && row.avg == 0 && row.end == 0)
            && (vs != [] ==>
                  && row.peak in vs && (forall i :: 0 <= i < |vs| ==> vs[i] <= row.peak)
                  && row.end == vs[|vs| - 1]
                  && row.avg * |vs| <= SumOf(vs) < (row.avg + 1) * |vs|)
  {
    hide DistinctCalls, Counted, StateOf, WhileOpen, Credits;
    at := CreditsCounted(es, k, |es|);
    vs := Credits(es, k, |es|);
    if vs != [] {
      QuotientIs(SumOf(vs), |vs|);
    }
  }

  // ----- sessions of the repository's tests -----

  function Enter(id: u64, ts: u64): (r: Event) { Event(ts, ts, PythonSidecar, ModuleEntered(id, "foo", None)) }

  function Ret(id: u64, ts: u64): (r: Event) { Event(ts, ts, PythonSidecar, ModuleReturned(id)) }

  function Mem(ts: u64, inUse: u64): (r: Event) { Event(ts, ts, MetalHook, DeviceMemSample(inUse, 16_000_000_000)) }

  lemma RowOf(es: seq<Event>, credits: seq<u64>, open: seq<u64>)
    requires es != [] && Enters(es, 0) && Credits(es, 0, |es|) == credits && WhileOpen(es, 0, |es|) == open
    ensures CallMemory(es, 0) == Summary(AccumOf(credits, open))
  {
  }

  function Three(): (r: seq<Event>) { [Enter(1, 1), Mem(2, 100), Mem(3, 500), Mem(4, 200), Ret(1, 5)] }

  /** Peak, average rounded down, last value, growth and number of three samples. */
  lemma ThreeSamples()
    ensures CallMemory(Three(), 0) == ScopeMemory(500, 266, 200, 400, 3)
  {
    hide CallMemory, Summary, AccumOf;
    ThreeValues();
    RowOf(Three(), [100, 500, 200], [100, 500, 200]);
    ThreeFigures();
  }

  lemma ThreeValues()
    ensures Credits(Three(), 0, 5) == [100, 500, 200] == WhileOpen(Three(), 0, 5)
  {
    assert StateOf(Three(), 0, 4) == Open(0);
    assert Credits(Three(), 0, 2) == [100] == WhileOpen(Three(), 0, 2);
    assert Credits(Three(), 0, 3) == [100, 500] == WhileOpen(Three(), 0, 3);
    assert Credits(Three(), 0, 4) == [100, 500, 200] == WhileOpen(Three(), 0, 4);
  }

  lemma ThreeFigures()
    ensures Summary(AccumOf([100, 500, 200], [100, 500, 200])) == ScopeMemory(500, 266, 200, 400, 3)
  {
    var vs: seq<u64> := [100, 500, 200];
    assert vs[..2] == [100, 500] && vs[..2][..1] == [100];
    assert SumOf([100]) == 100 && SumOf([100, 500]) == 600 && SumOf(vs) == 800;
    assert MaxOf([100]) == 100 && MaxOf([100, 500]) == 500 && MaxOf(vs) == 500;
  }

  function Late(ts: u64): (r: seq<Event>) { [Enter(1, 10), Ret(1, 15), Mem(ts, 77)] }

  /** A sample up to half a second after the return counts, one later does not; neither adds to the growth. */
  lemma GraceTail(ts: u64)
    requires ts > 15
    ensures CallMemory(Late(ts), 0) == if ts <= 500_000_015 then ScopeMemory(77, 77, 77, 0, 1)
            else ScopeMemory(0, 0, 0, 0, 0)
  {
    var es := Late(ts);
    assert StateOf(es, 0, 2) == Closed(1) && Credits(es, 0, 2) == [] && WhileOpen(es, 0, 2) == [];
    hide CallMemory, StateOf;
    var vs: seq<u64> := if ts <= 500_000_015 then [77] else [];
    assert Credits(es, 0, 3) == vs && WhileOpen(es, 0, 3) == [];
    RowOf(es, vs, []);
    LateFigures();
  }

  lemma LateFigures()
    ensures Summary(AccumOf([77], [])) == ScopeMemory(77, 77, 77, 0, 1)
    ensures Summary(AccumOf([], [])) == ScopeMemory(0, 0, 0, 0, 0)
  {
    var vs: seq<u64> := [77];
    assert vs[..0] == [];
    assert SumOf(vs) == 77 && MaxOf(vs) == 77;
  }
}
