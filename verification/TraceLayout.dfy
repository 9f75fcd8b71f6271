/** The breakdown as a timeline: one slice per node and per op, a track per depth. */
module TraceLayout {
  import opened Bytes
  import opened CallTree

  datatype TimedOp = TimedOp(name: string, gpuNs: nat)

  type Node = ModuleBreakdown<seq<TimedOp>>

  /** A slice on track `tid`, in whole microseconds. */
  datatype Slice = Slice(name: string, ts: nat, dur: nat, tid: nat)

  const ROOT := "<root>"

  function EndOf(s: Slice): (r: nat) { s.ts + s.dur }

  /** Whole microseconds, at least one. */
  function WholeMicros(ns: nat): (r: nat)
    ensures r >= 1
  {
    Max(ns / 1000, 1)
  }

  // ----- what the walk draws -----

  function OpSlices(ops: seq<TimedOp>, depth: nat, start: nat): (r: seq<Slice>)
  {
    if ops == [] then []
    else
      var op := ops[|ops| - 1];
      OpSlices(ops[..|ops| - 1], depth, start)
          + [Slice(op.name, OpsEnd(ops[..|ops| - 1], start), WholeMicros(op.gpuNs), depth)]
  }

  function OpsEnd(ops: seq<TimedOp>, start: nat): (r: nat)
  {
    if ops == [] then start else OpsEnd(ops[..|ops| - 1], start) + WholeMicros(ops[|ops| - 1].gpuNs)
  }

  /** Where the cursor stands after a node: past its own time and past everything drawn inside it. */
  function Finish(n: Node, start: nat): (r: nat)
  {
    if n.qualname == ROOT then FinishAll(n.children, start)
    else start + Max(WholeMicros(n.gpuSubtree), OpsEnd(n.ops, FinishAll(n.children, start)) - start)
  }

  function FinishAll(ns: seq<Node>, start: nat): (r: nat)
  {
    if ns == [] then start else Finish(ns[|ns| - 1], FinishAll(ns[..|ns| - 1], start))
  }

  /** The slices of a node in drawing order: itself, its children, its ops. The root is not drawn. */
  function Draw(n: Node, depth: nat, start: nat): (r: seq<Slice>)
  {
    if n.qualname == ROOT then DrawAll(n.children, depth, start)
    else
      [Slice(n.qualname, start, Finish(n, start) - start, depth)]
      + DrawAll(n.children, depth + 1, start)
      + OpSlices(n.ops, depth + 1, FinishAll(n.children, start))
  }

  function DrawAll(ns: seq<Node>, depth: nat, start: nat): (r: seq<Slice>)
  {
    if ns == [] then []
    else DrawAll(ns[..|ns| - 1], depth, start) + Draw(ns[|ns| - 1], depth, FinishAll(ns[..|ns| - 1], start))
  }

  /** The walk: reserve the node's slot, draw what is inside, then fill the slot in. */
  method Walk(n: Node, depth: nat, cursor: nat, events: seq<Slice>) returns (end: nat, out: seq<Slice>)
    ensures end == Finish(n, cursor)
    ensures out == events + Draw(n, depth, cursor)
    decreases n
  {
    if n.qualname == ROOT {
      end, out := WalkAll(n.children, depth, cursor, events);
      return;
    }
    var durUs := WholeMicros(n.gpuSubtree);
    var start := cursor;
    var slot := |events|;
    out := events + [Slice("", 0, 0, 0)];
    var next;
    next, out := WalkAll(n.children, depth + 1, start, out);
    next, out := WalkOps(n.ops, depth + 1, next, out);
    durUs := Max(durUs, next - start);
    out := out[slot := Slice(n.qualname, start, durUs, depth)];
    end := start + durUs;
  }

  method WalkAll(ns: seq<Node>, depth: nat, cursor: nat, events: seq<Slice>) returns (end: nat, out: seq<Slice>)
    ensures end == FinishAll(ns, cursor)
    ensures out == events + DrawAll(ns, depth, cursor)
    decreases ns
  {
    end, out := cursor, events;
    for i := 0 to |ns|
      invariant end == FinishAll(ns[..i], cursor)
      invariant out == events + DrawAll(ns[..i], depth, cursor)
    {
      assert ns[..i + 1][..i] == ns[..i];
      end, out := Walk(ns[i], depth, end, out);
    }
    assert ns[..|ns|] == ns;
  }

  method WalkOps(ops: seq<TimedOp>, depth: nat, cursor: nat, events: seq<Slice>) returns (end: nat, out: seq<Slice>)
    ensures end == OpsEnd(ops, cursor)
    ensures out == events + OpSlices(ops, depth, cursor)
  {
    end, out := cursor, events;
    for i := 0 to |ops|
      invariant end == OpsEnd(ops[..i], cursor)
      invariant out == events + OpSlices(ops[..i], depth, cursor)
    {
      assert ops[..i + 1][..i] == ops[..i];
      var dur := WholeMicros(ops[i].gpuNs);
      out := out + [Slice(ops[i].name, end, dur, depth)];
      end := end + dur;
    }
    assert ops[..|ops|] == ops;
  }

  method RenderChromeTrace(root: Node) returns (out: seq<Slice>)
    ensures out == Draw(root, 0, 0)
    ensures Laminar(out)
  {
    var _, events := Walk(root, 0, 0, []);
    out := events;
    DrawingIsLaminar(root, 0, 0);
  }

  // ----- nesting -----

  /** Everything from `i` to `j` lies on deeper tracks than `i`: `j` is drawn inside `i`. */
  ghost predicate Below(s: seq<Slice>, i: nat, j: nat)
    requires i < j < |s|
  {
    forall k :: i < k <= j ==> s[k].tid > s[i].tid
  }

  /** `i` encloses `j` when `j` is drawn inside it, and ends before `j` starts otherwise. */
  ghost predicate Nested(s: seq<Slice>, i: nat, j: nat)
    requires i < j < |s|
  {
    if Below(s, i, j) then s[i].ts <= s[j].ts && EndOf(s[j]) <= EndOf(s[i])
    else EndOf(s[i]) <= s[j].ts
  }

  ghost predicate Laminar(s: seq<Slice>)
  {
    forall i, j :: 0 <= i < j < |s| ==> Nested(s, i, j)
  }

  /** All slices lie within the span, on tracks no shallower than `depth`, the first exactly there. */
  ghost predicate Within(s: seq<Slice>, depth: nat, from: nat, to: nat)
  {
    && from <= to
    && (s != [] ==> s[0].tid == depth)
    && forall i :: 0 <= i < |s| ==> s[i].tid >= depth && s[i].dur >= 1 && from <= s[i].ts && EndOf(s[i]) <= to
  }

  lemma NestedLeft(a: seq<Slice>, b: seq<Slice>, i: nat, j: nat)
    requires i < j < |a|
    ensures Nested(a + b, i, j) <==> Nested(a, i, j)
  {
    assert forall k :: 0 <= k < |a| ==> (a + b)[k] == a[k];
    if Below(a + b, i, j) {
      forall k | i < k <= j
        ensures a[k].tid > a[i].tid
      {
        assert (a + b)[k].tid > (a + b)[i].tid;
      }
    }
  }

  lemma NestedRight(a: seq<Slice>, b: seq<Slice>, i: nat, j: nat)
    requires i < j < |b|
    ensures Nested(a + b, |a| + i, |a| + j) <==> Nested(b, i, j)
  {
    if Below(a + b, |a| + i, |a| + j) {
      forall k | i < k <= j
        ensures b[k].tid > b[i].tid
      {
        assert (a + b)[|a| + k].tid > (a + b)[|a| + i].tid;
      }
    }
  }

  lemma NestedAcross(a: seq<Slice>, b: seq<Slice>, i: nat, j: nat, depth: nat, from: nat, mid: nat, to: nat)
    requires i < |a| <= j < |a| + |b| && Within(a, depth, from, mid) && Within(b, depth, mid, to)
    ensures Nested(a + b, i, j)
  {
    var s := a + b;
    assert s[|a|] == b[0] && s[i] == a[i] && s[j] == b[j - |a|];
    assert !Below(s, i, j);
  }

  /** Drawing one batch after another keeps the nesting. */
  lemma LaminarAppend(a: seq<Slice>, b: seq<Slice>, depth: nat, from: nat, mid: nat, to: nat)
    requires Laminar(a) && Laminar(b) && Within(a, depth, from, mid) && Within(b, depth, mid, to)
    ensures Laminar(a + b) && Within(a + b, depth, from, to)
  {
    hide Nested;
    forall i, j | 0 <= i < j < |a + b|
      ensures Nested(a + b, i, j)
    {
      if j < |a| {
        NestedLeft(a, b, i, j);
      } else if i >= |a| {
        NestedRight(a, b, i - |a|, j - |a|);
      } else {
        NestedAcross(a, b, i, j, depth, from, mid, to);
      }
    }
  }

  /** Wrapping a batch in a slice one track up keeps the nesting. */
  lemma LaminarWrap(top: Slice, inner: seq<Slice>, from: nat, to: nat)
    requires Laminar(inner) && Within(inner, top.tid + 1, from, to)
    requires top.ts <= from && to <= EndOf(top) && top.dur >= 1
    ensures Laminar([top] + inner) && Within([top] + inner, top.tid, top.ts, EndOf(top))
  {
    forall i, j | 0 <= i < j < |[top] + inner|
      ensures Nested([top] + inner, i, j)
    {
      if i > 0 {
        NestedRight([top], inner, i - 1, j - 1);
      }
    }
  }

  lemma {:induction false} OpsAreLaminar(ops: seq<TimedOp>, depth: nat, start: nat)
    ensures Laminar(OpSlices(ops, depth, start))
            && Within(OpSlices(ops, depth, start), depth, start, OpsEnd(ops, start))
    decreases |ops|
  {
    hide Laminar, Within;
    if ops == [] {
      NothingDrawn(depth, start);
    } else {
      var op, mid := ops[|ops| - 1], OpsEnd(ops[..|ops| - 1], start);
      OpsAreLaminar(ops[..|ops| - 1], depth, start);
      OneSlice(Slice(op.name, mid, WholeMicros(op.gpuNs), depth));
      LaminarAppend(OpSlices(ops[..|ops| - 1], depth, start), [Slice(op.name, mid, WholeMicros(op.gpuNs), depth)],
          depth, start, mid, OpsEnd(ops, start));
    }
  }

  lemma NothingDrawn(depth: nat, start: nat)
    ensures Laminar([]) && Within([], depth, start, start)
  {
  }

  lemma OneSlice(s: Slice)
    requires s.dur >= 1
    ensures Laminar([s]) && Within([s], s.tid, s.ts, EndOf(s))
  {
  }

  /** Every node encloses its children and ops, and no two slices of a track overlap, for any tree and
      however much the rounding adds. */
  lemma {:induction false} DrawingIsLaminar(n: Node, depth: nat, start: nat)
    ensures Laminar(Draw(n, depth, start)) && Within(Draw(n, depth, start), depth, start, Finish(n, start))
    decreases n
  {
    hide Laminar, Within, OpSlices, OpsEnd;
    if n.qualname == ROOT {
      DrawingAllIsLaminar(n.children, depth, start);
    } else {
      var mid := FinishAll(n.children, start);
      var kids, ops := DrawAll(n.children, depth + 1, start), OpSlices(n.ops, depth + 1, mid);
      DrawingAllIsLaminar(n.children, depth + 1, start);
      OpsAreLaminar(n.ops, depth + 1, mid);
      LaminarAppend(kids, ops, depth + 1, start, mid, OpsEnd(n.ops, mid));
      LaminarWrap(Slice(n.qualname, start, Finish(n, start) - start, depth), kids + ops, start, OpsEnd(n.ops, mid));
      assert Draw(n, depth, start) == [Slice(n.qualname, start, Finish(n, start) - start, depth)] + (kids + ops);
    }
  }

  lemma {:induction false} DrawingAllIsLaminar(ns: seq<Node>, depth: nat, start: nat)
    ensures Laminar(DrawAll(ns, depth, start)) && Within(DrawAll(ns, depth, start), depth, start, FinishAll(ns, start))
    decreases ns
  {
    hide Laminar, Within, Draw, Finish;
    if ns == [] {
      NothingDrawn(depth, start);
    } else {
      var init, last := ns[..|ns| - 1], ns[|ns| - 1];
      var mid := FinishAll(init, start);
      DrawingAllIsLaminar(init, depth, start);
      DrawingIsLaminar(last, depth, mid);
      LaminarAppend(DrawAll(init, depth, start), Draw(last, depth, mid), depth, start, mid, FinishAll(ns, start));
    }
  }

  /** On every track the slices come one after the other. */
  lemma TracksNeverOverlap(root: Node, i: nat, j: nat)
    requires i < j < |Draw(root, 0, 0)| && Draw(root, 0, 0)[i].tid == Draw(root, 0, 0)[j].tid
    ensures EndOf(Draw(root, 0, 0)[i]) <= Draw(root, 0, 0)[j].ts
  {
    hide Draw;
    DrawingIsLaminar(root, 0, 0);
    assert Nested(Draw(root, 0, 0), i, j) && !Below(Draw(root, 0, 0), i, j);
  }

  /** A drawn node encloses the drawing of everything it contains. */
  lemma NodeEnclosesItsContents(n: Node, depth: nat, start: nat, i: nat)
    requires n.qualname != ROOT && 0 < i < |Draw(n, depth, start)|
    ensures var s := Draw(n, depth, start);
            s[0].name == n.qualname && s[0].dur >= n.gpuSubtree / 1000
            && s[0].ts <= s[i].ts && EndOf(s[i]) <= EndOf(s[0]) && s[i].tid > s[0].tid
  {
    hide OpSlices, OpsEnd, DrawAll, FinishAll;
    var mid := FinishAll(n.children, start);
    var kids, ops := DrawAll(n.children, depth + 1, start), OpSlices(n.ops, depth + 1, mid);
    DrawingAllIsLaminar(n.children, depth + 1, start);
    OpsAreLaminar(n.ops, depth + 1, mid);
    assert Draw(n, depth, start)[i] == (kids + ops)[i - 1];
  }
}
