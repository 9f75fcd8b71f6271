/** What a module call is charged: GPU time, buffer count and per-op totals, as a commutative monoid. */
module Tallies {
  import opened Bytes
  import opened Events
  import opened OpClamp
  import opened Sorting

  datatype OpAgg = OpAgg(gpuNs: nat, count: nat, apportioned: nat)

  type OpTable = map<string, OpAgg>

  /** Ops are listed by their symbol if they have one, otherwise by name. */
  function OpKey(op: OpSample): (r: string)
  {
    match op.symbol case Some(s) => s case None => op.name
  }

  function AddAgg(a: OpAgg, b: OpAgg): (r: OpAgg)
  {
    OpAgg(a.gpuNs + b.gpuNs, a.count + b.count, a.apportioned + b.apportioned)
  }

  function AggOf(op: OpSample): (r: OpAgg)
  {
    OpAgg(op.gpuNs, op.count, match op.apportioned case Some(a) => a case None => 0)
  }

  function At(m: OpTable, k: string): (r: OpAgg) { if k in m then m[k] else OpAgg(0, 0, 0) }

  function Bump(m: OpTable, k: string, a: OpAgg): (r: OpTable) { m[k := AddAgg(At(m, k), a)] }

  function TableOf(ops: seq<OpSample>): (r: OpTable)
  {
    if ops == [] then map[] else Bump(TableOf(ops[..|ops| - 1]), OpKey(ops[|ops| - 1]), AggOf(ops[|ops| - 1]))
  }

  function Merge(a: OpTable, b: OpTable): (r: OpTable)
  {
    map k | k in a.Keys + b.Keys :: AddAgg(At(a, k), At(b, k))
  }

  datatype Tally = Tally(gpuNs: nat, cbs: nat, ops: OpTable)

  const NOTHING := Tally(0, 0, map[])

  function Plus(a: Tally, b: Tally): (r: Tally)
  {
    Tally(a.gpuNs + b.gpuNs, a.cbs + b.cbs, Merge(a.ops, b.ops))
  }

  /** The two amounts that are conserved: time and buffers. */
  datatype Measure = Gpu | Buffers

  function Amount(m: Measure, t: Tally): (r: nat)
  {
    match m case Gpu => t.gpuNs case Buffers => t.cbs
  }

  lemma MergeAt(a: OpTable, b: OpTable, k: string)
    ensures k in Merge(a, b) <==> k in a || k in b
    ensures At(Merge(a, b), k) == AddAgg(At(a, k), At(b, k))
  {
  }

  lemma SameTable(x: OpTable, y: OpTable)
    requires forall k :: (k in x <==> k in y) && At(x, k) == At(y, k)
    ensures x == y
  {
    forall k | k in x
      ensures x[k] == y[k]
    {
      assert At(x, k) == At(y, k);
    }
  }

  lemma MergeEmpty(a: OpTable)
    ensures Merge(a, map[]) == a && Merge(map[], a) == a
  {
  }

  lemma MergeCommutes(a: OpTable, b: OpTable)
    ensures Merge(a, b) == Merge(b, a)
  {
  }

  lemma MergeAssociates(a: OpTable, b: OpTable, c: OpTable)
    ensures Merge(Merge(a, b), c) == Merge(a, Merge(b, c))
  {
    hide Merge, At;
    var l, r := Merge(Merge(a, b), c), Merge(a, Merge(b, c));
    forall k
      ensures (k in l <==> k in r) && At(l, k) == At(r, k)
    {
      MergeAt(a, b, k);
      MergeAt(b, c, k);
      MergeAt(Merge(a, b), c, k);
      MergeAt(a, Merge(b, c), k);
    }
    SameTable(l, r);
  }

  lemma PlusNothing(a: Tally)
    ensures Plus(a, NOTHING) == a && Plus(NOTHING, a) == a
  {
    MergeEmpty(a.ops);
  }

  lemma PlusCommutes(a: Tally, b: Tally)
    ensures Plus(a, b) == Plus(b, a)
  {
    MergeCommutes(a.ops, b.ops);
  }

  lemma PlusAssociates(a: Tally, b: Tally, c: Tally)
    ensures Plus(Plus(a, b), c) == Plus(a, Plus(b, c))
  {
    MergeAssociates(a.ops, b.ops, c.ops);
  }

  /** (a + b) + (c + d) == (a + c) + (b + d). */
  lemma PlusExchange(a: Tally, b: Tally, c: Tally, d: Tally)
    ensures Plus(Plus(a, b), Plus(c, d)) == Plus(Plus(a, c), Plus(b, d))
  {
    hide Plus;
    PlusAssociates(a, b, Plus(c, d));
    PlusAssociates(b, c, d);
    PlusCommutes(b, c);
    PlusAssociates(c, b, d);
    PlusAssociates(a, c, Plus(b, d));
  }

  lemma BumpIsMerge(m: OpTable, k: string, a: OpAgg)
    ensures Bump(m, k, a) == Merge(m, map[k := a])
  {
  }

  /** The inner loop over a buffer's ops. */
  method AddOps(m: OpTable, ops: seq<OpSample>) returns (r: OpTable)
    ensures r == Merge(m, TableOf(ops))
  {
    hide Merge, Bump;
    r := m;
    MergeEmpty(m);
    for i := 0 to |ops|
      invariant r == Merge(m, TableOf(ops[..i]))
    {
      var k, a := OpKey(ops[i]), AggOf(ops[i]);
      assert ops[..i + 1][..i] == ops[..i];
      BumpIsMerge(r, k, a);
      BumpIsMerge(TableOf(ops[..i]), k, a);
      MergeAssociates(m, TableOf(ops[..i]), map[k := a]);
      r := Bump(r, k, a);
    }
    assert ops[..|ops|] == ops;
  }

  /** Taking one entry off `rest` and into `r` keeps what they make together. */
  lemma DrainStep(r: OpTable, rest: OpTable, k: string)
    requires k in rest
    ensures Merge(Bump(r, k, rest[k]), rest - {k}) == Merge(r, rest)
  {
    hide Merge;
    var l := Merge(Bump(r, k, rest[k]), rest - {k});
    forall x
      ensures (x in l <==> x in Merge(r, rest)) && At(l, x) == At(Merge(r, rest), x)
    {
      MergeAt(Bump(r, k, rest[k]), rest - {k}, x);
      MergeAt(r, rest, x);
    }
    SameTable(l, Merge(r, rest));
  }

  /** Drain `other` into `m`, in whatever order the map yields. */
  method MergeInto(m: OpTable, other: OpTable) returns (r: OpTable)
    ensures r == Merge(m, other)
  {
    hide Merge, Bump;
    r := m;
    var rest := other;
    while rest != map[]
      invariant Merge(r, rest) == Merge(m, other)
      decreases |rest|
    {
      var k :| k in rest;
      DrainStep(r, rest, k);
      r := Bump(r, k, rest[k]);
      rest := rest - {k};
    }
    MergeEmpty(r);
  }

  // ----- a node's time is the sum of its ops -----

  ghost function Pick(m: OpTable): (k: string)
    requires m != map[]
    ensures k in m
  {
    var k :| k in m;
    k
  }

  ghost function SumTable(m: OpTable): (r: nat)
    decreases |m|
  {
    if m == map[] then 0 else m[Pick(m)].gpuNs + SumTable(m - {Pick(m)})
  }

  lemma SumTableEmpty()
    ensures SumTable(map[]) == 0
  {
  }

  lemma {:induction false} SumTableWithout(m: OpTable, k: string)
    requires k in m
    ensures SumTable(m) == m[k].gpuNs + SumTable(m - {k})
    decreases |m|
  {
    var p := Pick(m);
    if p != k {
      SumTableWithout(m - {p}, k);
      SumTableWithout(m - {k}, p);
      assert m - {p} - {k} == m - {k} - {p};
    }
  }

  lemma SumTableBump(m: OpTable, k: string, a: OpAgg)
    ensures SumTable(Bump(m, k, a)) == SumTable(m) + a.gpuNs
  {
    hide SumTable;
    var n := Bump(m, k, a);
    SumTableWithout(n, k);
    if k in m {
      SumTableWithout(m, k);
      assert n - {k} == m - {k};
    } else {
      assert n - {k} == m;
    }
  }

  lemma {:induction false} SumTableMerge(a: OpTable, b: OpTable)
    ensures SumTable(Merge(a, b)) == SumTable(a) + SumTable(b)
    decreases |b|
  {
    hide Merge, SumTable, Bump;
    MergeEmpty(a);
    if b == map[] {
      SumTableEmpty();
    } else {
      var k := Pick(b);
      DrainStep(a, b, k);
      SumTableMerge(Bump(a, k, b[k]), b - {k});
      SumTableBump(a, k, b[k]);
      SumTableWithout(b, k);
    }
  }

  lemma {:induction false} SumTableOf(ops: seq<OpSample>)
    ensures SumTable(TableOf(ops)) == SumGpu(ops)
  {
    hide SumTable, Bump;
    if ops == [] {
      SumTableEmpty();
    } else {
      SumTableOf(ops[..|ops| - 1]);
      SumTableBump(TableOf(ops[..|ops| - 1]), OpKey(ops[|ops| - 1]), AggOf(ops[|ops| - 1]));
    }
  }

  /** The time is exactly the sum over the ops. */
  ghost predicate Balanced(t: Tally)
  {
    t.gpuNs == SumTable(t.ops)
  }

  // ----- sums over charges -----

  /** One completed buffer's tally and its commit time. */
  datatype Charge = Charge(ts: u64, tally: Tally)

  function Share(c: Charge, p: u64 -> bool): (r: Tally) { if p(c.ts) then c.tally else NOTHING }

  /** The tallies of the charges whose commit time satisfies `p`. */
  function SumWhere(cs: seq<Charge>, p: u64 -> bool): (r: Tally)
    decreases |cs|
  {
    if cs == [] then NOTHING else Plus(SumWhere(cs[..|cs| - 1], p), Share(cs[|cs| - 1], p))
  }

  function Keep(cs: seq<Charge>, p: u64 -> bool): (r: seq<Charge>)
    decreases |cs|
  {
    if cs == [] then [] else Keep(cs[..|cs| - 1], p) + if p(cs[|cs| - 1].ts) then [cs[|cs| - 1]] else []
  }

  lemma SumWhereMore(cs: seq<Charge>, c: Charge, p: u64 -> bool)
    ensures SumWhere(cs + [c], p) == Plus(SumWhere(cs, p), Share(c, p))
  {
    assert (cs + [c])[..|cs|] == cs;
  }

  lemma {:induction false} SumWhereSame(cs: seq<Charge>, p: u64 -> bool, q: u64 -> bool)
    requires forall i :: 0 <= i < |cs| ==> p(cs[i].ts) == q(cs[i].ts)
    ensures SumWhere(cs, p) == SumWhere(cs, q)
    decreases |cs|
  {
    hide Plus;
    if cs != [] {
      SumWhereSame(cs[..|cs| - 1], p, q);
    }
  }

  lemma {:induction false} SumWhereNever(cs: seq<Charge>, p: u64 -> bool)
    requires forall i :: 0 <= i < |cs| ==> !p(cs[i].ts)
    ensures SumWhere(cs, p) == NOTHING
    decreases |cs|
  {
    hide Plus;
    if cs != [] {
      SumWhereNever(cs[..|cs| - 1], p);
      PlusNothing(NOTHING);
    }
  }

  /** Sums over disjoint conditions add up. */
  lemma {:induction false} SumWhereEither(cs: seq<Charge>, p: u64 -> bool, q: u64 -> bool, r: u64 -> bool)
    requires forall ts: u64 :: r(ts) == (p(ts) || q(ts)) && !(p(ts) && q(ts))
    ensures SumWhere(cs, r) == Plus(SumWhere(cs, p), SumWhere(cs, q))
    decreases |cs|
  {
    hide Plus;
    if cs == [] {
      PlusNothing(NOTHING);
    } else {
      var init, c := cs[..|cs| - 1], cs[|cs| - 1];
      SumWhereEither(init, p, q, r);
      PlusExchange(SumWhere(init, p), Share(c, p), SumWhere(init, q), Share(c, q));
      PlusNothing(Share(c, p));
      PlusNothing(Share(c, q));
    }
  }

  lemma {:induction false} SumWhereKept(cs: seq<Charge>, keep: u64 -> bool, p: u64 -> bool, both: u64 -> bool)
    requires forall ts: u64 :: both(ts) == (keep(ts) && p(ts))
    ensures SumWhere(Keep(cs, keep), p) == SumWhere(cs, both)
    decreases |cs|
  {
    hide Plus;
    if cs != [] {
      var init, c := cs[..|cs| - 1], cs[|cs| - 1];
      SumWhereKept(init, keep, p, both);
      if keep(c.ts) {
        SumWhereMore(Keep(init, keep), c, p);
        assert Keep(cs, keep) == Keep(init, keep) + [c];
        assert Share(c, p) == Share(c, both);
      } else {
        PlusNothing(SumWhere(init, both));
        assert Keep(cs, keep) == Keep(init, keep);
      }
    }
  }

  function ChargeKey(): (r: Charge -> int) { (c: Charge) => c.ts }

  lemma {:induction false} SumWhereInsert(cs: seq<Charge>, c: Charge, p: u64 -> bool)
    ensures SumWhere(Insert(cs, c, ChargeKey()), p) == Plus(SumWhere(cs, p), Share(c, p))
  {
    hide Plus;
    if cs != [] && ChargeKey()(c) < ChargeKey()(cs[|cs| - 1]) {
      var init, last := cs[..|cs| - 1], cs[|cs| - 1];
      SumWhereInsert(init, c, p);
      assert Insert(cs, c, ChargeKey()) == Insert(init, c, ChargeKey()) + [last];
      SumWhereMore(Insert(init, c, ChargeKey()), last, p);
      var a, x, y := SumWhere(init, p), Share(c, p), Share(last, p);
      PlusAssociates(a, x, y);
      PlusCommutes(x, y);
      PlusAssociates(a, y, x);
    } else {
      assert Insert(cs, c, ChargeKey()) == cs + [c];
      SumWhereMore(cs, c, p);
    }
  }

  /** Sorting the charges changes no sum. */
  lemma {:induction false} SumWhereSorted(cs: seq<Charge>, p: u64 -> bool)
    ensures SumWhere(StableSort(cs, ChargeKey()), p) == SumWhere(cs, p)
  {
    hide Plus, Insert;
    if cs != [] {
      SumWhereSorted(cs[..|cs| - 1], p);
      SumWhereInsert(StableSort(cs[..|cs| - 1], ChargeKey()), cs[|cs| - 1], p);
    }
  }

  lemma {:induction false} SumWhereBalanced(cs: seq<Charge>, p: u64 -> bool)
    requires forall i :: 0 <= i < |cs| ==> Balanced(cs[i].tally)
    ensures Balanced(SumWhere(cs, p))
    decreases |cs|
  {
    if cs != [] {
      SumWhereBalanced(cs[..|cs| - 1], p);
      SumTableMerge(SumWhere(cs[..|cs| - 1], p).ops, Share(cs[|cs| - 1], p).ops);
    }
  }
}
