/** What a filter selects, told from the events alone: which positions of a sealed session a reader is handed, and
    which chunks it may skip. */
module Selection {
  import opened Bytes
  import opened Events
  import opened Externals
  import opened Footer
  import opened Chunked
  import opened Filter
  import opened Delivery
  import opened Layout
  import opened Reader
  import opened ReadBack
  import opened Session

  // ----- names up to case -----

  /** Equal, or the same ASCII letter in its two cases. */
  predicate SameLetter(a: char, b: char)
  {
    || a == b
    || ('A' <= a <= 'Z' && b as int == a as int + 32)
    || ('A' <= b <= 'Z' && a as int == b as int + 32)
  }

  predicate SameName(a: string, b: string)
  {
    |a| == |b| && forall i :: 0 <= i < |a| ==> SameLetter(a[i], b[i])
  }

  lemma CaseIsIgnored(a: string, b: string)
    ensures EqIgnoreAsciiCase(a, b) <==> SameName(a, b)
  {
    forall i | 0 <= i < |a| && i < |b|
      ensures LowerAscii(a[i]) == LowerAscii(b[i]) <==> SameLetter(a[i], b[i])
    {
    }
  }

  /** Every kind is found under its own name, however it is written. */
  lemma BufferKindsByName(p: Payload)
    ensures p.CbCommitted? ==> SameName(PayloadKind(p), "metalcbcommitted")
    ensures p.CbScheduled? ==> SameName(PayloadKind(p), "METALCBSCHEDULED")
    ensures p.CbCompleted? ==> SameName(PayloadKind(p), "metalCbCompleted")
  {
    hide SameName;
    BufferNames();
  }

  lemma BufferNames()
    ensures SameName("MetalCbCommitted", "metalcbcommitted")
    ensures SameName("MetalCbScheduled", "METALCBSCHEDULED")
    ensures SameName("MetalCbCompleted", "metalCbCompleted")
  {
  }

  lemma SampleKindsByName(p: Payload)
    ensures p.CbOps? ==> SameName(PayloadKind(p), "metalcbops")
    ensures p.DeviceMemSample? ==> SameName(PayloadKind(p), "METALDEVICEMEMSAMPLE")
    ensures p.Other? ==> PayloadKind(p) == p.kind
  {
  }

  lemma CallKindsByName(p: Payload)
    ensures p.EvalEntered? ==> SameName(PayloadKind(p), "mlxEvalEntered")
    ensures p.EvalReturned? ==> SameName(PayloadKind(p), "mlxevalreturned")
    ensures p.ModuleEntered? ==> SameName(PayloadKind(p), "moduleEntered")
    ensures p.ModuleReturned? ==> SameName(PayloadKind(p), "MODULERETURNED")
  {
    hide SameName;
    EvalNames();
    ModuleNames();
  }

  lemma EvalNames()
    ensures SameName("MlxEvalEntered", "mlxEvalEntered") && SameName("MlxEvalReturned", "mlxevalreturned")
  {
  }

  lemma ModuleNames()
    ensures SameName("ModuleEntered", "moduleEntered") && SameName("ModuleReturned", "MODULERETURNED")
  {
  }

  function KindNumber(p: Payload): (r: nat)
  {
    match p
    case CbCommitted(_, _) => 0
    case CbScheduled(_, _) => 1
    case CbCompleted(_, _, _) => 2
    case CbOps(_, _) => 3
    case DeviceMemSample(_, _) => 4
    case EvalEntered(_, _) => 5
    case EvalReturned(_, _) => 6
    case ModuleEntered(_, _, _) => 7
    case ModuleReturned(_) => 8
    case Other(_) => 9
  }

  /** And no two kinds share a name. */
  lemma NamesTellKindsApart(p: Payload, q: Payload)
    requires !p.Other? && !q.Other? && SameName(PayloadKind(p), PayloadKind(q))
    ensures KindNumber(p) == KindNumber(q)
  {
    var a, b := PayloadKind(p), PayloadKind(q);
    assert SameLetter(a[1], b[1]);
    if |a| == 16 {
      assert SameLetter(a[7], b[7]) && SameLetter(a[10], b[10]);
    }
  }

  // ----- positions -----

  /** What the caller asked for, one event at a time. */
  ghost predicate Asked(f: Option<EventFilter>, e: Event)
  {
    match f
    case None => true
    case Some(EventFilter(source, from, to, kind)) =>
      && (source == None || source == Some(e.source))
      && (from == None || from.value <= e.ts)
      && (to == None || e.ts <= to.value)
      && (kind == None || SameName(PayloadKind(e.payload), kind.value))
  }

  /** `out` is what stands at the positions `at`, in order, and these are exactly the positions of the asked-for
      events. */
  ghost predicate Selects(f: Option<EventFilter>, evs: seq<Event>, at: seq<nat>, out: seq<Event>)
  {
    && |at| == |out|
    && (forall j :: 0 <= j < |at| ==> at[j] < |evs| && out[j] == evs[at[j]])
    && Increasing(at)
    && (forall i: nat :: i in at <==> i < |evs| && Asked(f, evs[i]))
  }

  lemma AskedIsMatched(f: Option<EventFilter>, e: Event)
    ensures Asked(f, e) <==> f.None? || Matches(f.value, e)
  {
    hide SameName, EqIgnoreAsciiCase, PayloadKind;
    if f.Some? && f.value.kind.Some? {
      CaseIsIgnored(PayloadKind(e.payload), f.value.kind.value);
    }
  }

  lemma {:induction false} FilterSelects(f: Option<EventFilter>, evs: seq<Event>) returns (at: seq<nat>)
    ensures Selects(f, evs, at, FilterSeq(f, evs))
    decreases |evs|
  {
    hide Asked, Matches, Selects;
    if evs == [] {
      at := [];
      NothingSelected(f);
    } else {
      var more := FilterSelects(f, evs[1..]);
      AskedIsMatched(f, evs[0]);
      at := OneMoreSelected(f, evs, more, FilterSeq(f, evs[1..]));
    }
  }

  lemma NothingSelected(f: Option<EventFilter>)
    ensures Selects(f, [], [], [])
  {
  }

  ghost predicate Increasing(at: seq<nat>)
  {
    forall i, j :: 0 <= i < j < |at| ==> at[i] < at[j]
  }

  lemma OneMoreSelected(f: Option<EventFilter>, evs: seq<Event>, more: seq<nat>, rest: seq<Event>)
    returns (at: seq<nat>)
    requires evs != [] && Selects(f, evs[1..], more, rest)
    ensures Selects(f, evs, at, (if Asked(f, evs[0]) then [evs[0]] else []) + rest)
  {
    hide Asked;
    at := OneFurther(f, evs, more, rest);
    forall i: nat
      ensures i in at <==> 0 < i < |evs| && Asked(f, evs[i])
    {
      ShiftedPositions(f, evs, more, at, i);
    }
    assert [] + rest == rest;
    if Asked(f, evs[0]) {
      at := FirstSelected(f, evs, at, rest);
    }
  }

  lemma OneFurther(f: Option<EventFilter>, evs: seq<Event>, more: seq<nat>, rest: seq<Event>)
    returns (at: seq<nat>)
    requires evs != [] && Selects(f, evs[1..], more, rest)
    ensures |at| == |more| == |rest| && Increasing(at)
    ensures forall j :: 0 <= j < |at| ==> at[j] == more[j] + 1 && at[j] < |evs| && rest[j] == evs[at[j]]
  {
    hide Asked;
    at := seq(|more|, j requires 0 <= j < |more| => more[j] + 1);
    forall j | 0 <= j < |at|
      ensures at[j] < |evs| && rest[j] == evs[at[j]]
    {
      assert evs[1..][more[j]] == evs[more[j] + 1];
    }
  }

  lemma FirstSelected(f: Option<EventFilter>, evs: seq<Event>, shifted: seq<nat>, rest: seq<Event>)
    returns (at: seq<nat>)
    requires evs != [] && Asked(f, evs[0]) && |shifted| == |rest| && Increasing(shifted)
    requires forall j :: 0 <= j < |shifted| ==> shifted[j] < |evs| && rest[j] == evs[shifted[j]]
    requires forall i: nat :: i in shifted <==> 0 < i < |evs| && Asked(f, evs[i])
    ensures Selects(f, evs, at, [evs[0]] + rest)
  {
    hide Asked;
    at := [0] + shifted;
    assert 0 !in shifted;
    forall j | 0 <= j < |shifted|
      ensures shifted[j] > 0
    {
      assert shifted[j] in shifted;
    }
  }

  lemma ShiftedPositions(f: Option<EventFilter>, evs: seq<Event>, more: seq<nat>, shifted: seq<nat>, i: nat)
    requires evs != [] && (forall k: nat :: k in more <==> k < |evs| - 1 && Asked(f, evs[1..][k]))
    requires |shifted| == |more| && forall j :: 0 <= j < |more| ==> shifted[j] == more[j] + 1
    ensures i in shifted <==> 0 < i < |evs| && Asked(f, evs[i])
  {
    hide Asked;
    if i > 0 {
      if i - 1 in more {
        var j :| 0 <= j < |more| && more[j] == i - 1;
        assert shifted[j] == i;
      }
      assert i < |evs| ==> evs[1..][i - 1] == evs[i];
    }
  }

  /** Reading a sealed file through a filter with a callback that never stops: exactly the asked-for events, in file
      order, and no report. */
  lemma FilteredReadSelects(lib: Library, bs: seq<seq<Event>>, f: EventFilter, breaks: seq<Event> -> bool,
      meta: Option<Metadata>) returns (at: seq<nat>)
    requires Lawful(lib) && AllSealable(lib, bs) && |ChunkFile(lib, bs)| <= U64_MAX && forall h :: !breaks(h)
    ensures var r := ForEachSpec(lib, true, SealedFile(lib, bs), meta, Consumer(Some(f), breaks));
            r.Read? && r.problems == [] && Selects(Some(f), Flatten(bs), at, r.sink.out)
  {
    assert LawfulZstd(lib);
    hide Lawful, LawfulZstd, AllSealable, ReadChunkedSpec, SealedFile, FilterSeq, ChunkFile, Flatten, Selects;
    SealedFileIsChunked(lib, bs);
    FilterPushdownIsExact(lib, bs, Some(f), breaks);
    at := FilterSelects(Some(f), Flatten(bs));
  }

  /** A mark and an ops event sealed together, asked for by the kind's name in lower case and by their own times:
      the ops event alone is handed over, and both bounds belong to the asked-for time. */
  lemma OpsAlone(lib: Library, mark: Event, ops: Event, breaks: seq<Event> -> bool)
    requires Lawful(lib) && Sealable(lib, [mark, ops]) && |ChunkFile(lib, [[mark, ops]])| <= U64_MAX
    requires mark.payload == Other("Mark") && ops.payload.CbOps? && mark.ts == ops.ts && forall h :: !breaks(h)
    ensures var f := EventFilter(None, Some(ops.ts), Some(ops.ts), Some("metalcbops"));
            var r := ForEachSpec(lib, true, SealedFile(lib, [[mark, ops]]), None, Consumer(Some(f), breaks));
            r.Read? && r.problems == [] && r.sink.out == [ops]
    ensures var f := EventFilter(None, Some(ops.ts), Some(ops.ts), None);
            var r := ForEachSpec(lib, true, SealedFile(lib, [[mark, ops]]), None, Consumer(Some(f), breaks));
            r.Read? && r.problems == [] && r.sink.out == [mark, ops]
  {
    assert LawfulZstd(lib);
    hide Lawful, LawfulZstd, SealedFile, Sealable, ForEachSpec, SameName, PayloadKind, UnitBytes, Selects, Asked;
    var f := EventFilter(None, Some(ops.ts), Some(ops.ts), Some("metalcbops"));
    var g := f.(kind := None);
    var bs := [[mark, ops]];
    OneBatch(mark, ops);
    AskedForByName(mark, ops);
    var one := FilteredReadSelects(lib, bs, f, breaks, None);
    OnlyTheSecond(f, mark, ops, one, ForEachSpec(lib, true, SealedFile(lib, bs), None,
        Consumer(Some(f), breaks)).sink.out);
    var both := FilteredReadSelects(lib, bs, g, breaks, None);
    BothOfThem(g, mark, ops, both, ForEachSpec(lib, true, SealedFile(lib, bs), None,
        Consumer(Some(g), breaks)).sink.out);
  }

  lemma OneBatch(a: Event, b: Event)
    ensures Flatten([[a, b]]) == [a, b]
  {
  }

  lemma AskedForByName(mark: Event, ops: Event)
    requires mark.payload == Other("Mark") && ops.payload.CbOps? && mark.ts == ops.ts
    ensures var f := EventFilter(None, Some(ops.ts), Some(ops.ts), Some("metalcbops"));
            && !Asked(Some(f), mark) && Asked(Some(f), ops)
            && Asked(Some(f.(kind := None)), mark) && Asked(Some(f.(kind := None)), ops)
  {
    hide SameName, PayloadKind;
    SampleKindsByName(ops.payload);
    MarkIsNoOps(mark.payload);
  }

  lemma MarkIsNoOps(p: Payload)
    requires p == Other("Mark")
    ensures !SameName(PayloadKind(p), "metalcbops")
  {
  }

  lemma {:induction false} PositionsSpread(at: seq<nat>, j: nat)
    requires Increasing(at) && j < |at|
    ensures at[j] >= at[0] + j
  {
    if j > 0 {
      PositionsSpread(at, j - 1);
    }
  }

  lemma OnlyTheSecond(f: EventFilter, a: Event, b: Event, at: seq<nat>, out: seq<Event>)
    requires Selects(Some(f), [a, b], at, out) && !Asked(Some(f), a) && Asked(Some(f), b)
    ensures out == [b]
  {
    hide Asked;
    assert 0 !in at && 1 in at;
    PositionsSpread(at, |at| - 1);
    forall j | 0 <= j < |at|
      ensures at[j] == 1
    {
      assert at[j] in at;
    }
  }

  lemma BothOfThem(f: EventFilter, a: Event, b: Event, at: seq<nat>, out: seq<Event>)
    requires Selects(Some(f), [a, b], at, out) && Asked(Some(f), a) && Asked(Some(f), b)
    ensures out == [a, b]
  {
    hide Asked;
    assert 0 in at && 1 in at;
    PositionsSpread(at, |at| - 1);
    forall j | 0 <= j < |at|
      ensures at[j] <= 1
    {
      assert at[j] in at;
    }
  }

  // ----- chunks that may be skipped -----

  /** The chunk holds an event that is not too early, one that is not too late, and one of the asked-for source. */
  ghost predicate MayMatch(f: EventFilter, evs: seq<Event>)
  {
    && (f.fromTs.Some? ==> exists i :: 0 <= i < |evs| && f.fromTs.value <= evs[i].ts)
    && (f.toTs.Some? ==> exists i :: 0 <= i < |evs| && evs[i].ts <= f.toTs.value)
    && (f.source.Some? ==> exists i :: 0 <= i < |evs| && evs[i].source == f.source.value)
  }

  /** The overlap test is as sharp as its summary allows. */
  lemma OverlapIsSharp(f: EventFilter, c: ChunkIndexEntry, evs: seq<Event>)
    requires Summarizes(c, evs) && evs != []
    ensures ChunkOverlaps(f, c) <==> MayMatch(f, evs)
  {
    hide TestBit, StatsOf;
    forall i | 0 <= i < |evs|
      ensures StatsOf(evs).minTs <= evs[i].ts <= StatsOf(evs).maxTs
      ensures TestBit(StatsOf(evs).sourceBitmap, SourceIndex(evs[i].source))
    {
      StatsCoverEvents(evs, i);
    }
    StatsAreTight(evs, if f.source.Some? then f.source.value else evs[0].source);
  }
}
