/** The event filter, and the chunk summaries it is pushed down to. */
module Filter {
  import opened Bytes
  import opened Events
  import opened Footer

  datatype EventFilter = EventFilter(
    source: Option<Source>, fromTs: Option<u64>, toTs: Option<u64>, kind: Option<string>)

  /** Canonical payload name. */
  function PayloadKind(p: Payload): (r: string)
  {
    match p
    case CbCommitted(_, _) => "MetalCbCommitted"
    case CbScheduled(_, _) => "MetalCbScheduled"
    case CbCompleted(_, _, _) => "MetalCbCompleted"
    case CbOps(_, _) => "MetalCbOps"
    case DeviceMemSample(_, _) => "MetalDeviceMemSample"
    case EvalEntered(_, _) => "MlxEvalEntered"
    case EvalReturned(_, _) => "MlxEvalReturned"
    case ModuleEntered(_, _, _) => "ModuleEntered"
    case ModuleReturned(_) => "ModuleReturned"
    case Other(kind) => kind
  }

  function LowerAscii(c: char): (r: char)
  {
    if 'A' <= c <= 'Z' then (c as int + 32) as char else c
  }

  predicate EqIgnoreAsciiCase(a: string, b: string)
  {
    |a| == |b| && forall i :: 0 <= i < |a| ==> LowerAscii(a[i]) == LowerAscii(b[i])
  }

  predicate Matches(f: EventFilter, e: Event)
  {
    && (f.source.Some? ==> e.source == f.source.value)
    && (f.fromTs.Some? ==> f.fromTs.value <= e.ts)
    && (f.toTs.Some? ==> e.ts <= f.toTs.value)
    && (f.kind.Some? ==> EqIgnoreAsciiCase(PayloadKind(e.payload), f.kind.value))
  }

  predicate ChunkOverlaps(f: EventFilter, c: ChunkIndexEntry)
  {
    && (f.fromTs.Some? ==> f.fromTs.value <= c.maxTs)
    && (f.toTs.Some? ==> c.minTs <= f.toTs.value)
    && (f.source.Some? ==> TestBit(c.sourceBitmap, SourceIndex(f.source.value)))
  }

  function FilterSeq(f: Option<EventFilter>, evs: seq<Event>): (r: seq<Event>)
  {
    if evs == [] then []
    else (if f.None? || Matches(f.value, evs[0]) then [evs[0]] else []) + FilterSeq(f, evs[1..])
  }

  /** What a batch remembers about its events. */
  datatype Stats = Stats(minTs: u64, maxTs: u64, sourceBitmap: u64)

  const EMPTY_STATS: Stats := Stats(U64_MAX, 0, 0)

  function AddToStats(s: Stats, e: Event): (r: Stats)
  {
    Pow2At64();
    SetBitStaysInWidth(s.sourceBitmap, SourceIndex(e.source), 64);
    Stats(Min(s.minTs, e.ts), Max(s.maxTs, e.ts), SetBit(s.sourceBitmap, SourceIndex(e.source)))
  }

  function StatsOf(evs: seq<Event>): (r: Stats)
  {
    if evs == [] then EMPTY_STATS else AddToStats(StatsOf(evs[..|evs| - 1]), evs[|evs| - 1])
  }

  /** The summary covers every event of the batch. */
  lemma {:induction false} StatsCoverEvents(evs: seq<Event>, i: nat)
    requires i < |evs|
    ensures StatsOf(evs).minTs <= evs[i].ts <= StatsOf(evs).maxTs
    ensures TestBit(StatsOf(evs).sourceBitmap, SourceIndex(evs[i].source))
  {
    var last := |evs| - 1;
    SetBitSetsOneBit(StatsOf(evs[..last]).sourceBitmap, SourceIndex(evs[last].source), SourceIndex(evs[i].source));
    if i < last {
      StatsCoverEvents(evs[..last], i);
    }
  }

  /** The summary covers nothing else: both time bounds are reached, and every bit set is some event's. */
  lemma {:induction false} StatsAreTight(evs: seq<Event>, s: Source)
    requires evs != []
    ensures exists i :: 0 <= i < |evs| && evs[i].ts == StatsOf(evs).minTs
    ensures exists i :: 0 <= i < |evs| && evs[i].ts == StatsOf(evs).maxTs
    ensures TestBit(StatsOf(evs).sourceBitmap, SourceIndex(s)) ==> exists i :: 0 <= i < |evs| && evs[i].source == s
  {
    var last := |evs| - 1;
    var init := evs[..last];
    SetBitSetsOneBit(StatsOf(init).sourceBitmap, SourceIndex(evs[last].source), SourceIndex(s));
    if init == [] {
      ZeroHasNoBit(SourceIndex(s));
    } else {
      StatsAreTight(init, s);
      var lo :| 0 <= lo < last && init[lo].ts == StatsOf(init).minTs;
      var hi :| 0 <= hi < last && init[hi].ts == StatsOf(init).maxTs;
      assert evs[lo] == init[lo] && evs[hi] == init[hi];
      if TestBit(StatsOf(init).sourceBitmap, SourceIndex(s)) {
        var k :| 0 <= k < last && init[k].source == s;
        assert evs[k] == init[k];
      }
    }
  }

  lemma {:induction false} ZeroHasNoBit(k: nat)
    ensures !TestBit(0, k)
  {
    if k != 0 {
      ZeroHasNoBit(k - 1);
    }
  }

  ghost predicate Summarizes(c: ChunkIndexEntry, evs: seq<Event>)
  {
    Stats(c.minTs, c.maxTs, c.sourceBitmap) == StatsOf(evs)
  }

  /** A chunk the filter rejects holds no matching event. */
  lemma RejectedChunkHasNoMatch(f: EventFilter, c: ChunkIndexEntry, evs: seq<Event>, i: nat)
    requires Summarizes(c, evs) && !ChunkOverlaps(f, c) && i < |evs|
    ensures !Matches(f, evs[i])
  {
    StatsCoverEvents(evs, i);
  }
}
