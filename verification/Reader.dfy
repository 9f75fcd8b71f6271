/** Reading a session back: through the footer index, by scanning, or frame by frame. */
module Reader {
  import opened Bytes
  import opened Events
  import opened Externals
  import opened Codec
  import opened Footer
  import opened Chunked
  import opened Filter
  import opened Delivery
  import opened FrameStream

  datatype ReadProblem =
    | InFrame(frameAt: nat, problem: Problem)
    | ScanReport(damage: Damage)
    | ChunkOutside(index: nat, events: nat)
    | ChunkUnreadable(index: nat, events: nat)
    | ChunkMiscounted(index: nat, decoded: nat, indexed: nat)
    | GapSkipped(from: nat, to: nat)
    | TailUnreadable(count: nat)
    | FrameDamaged(at: nat, checksummed: bool)
    | FrameIncomplete(at: nat, checksummed: bool)
    | EventsMissing(count: nat)
    | EventsDropped(count: nat)
    | NewerFormat(version: byte)

  // ----- through the index -----

  datatype Outcome = Outside | Unreadable | Decoded(events: seq<Event>)

  function ReadEntryChunk(lib: Library, buf: seq<byte>, e: ChunkIndexEntry, footerOffset: nat): (r: Outcome)
  {
    if e.offset < |HEAD_MAGIC| || e.offset + 4 + e.compLen > footerOffset then Outside
    else if e.offset + 4 + e.compLen > |buf| then Unreadable
    else match DecodeChunkSpec(lib, buf[e.offset + 4..e.offset + 4 + e.compLen])
      case None => Unreadable
      case Some(evs) => Outcome.Decoded(evs)
  }

  datatype ReadState = ReadState(sink: SinkState, problems: seq<ReadProblem>)

  /** One index entry: skipped when the filter rejects the chunk, else read, reported, delivered. */
  function EntryStep(lib: Library, buf: seq<byte>, es: seq<ChunkIndexEntry>, i: nat, footerOffset: nat, c: Consumer,
      s: ReadState): (r: ReadState)
    requires i < |es|
  {
    if s.sink.stopped || (c.filter.Some? && !ChunkOverlaps(c.filter.value, es[i])) then s
    else match ReadEntryChunk(lib, buf, es[i], footerOffset)
      case Outside => s.(problems := s.problems + [ChunkOutside(i, es[i].eventCount)])
      case Unreadable => s.(problems := s.problems + [ChunkUnreadable(i, es[i].eventCount)])
      case Decoded(evs) =>
        ReadState(
          PushAll(c, s.sink, evs),
          s.problems + if |evs| != es[i].eventCount then [ChunkMiscounted(i, |evs|, es[i].eventCount)] else [])
  }

  function DecodeIndexedSpec(lib: Library, buf: seq<byte>, es: seq<ChunkIndexEntry>, n: nat, footerOffset: nat,
      c: Consumer, s: ReadState): (r: ReadState)
    requires n <= |es|
  {
    if n == 0 then s
    else EntryStep(lib, buf, es, n - 1, footerOffset, c, DecodeIndexedSpec(lib, buf, es, n - 1, footerOffset, c, s))
  }

  lemma {:induction false} StoppedSinkReadsNoMore(lib: Library, buf: seq<byte>, es: seq<ChunkIndexEntry>, k: nat,
      n: nat, footerOffset: nat, c: Consumer, s: ReadState)
    requires k <= n <= |es| && DecodeIndexedSpec(lib, buf, es, k, footerOffset, c, s).sink.stopped
    ensures DecodeIndexedSpec(lib, buf, es, n, footerOffset, c, s)
            == DecodeIndexedSpec(lib, buf, es, k, footerOffset, c, s)
  {
    if k < n {
      StoppedSinkReadsNoMore(lib, buf, es, k, n - 1, footerOffset, c, s);
    }
  }

  method DecodeIndexed(lib: Library, buf: seq<byte>, es: seq<ChunkIndexEntry>, footerOffset: nat, sink: Sink)
    returns (problems: seq<ReadProblem>)
    modifies sink
    ensures ReadState(sink.State(), problems) ==
            DecodeIndexedSpec(lib, buf, es, |es|, footerOffset, sink.consumer, ReadState(old(sink.State()), []))
  {
    hide PushAll, PushSpec, DecodeChunkSpec;
    problems := [];
    ghost var before := ReadState(sink.State(), []);
    for i := 0 to |es|
      invariant ReadState(sink.State(), problems)
                == DecodeIndexedSpec(lib, buf, es, i, footerOffset, sink.consumer, before)
    {
      if sink.stopped {
        StoppedSinkReadsNoMore(lib, buf, es, i, |es|, footerOffset, sink.consumer, before);
        return;
      }
      var e := es[i];
      if sink.consumer.filter.Some? && !ChunkOverlaps(sink.consumer.filter.value, e) {
        continue;
      }
      var end := e.offset + 4 + e.compLen;
      if e.offset < |HEAD_MAGIC| || end > footerOffset {
        problems := problems + [ChunkOutside(i, e.eventCount)];
        continue;
      }
      var start := e.offset + 4;
      var decoded := None;
      if start + e.compLen <= |buf| {
        decoded := DecodeChunk(lib, buf[start..start + e.compLen]);
      }
      match decoded {
        case Some(evs) =>
          if |evs| != e.eventCount {
            problems := problems + [ChunkMiscounted(i, |evs|, e.eventCount)];
          }
          sink.PushEach(evs);
        case None =>
          problems := problems + [ChunkUnreadable(i, e.eventCount)];
      }
    }
  }

  // ----- a chunked file -----

  function ScanReports(ds: seq<Damage>): (r: seq<ReadProblem>)
    ensures |r| == |ds|
    ensures forall i :: 0 <= i < |ds| ==> r[i] == ScanReport(ds[i])
  {
    seq(|ds|, i requires 0 <= i < |ds| => ScanReport(ds[i]))
  }

  function ScannedSpec(lib: Library, buf: seq<byte>, end: nat, c: Consumer, s: SinkState): (r: ReadState)
    requires end <= |buf|
  {
    var scan := ScanSpec(lib, buf, |HEAD_MAGIC|, end);
    ReadState(PushAll(c, s, scan.events), ScanReports(scan.damage))
  }

  /** Where the scan of a file without a usable footer ends: at the offset a refused footer claims, if it is
      plausible, else at the end of the file. */
  function ScanEnd(lib: Library, buf: seq<byte>): (end: nat)
    ensures end <= |buf|
    ensures end == |buf| || |HEAD_MAGIC| <= end
  {
    if ReadFooterSpec(lib, buf).FooterCorrupt? && ClaimedFooterOffset(buf).Some? then ClaimedFooterOffset(buf).value
    else |buf|
  }

  function ReadChunkedSpec(lib: Library, buf: seq<byte>, c: Consumer, s: SinkState): (r: ReadState)
  {
    match ReadFooterSpec(lib, buf)
    case Footer(es, offset) => DecodeIndexedSpec(lib, buf, es, |es|, offset, c, ReadState(s, []))
    case NoFooter => ScannedSpec(lib, buf, |buf|, c, s)
    case FooterCorrupt =>
      match ClaimedFooterOffset(buf)
      case Some(end) => ScannedSpec(lib, buf, end, c, s)
      case None => ScannedSpec(lib, buf, |buf|, c, s)
  }

  method ReadChunked(lib: Library, buf: seq<byte>, sink: Sink) returns (problems: seq<ReadProblem>)
    modifies sink
    ensures ReadState(sink.State(), problems) == ReadChunkedSpec(lib, buf, sink.consumer, old(sink.State()))
  {
    hide ScanSpec, DecodeIndexedSpec, PushAll, ReadFooterSpec;
    var footer := ReadFooter(lib, buf);
    var end := |buf|;
    match footer {
      case Footer(es, offset) =>
        problems := DecodeIndexed(lib, buf, es, offset, sink);
        return;
      case NoFooter =>
      case FooterCorrupt =>
        var claimed := ClaimedFooterOffset(buf);
        if claimed.Some? {
          end := claimed.value;
        }
    }
    var events, damage := ScanChunksChecked(lib, buf, end);
    sink.PushEach(events);
    problems := ScanReports(damage);
  }

  // ----- a legacy file -----

  predicate StartsWithMagic(b: seq<byte>) { |b| >= 4 && b[..4] == ZSTD_MAGIC }

  function FindChecksummed(buf: seq<byte>, p: nat): (r: Option<nat>)
    ensures r.Some? ==> p <= r.value < |buf| && FrameHasChecksum(buf[r.value..])
    ensures forall q :: p <= q < (if r.Some? then r.value else |buf|) ==> !FrameHasChecksum(buf[q..])
    decreases |buf| - p
  {
    if p >= |buf| then None
    else if FrameHasChecksum(buf[p..]) then Some(p)
    else FindChecksummed(buf, p + 1)
  }

  function FindMagic(buf: seq<byte>, p: nat): (r: Option<nat>)
    ensures r.Some? ==> p <= r.value < |buf| && StartsWithMagic(buf[r.value..])
    ensures forall q :: p <= q < (if r.Some? then r.value else |buf|) ==> !StartsWithMagic(buf[q..])
    decreases |buf| - p
  {
    if p >= |buf| then None
    else if StartsWithMagic(buf[p..]) then Some(p)
    else FindMagic(buf, p + 1)
  }

  /** The size the frame header chain announces, when it is positive and within the bytes. */
  function UsableFrameSize(lib: Library, rest: seq<byte>): (r: Option<nat>)
    ensures r.Some? ==> 0 < r.value <= |rest|
  {
    match lib.frameSize(rest)
    case Some(n) => if 0 < n <= |rest| then Some(n) else None
    case None => None
  }

  /** The data that reaches the frame parser: all or nothing for a checksummed frame, and
      for an unchecked one everything the decoder produced before any damage. */
  function FrameData(lib: Library, rest: seq<byte>): (r: (seq<byte>, bool))
  {
    var size := UsableFrameSize(lib, rest);
    var d := lib.decompress(if size.Some? then rest[..size.value] else rest);
    (if FrameHasChecksum(rest) && !(size.Some? && d.ok) then [] else d.data, d.ok)
  }

  /** Reading one frame's data into the sink: its events, and its problem unless the sink stopped first. */
  function DeliverData(lib: Library, data: seq<byte>, at: nat, c: Consumer, s: SinkState): (r: ReadState)
  {
    var p := ParseSpec(lib, data, 0);
    var t := PushAll(c, s, p.events);
    ReadState(t, if !t.stopped && p.problem.Some? then [InFrame(at, p.problem.value)] else [])
  }

  /** What one pass of the loop leaves: the state, and where to go on, if anywhere. */
  datatype LegacyStepResult = LegacyStepResult(state: ReadState, next: Option<nat>)

  function LegacyStep(lib: Library, buf: seq<byte>, pos: nat, c: Consumer, s: ReadState): (r: LegacyStepResult)
    requires pos < |buf|
    ensures r.next.Some? ==> pos < r.next.value <= |buf|
  {
    var rest := buf[pos..];
    var checksummed := FrameHasChecksum(rest);
    if !(StartsWithMagic(rest) && (checksummed || pos == 0)) then
      match FindChecksummed(buf, pos + 1)
      case Some(p) => LegacyStepResult(s.(problems := s.problems + [GapSkipped(pos, p)]), Some(p))
      case None => LegacyStepResult(s.(problems := s.problems + [TailUnreadable(|buf| - pos)]), None)
    else
      var size := UsableFrameSize(lib, rest);
      var (data, ok) := FrameData(lib, rest);
      var r := DeliverData(lib, data, pos, c, s.sink);
      var t := ReadState(r.sink, s.problems + r.problems);
      if t.sink.stopped then LegacyStepResult(t, None)
      else if size.Some? && ok then LegacyStepResult(t, Some(pos + size.value))
      else
        LegacyStepResult(
          t.(problems := t.problems + [if size.Some? then FrameDamaged(pos, checksummed)
              else FrameIncomplete(pos, checksummed)]),
          FindMagic(buf, pos + 1))
  }

  function ReadLegacySpec(lib: Library, buf: seq<byte>, pos: nat, c: Consumer, s: ReadState): (r: ReadState)
    decreases |buf| - pos
  {
    if pos >= |buf| || s.sink.stopped then s
    else
      var r := LegacyStep(lib, buf, pos, c, s);
      if r.next.None? then r.state else ReadLegacySpec(lib, buf, r.next.value, c, r.state)
  }

  /** Blocks of any size: an unchecked frame is decoded and parsed a piece at a time. */
  method StreamFrame(lib: Library, data: seq<byte>, parser: FrameParser, sink: Sink) returns (problem: Option<Problem>)
    requires parser.State() == ParserState([], 0, false) && !sink.stopped
    modifies parser, sink
    ensures var p := ParseSpec(lib, data, 0);
            && sink.State() == PushAll(sink.consumer, old(sink.State()), p.events)
            && (sink.stopped ==> problem.None?)
            && (!sink.stopped ==> p.problem == if problem.Some? then problem else FinishSpec(parser.State()))
            && (!sink.stopped && problem.Some? ==> parser.State().failed)
  {
    hide ParseSpec, Drain, PushSpec, FeedSpec;
    problem := None;
    var fed := 0;
    ghost var before := sink.State();
    ghost var whole := ParseSpec(lib, data, 0);
    ghost var done: seq<Event> := [];
    assert [] + data[0..] == data;
    ParseUnfolds(lib, [], 0);
    while fed < |data|
      invariant 0 <= fed <= |data| && !sink.stopped
      invariant sink.State() == PushAll(sink.consumer, before, done)
      invariant InStep(lib, parser.State(), problem)
      invariant whole == Prepend(done, StillToCome(lib, parser.State(), problem, data[fed..]))
      decreases |data| - fed
    {
      var n: nat :| 1 <= n <= |data| - fed;
      var piece := data[fed..fed + n];
      ghost var st, more := parser.State(), data[fed + n..];
      ghost var d := FeedSpec(lib, st, piece);
      assert data[fed..] == piece + more;
      FeedMovesEvents(lib, st, problem, piece, more);
      ghost var later := StillToCome(lib, d.next, FirstProblem(problem, d.problem), more);
      assert done + (d.events + later.events) == (done + d.events) + later.events;
      PushAllAppend(sink.consumer, before, done, d.events);
      var report := parser.Feed(lib, piece, sink);
      done := done + d.events;
      if sink.stopped {
        StoppedDeliveryIgnoresTheRest(sink.consumer, before, done, later.events);
        return None;
      }
      problem := FirstProblem(problem, report);
      fed := fed + n;
    }
    assert parser.carry + data[fed..] == parser.carry;
    assert done + [] == done;
  }

  method ReadLegacy(lib: Library, buf: seq<byte>, sink: Sink) returns (problems: seq<ReadProblem>)
    modifies sink
    ensures ReadState(sink.State(), problems) ==
            ReadLegacySpec(lib, buf, 0, sink.consumer, ReadState(old(sink.State()), []))
  {
    hide LegacyStep;
    problems := [];
    ghost var whole := ReadLegacySpec(lib, buf, 0, sink.consumer, ReadState(sink.State(), []));
    var pos := 0;
    while pos < |buf| && !sink.stopped
      invariant ReadLegacySpec(lib, buf, pos, sink.consumer, ReadState(sink.State(), problems)) == whole
      decreases |buf| - pos
    {
      var next, reports := LegacyPass(lib, buf, pos, sink, problems);
      problems := reports;
      if next.None? {
        return;
      }
      pos := next.value;
    }
  }

  /** One pass of the loop: a gap or tail reported, or one frame read. */
  method LegacyPass(lib: Library, buf: seq<byte>, pos: nat, sink: Sink, before: seq<ReadProblem>)
    returns (next: Option<nat>, problems: seq<ReadProblem>)
    requires pos < |buf| && !sink.stopped
    modifies sink
    ensures LegacyStepResult(ReadState(sink.State(), problems), next) ==
            LegacyStep(lib, buf, pos, sink.consumer, ReadState(old(sink.State()), before))
    ensures next.Some? ==> pos < next.value <= |buf|
  {
    hide DeliverData, FrameHasChecksum, StartsWithMagic;
    problems := before;
    var rest := buf[pos..];
    var checksummed := FrameHasChecksum(rest);
    if !(StartsWithMagic(rest) && (checksummed || pos == 0)) {
      next := FindChecksummed(buf, pos + 1);
      problems := problems + [if next.Some? then GapSkipped(pos, next.value) else TailUnreadable(|buf| - pos)];
      return;
    }
    var size := UsableFrameSize(lib, rest);
    var frame := if size.Some? then rest[..size.value] else rest;
    var ok, reports := ReadOneFrame(lib, frame, checksummed, size.Some?, pos, sink);
    problems := problems + reports;
    if sink.stopped {
      return None, problems;
    }
    if size.Some? && ok {
      return Some(pos + size.value), problems;
    }
    problems := problems + [if size.Some? then FrameDamaged(pos, checksummed) else FrameIncomplete(pos, checksummed)];
    next := FindMagic(buf, pos + 1);
  }

  /** Decompress one frame and hand its events over: a checksummed frame all or nothing, an
      unchecked one in pieces as the decoder yields them. */
  method ReadOneFrame(lib: Library, frame: seq<byte>, checksummed: bool, sized: bool, pos: nat, sink: Sink)
    returns (ok: bool, problems: seq<ReadProblem>)
    requires !sink.stopped
    modifies sink
    ensures ok == lib.decompress(frame).ok
    ensures var data := if checksummed && !(sized && ok) then [] else lib.decompress(frame).data;
            ReadState(sink.State(), problems) == DeliverData(lib, data, pos, sink.consumer, old(sink.State()))
  {
    hide ParseSpec, PushSpec, FeedSpec;
    var d := lib.decompress(frame);
    ok := d.ok;
    var parser := new FrameParser(pos);
    var problem := None;
    problems := [];
    if checksummed {
      ParseUnfolds(lib, [], 0);
      if sized && ok {
        FedOnceIsParsed(lib, d.data);
        problem := parser.Feed(lib, d.data, sink);
      }
    } else {
      problem := StreamFrame(lib, d.data, parser, sink);
    }
    if problem.Some? {
      problems := [InFrame(pos, problem.value)];
    }
    if sink.stopped {
      return;
    }
    var cut := parser.Finish();
    if cut.Some? {
      problems := problems + [InFrame(pos, cut.value)];
    }
  }

  lemma FedOnceIsParsed(lib: Library, data: seq<byte>)
    ensures var d := FeedSpec(lib, ParserState([], 0, false), data);
            && ParseSpec(lib, data, 0) == Parsed(d.events, FirstProblem(d.problem, FinishSpec(d.next)))
            && (d.problem.Some? ==> d.next.failed)
  {
    hide ParseSpec, Drain;
    var st := ParserState([], 0, false);
    ParseUnfolds(lib, [], 0);
    assert [] + data == data && data + [] == data;
    FeedMovesEvents(lib, st, None, data, []);
    var d := FeedSpec(lib, st, data);
    assert d.next.carry + [] == d.next.carry;
    assert d.events + [] == d.events;
  }

  // ----- the uncompressed files of the first releases -----

  /** One feed, one finish. */
  method ReadRaw(lib: Library, buf: seq<byte>, sink: Sink) returns (problems: seq<ReadProblem>)
    requires !sink.stopped
    modifies sink
    ensures ReadState(sink.State(), problems) == ReadRawSpec(lib, buf, sink.consumer, old(sink.State()))
  {
    hide ParseSpec, PushSpec, FeedSpec;
    problems := [];
    var parser := new FrameParser(0);
    FedOnceIsParsed(lib, buf);
    assert [] + buf == buf;
    var problem := parser.Feed(lib, buf, sink);
    if problem.Some? {
      problems := problems + [InFrame(0, problem.value)];
    }
    if sink.stopped {
      StoppedOnSomething(lib, buf, sink.consumer, old(sink.State()));
    }
    var cut := parser.Finish();
    if cut.Some? {
      problems := problems + [InFrame(0, cut.value)];
    }
  }

  function ReadRawSpec(lib: Library, buf: seq<byte>, c: Consumer, s: SinkState): (r: ReadState)
  {
    var p := ParseSpec(lib, buf, 0);
    var t := PushAll(c, s, p.events);
    var report := if t.stopped then Some(Problem(|buf|, Truncated)) else p.problem;
    ReadState(t, if report.Some? then [InFrame(0, report.value)] else [])
  }

  lemma StoppedOnSomething(lib: Library, buf: seq<byte>, c: Consumer, s: SinkState)
    requires !s.stopped && PushAll(c, s, ParseSpec(lib, buf, 0).events).stopped
    ensures buf != []
  {
  }

  /** Reading frame by frame until the callback stops: a report only for what was reached. */
  function ReadFrameByFrame(lib: Library, buf: seq<byte>, c: Consumer, s: SinkState): (r: ReadState)
  {
    DeliverData(lib, buf, 0, c, s)
  }

  /** An uncompressed file delivers what reading frame by frame delivers, always. Its reports agree exactly when the
      callback asks to stop at none of the matching events: after a stop the parser still holds its input, and
      `finish` takes that for a truncation. */
  lemma RawReadAgreesUnlessStopped(lib: Library, buf: seq<byte>, c: Consumer, s: SinkState)
    requires !s.stopped
    ensures var raw, ref := ReadRawSpec(lib, buf, c, s), ReadFrameByFrame(lib, buf, c, s);
            && raw.sink == ref.sink
            && (raw.problems == ref.problems <==> NeverAsksToStop(c, s.out, ParseSpec(lib, buf, 0).events))
            && (raw.problems != ref.problems ==>
                 ref.problems == [] && raw.problems == [InFrame(0, Problem(|buf|, Truncated))])
  {
    hide ParseSpec, PushAll, NeverAsksToStop;
    StopsExactlyWhenAsked(c, s, ParseSpec(lib, buf, 0).events);
  }

  /** A file of one whole frame, read by a callback that stops at its event: nothing is wrong with the file,
      and a truncation is reported. */
  lemma WholeFileReportedTruncated(lib: Library, e: Event)
    requires LawfulCbor(lib) && Encodable(lib, e)
    ensures var buf, c := Frame(lib.encode(e).value), Consumer(None, _ => true);
            && ParseSpec(lib, buf, 0) == Parsed([e], None)
            && ReadFrameByFrame(lib, buf, c, FRESH_SINK) == ReadState(SinkState([e], 1, true), [])
            && ReadRawSpec(lib, buf, c, FRESH_SINK)
               == ReadState(SinkState([e], 1, true), [InFrame(0, Problem(|buf|, Truncated))])
  {
    hide Frame;
    var buf, c := Frame(lib.encode(e).value), Consumer(None, _ => true);
    ParseAfterFrame(lib, e, [], 0);
    assert buf + [] == buf;
    hide ParseSpec;
    ParseUnfolds(lib, [], |buf|);
    assert [] + [e] == [e];
    assert PushAll(c, FRESH_SINK, [e]) == SinkState([e], 1, true);
  }

  // ----- the whole read -----

  datatype Format = Legacy | Chunked | Unsupported(version: byte)

  function DetectFormat(head: seq<byte>): (r: Format)
  {
    if |head| >= 4 && head[..3] == HEAD_MAGIC[..3] then
      if head[3] == 1 then Chunked else Unsupported(head[3])
    else Legacy
  }

  /** The counts the writer's metadata records, when it was finalized. */
  datatype Metadata = Metadata(eventCount: Option<nat>, droppedEvents: Option<nat>)

  /** Reports drawn from the metadata, unless a filter or an early stop makes the counts incomparable. */
  function CountReports(meta: Option<Metadata>, c: Consumer, s: SinkState): (r: seq<ReadProblem>)
  {
    if c.filter.Some? || s.stopped || meta.None? then []
    else
      (if meta.value.eventCount.Some? && s.seen < meta.value.eventCount.value
       then [EventsMissing(meta.value.eventCount.value - s.seen)] else [])
      + (if meta.value.droppedEvents.Some? && meta.value.droppedEvents.value > 0
         then [EventsDropped(meta.value.droppedEvents.value)] else [])
  }

  datatype ReadOutcome = Failed(problem: ReadProblem) | Read(sink: SinkState, problems: seq<ReadProblem>)

  function ForEachSpec(lib: Library, compressed: bool, buf: seq<byte>, meta: Option<Metadata>,
      c: Consumer): (r: ReadOutcome)
  {
    if compressed && DetectFormat(buf).Unsupported? then Failed(NewerFormat(DetectFormat(buf).version))
    else
      var r := if !compressed then ReadRawSpec(lib, buf, c, FRESH_SINK)
               else if DetectFormat(buf).Chunked? then ReadChunkedSpec(lib, buf, c, FRESH_SINK)
               else ReadLegacySpec(lib, buf, 0, c, ReadState(FRESH_SINK, []));
      Read(r.sink, r.problems + CountReports(meta, c, r.sink))
  }

  method ForEachEvent(lib: Library, compressed: bool, buf: seq<byte>, meta: Option<Metadata>, c: Consumer)
    returns (r: ReadOutcome)
    ensures r == ForEachSpec(lib, compressed, buf, meta, c)
  {
    hide ReadChunkedSpec, ReadLegacySpec, ReadRawSpec;
    var sink := new Sink(c);
    var problems := [];
    if compressed {
      match DetectFormat(buf) {
        case Chunked => problems := ReadChunked(lib, buf, sink);
        case Unsupported(v) => return Failed(NewerFormat(v));
        case Legacy => problems := ReadLegacy(lib, buf, sink);
      }
    } else {
      problems := ReadRaw(lib, buf, sink);
    }
    if c.filter.None? && !sink.stopped && meta.Some? {
      var m := meta.value;
      if m.eventCount.Some? && sink.seen < m.eventCount.value {
        problems := problems + [EventsMissing(m.eventCount.value - sink.seen)];
      }
      if m.droppedEvents.Some? && m.droppedEvents.value > 0 {
        problems := problems + [EventsDropped(m.droppedEvents.value)];
      }
    }
    return Read(sink.State(), problems);
  }
}
