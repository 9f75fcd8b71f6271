# Verification of smeltr's session store, analyzer and ring writer

A Dafny model of three parts of smeltr, with proofs about whole runs.

- **The session store.** Events are encoded, batched, sealed into units (a zstd frame, or a length-prefixed
  chunk), queued, and appended to a file whose writes may stop after any prefix. The reader takes them back through
  a checksummed footer index, by a scan that resynchronizes after damage, or by a streaming parser.
  Modules `Arithmetic`, `Bytes`, `Events`, `Externals`, `Codec`, `Footer`, `Chunked`, `Filter`, `Delivery`,
  `FrameStream`, `Layout`, `WireFormat`, `Reader`, `ReadBack`, `Selection`, `DamagedChunks`, `TornFooter`,
  `WrongOffset`, `Writer`, `SessionWriter`, `UncountedEvents`, `Session`, `Reopened`, `StoredLibrary`.
- **The analyzer's attribution of GPU time and memory.** Command-buffer ids are recycled, op times are clamped to
  what a queue's wall clock allows, buffers are charged to evals and scopes, a forest is built and drawn.
  Modules `Sorting`, `Windows`, `OpClamp`, `Pairing`, `ClampExact`, `Tallies`, `CallTree`, `Attribution`, `EvalCharge`,
  `Breakdown`, `Conservation`, `ClampedSession`, `TreeOrder`, `LateParent`, `WallClock`, `TraceLayout`, `Export`,
  `ExportRun`, `ExportWindows`, `EarlyOps`, `Memory`, `MemoryRun`, `MemoryTold`, `OverBudget`, `SmallSessions`.
- **The shared-memory ring writer**, with its reader running between any two of its steps. Module `Ring`.

Code that updates state in the source is a class or a loop here, proved against a definition that looks things up
directly: a backward search through the events instead of a map, a full search instead of a stack sweep, a parse of
all the bytes instead of a parser fed in pieces. CBOR, zstd and crc32 are function values; everything is proved for
every library that obeys the laws in `Externals` (decode inverts encode; decompress inverts compress; frames start
with the magic, carry a content checksum, announce their size and have a bounded size, section 3.1.1 of RFC 8878).
crc32 is any function at all. `StoredLibrary` is a concrete library that obeys the laws, so they can hold together.
`Selection`, `DamagedChunks`, `WireFormat`, `ClampExact`, `EvalCharge`, `ExportWindows` and `MemoryTold` say what these
definitions come to in terms of the recorded bytes, events and times, and with small sessions whose whole result is
spelled out (`SmallSessions` holds some more).

The disk may fail at any write; a reliable one never does. Whether an encoder can be made or finished is an input.

Times in the exporter are exact reals, scale factors exact ratios, and a scaled time is rounded down as the source's
cast does.

## What turned out not to hold

- A footer reads back as written exactly when it has fewer than 2^32 entries: the count is cast to 32 bits
  (`crates/smeltr-core/src/chunked.rs:170`). With more the footer is refused, and the scan still delivers everything
  (`Footer.FooterRoundTrip`, `ReadBack.SealedFileReadsBack`).
- The footer's checksum does not cover the offset field of its trailer. When that field is the damaged part, the reader
  refuses the footer and scans only up to the wrong offset (`crates/smeltr-core/src/reader.rs:534-537`,
  `crates/smeltr-core/src/chunked.rs:153-160`): behind an offset that is too small chunks are lost, with no report when
  it is where a chunk ends. A sealed session of one chunk can read as empty and undamaged
  (`WrongOffset.OneChunkVanishes`); only the event count in the metadata shows it, and that is compared only after a
  complete read without a filter. With the index intact and a callback that never asks to stop, everything is delivered
  and nothing reported if and only if the offset is right (`WrongOffset.OnlyTheRightOffset`; `WrongOffset.WrongOffsetIff`
  for every callback).
- After a callback stops early, reading an uncompressed file reports a truncation that is not there: the parser keeps
  its input and `finish` counts it (`crates/smeltr-core/src/reader.rs:145-150`, `264-273`). The reports are right if
  and only if the callback asks to stop at none of the matching events (`Reader.RawReadAgreesUnlessStopped`); a file
  of one frame shows it (`Reader.WholeFileReportedTruncated`).
- The breakdown tree loses the time of every call whose parent enters later: such a call is neither linked nor a root
  (`crates/smeltr-analyzer/src/breakdown.rs:273-278`, `455-459`). The tree is complete if and only if there is none
  (`CallTree.RootsHoldEverythingIffNoneLate`, `LateParent.LateParentLosesTime`).
- Clamped ops are described as adding up to their window (`crates/smeltr-analyzer/src/op_clamp.rs:10-13`). Each time is
  rounded down (`38`), so they do if and only if every scaled time is whole; otherwise they stay below it by less than
  one nanosecond an op (`ClampExact.ClampIsExact`).
- Each memory window is described as a stretch that stays over the threshold, merged with its neighbours by their
  distance (`crates/smeltr-analyzer/src/memory.rs:957-960`). The code closes a window at a sample below the threshold
  that comes late enough (`1031-1038`), so when samples are out of time order a late dip parts two near samples
  (`OverBudget.LateDipPartsAWindow`). `OverBudget.DipsMatterExactlyWhenTheyCloseEarly` gives the exact condition.
- The same description merges windows separated by less than the gap; the code merges at exactly the gap too
  (`crates/smeltr-analyzer/src/memory.rs:996`, `OverBudget.TheGapItselfJoins`), and the model follows the code.
- When a seal fails because no new encoder can be made, the batch stays open; if that happens in the last seal, its
  events are neither written nor counted as dropped in the metadata. The counts are complete if and only if no batch
  was open or its encoder could be renewed (`SessionWriter.SessionWriter.Finalize`); a session of one event shows the
  failure (`UncountedEvents.LastSealGetsNoEncoder`).
- An error from `write_event` is described as meaning the event was not kept (`crates/smeltr-core/src/writer.rs:243-246`).
  When the batch it filled finds no new encoder, the call fails and the event stays in the open batch. Whether a failed
  call left its event there is decided by the encoder's answer alone (`SessionWriter.SessionWriter.WriteEvent`,
  `SessionWriter.SessionWriter.RefusedAfterAll`, `UncountedEvents.HeldDespiteTheError`).
- The exporter draws ops in the wrong buffer's window when an ops event comes without a paired completion before it,
  as when a capture starts between a commit and its completion: it keeps them for the next lifetime of the id
  (`crates/smeltr-analyzer/src/export.rs:241-253`) and stays one behind, while the breakdown attaches each ops event
  to the completion before it (`EarlyOps.LostCommitShiftsOps`, `EarlyOps.OffByOneForGood`). All ops of an id are drawn
  in their own windows if and only if each of its ops events follows a paired completion
  (`EarlyOps.OpsAreDrawnAtOnceIff`). Every kernel still lies inside the window it was drawn in, and no two overlap.

## Model

| member | source | states |
|---|---|---|
| Codec.EncodeFrame | crates/smeltr-core/src/codec.rs:36-48 | Encodes behind four reserved bytes and patches the length in; fails exactly when the serializer refuses or the body exceeds 16 MiB, with the length saturated to 32 bits in the error. |
| Codec.ByteReader.ReadExact | crates/smeltr-core/src/codec.rs:53-83 | Loops over short reads; succeeds exactly when the bytes are there, and at the end of the data has consumed them all. |
| Codec.ReadFrame | crates/smeltr-core/src/codec.rs:53-83 | However the reader splits its bytes, one frame reads as the definition on the remaining bytes says, and the position advances by exactly what it consumed, errors included. |
| Codec.ReadAfterEncode | crates/smeltr-core/src/codec.rs:36-83 | An encoded event reads back as itself and leaves whatever follows untouched. |
| Codec.ParseAfterFrames | crates/smeltr-core/src/codec.rs:36-83 | A batch written frame after frame reads back as the batch, in order, followed by whatever the rest reads as. |
| WireFormat.LowByteFirst | crates/smeltr-core/src/codec.rs:36-48 | Numbers are written low byte first: the four bytes of any 32-bit number, spelled out. |
| WireFormat.FrameStandsLikeThis | crates/smeltr-core/src/codec.rs:36-48 | A frame is the four length bytes, spelled out, and then the body. |
| WireFormat.FramesAreLimited | crates/smeltr-core/src/codec.rs:36-48 | Bodies up to 16 MiB are framed, larger ones refused with their length, at most 2^32 - 1. |
| WireFormat.ReadsAreLimited | crates/smeltr-core/src/codec.rs:53-83 | A header over 16 MiB is an error right behind it, whatever follows; up to that, a missing rest is a truncation at the end of the data. |
| Footer.BuildBody | crates/smeltr-core/src/chunked.rs:164-176 | The loop over entries writes the count cast to 32 bits and 40 bytes an entry. |
| Footer.ReadFooter | crates/smeltr-core/src/chunked.rs:201-277 | The reader's sequence of early returns is: no footer below the minimum size or without the magic, corrupt on a bad range, size equation or checksum, else the entries. |
| Footer.FooterRoundTrip | crates/smeltr-core/src/chunked.rs:164-277 | For every prefix of at least the head magic and every entry list: the footer reads back as those entries and that offset exactly when there are fewer than 2^32 entries; with more the reader calls it corrupt. |
| Footer.AcceptedFootersAreWrittenFooters | crates/smeltr-core/src/chunked.rs:201-277 | A file is accepted with entries and an offset if and only if it ends in exactly the footer the writer writes for them; nothing else satisfies the size equation and the checksum. |
| Footer.ReadFooterJudgesBody | crates/smeltr-core/src/chunked.rs:201-277 | What the reader decides depends on the trailer and the body it names, nothing before. |
| WireFormat.EntryStandsLikeThis | crates/smeltr-core/src/chunked.rs:164-176 | The 40 bytes of an index entry, one by one. |
| WireFormat.TrailerStandsLikeThis | crates/smeltr-core/src/chunked.rs:176-186 | The 20 bytes of a trailer, one by one. |
| WireFormat.FooterStandsLikeThis | crates/smeltr-core/src/chunked.rs:164-186 | Count, entries in order, trailer over the checksum of both. |
| WireFormat.FormatsByHead | crates/smeltr-core/src/chunked.rs:133-145 | The head magic and version 1; other versions are refused by their number, any other head is legacy. |
| Chunked.DecodeChunk | crates/smeltr-core/src/chunked.rs:293-313 | All events of a chunk, ending exactly at the end of its data, or nothing. |
| Chunked.FindResync | crates/smeltr-core/src/chunked.rs:341-368 | The first position from the cursor on where a checksummed chunk decodes, and none before it does. |
| Chunked.ScanChunksChecked | crates/smeltr-core/src/chunked.rs:341-368 | The recovery loop ends on every input and gives what the recursive definition gives: events taken, gaps and tail reported. |
| Chunked.ScanWrittenChunks | crates/smeltr-core/src/chunked.rs:341-368 | Scanning whole chunks, wherever they start, yields their events in order, then what the scan makes of the rest. |
| Chunked.ScanOfACutFile | crates/smeltr-core/src/chunked.rs:318-368 | A chunk file cut at any byte: the scan begins with every event of every complete chunk, and reports damage exactly when the cut is not on a chunk boundary. |
| Chunked.ScanRecoversEveryIntactChunk | crates/smeltr-core/src/chunked.rs:318-368 | With damaged regions anywhere, every intact chunk is recovered in order and each region is reported once with its exact bounds, as long as no region starts with what decodes as a chunk or holds a decodable checksummed chunk further on. Unchecksummed bytes that happen to decode inside a region do no harm. |
| Chunked.TryWrittenChunk | crates/smeltr-core/src/chunked.rs:318-335 | A chunk the writer laid down is found at its offset, with or without the demand for a checksum. |
| WireFormat.ChunkStandsLikeThis | crates/smeltr-core/src/writer.rs:277-337 | A chunk is the length of its compressed frame in four bytes, spelled out, and the frame. |
| WireFormat.ChunksAreLimited | crates/smeltr-core/src/chunked.rs:318-335 | A chunk of length 0 or of more than 17 MiB is not taken for one, whatever the bytes. |
| Filter.StatsCoverEvents | crates/smeltr-core/src/writer.rs:67-75 | The time bounds and source bitmap kept per push cover every event of the batch. |
| Filter.StatsAreTight | crates/smeltr-core/src/writer.rs:67-75 | They cover nothing else: both bounds are reached and every set bit is some event's source. |
| Filter.RejectedChunkHasNoMatch | crates/smeltr-core/src/filter.rs:19-65 | A chunk the overlap test rejects holds no event the filter matches. |
| Selection.OverlapIsSharp | crates/smeltr-core/src/filter.rs:43-65 | A non-empty chunk passes the overlap test if and only if it holds an event that is not too early, one that is not too late, and one of the asked-for source. |
| Selection.CaseIsIgnored | crates/smeltr-core/src/filter.rs:35-39 | Names compare equal exactly when they agree letter by letter, up to ASCII case. |
| Selection.NamesTellKindsApart | crates/smeltr-core/src/filter.rs:68-115 | No two kinds share a name, up to case. |
| Selection.BufferKindsByName | crates/smeltr-core/src/filter.rs:68-115 | The command-buffer kinds are found under their own names, however written. |
| Selection.SampleKindsByName | crates/smeltr-core/src/filter.rs:68-115 | So are ops and memory samples; every other kind carries its name. |
| Selection.CallKindsByName | crates/smeltr-core/src/filter.rs:68-115 | So are evals and module calls. |
| Delivery.Sink.Push | crates/smeltr-core/src/reader.rs:174-195 | One event into the sink: counted, filtered, handed over, stop remembered; nothing once stopped. |
| Delivery.PushAllDeliversMatches | crates/smeltr-core/src/reader.rs:174-195 | A callback that never stops is handed exactly the matching events, in order. |
| Delivery.PushAllDeliversAPrefix | crates/smeltr-core/src/reader.rs:174-195 | Whatever the callback does it is handed a prefix of the matching events, and all of them unless it stopped. |
| FrameStream.SplitFrames | crates/smeltr-core/src/reader.rs:293-312 | The split is the consecutive complete frames, the bytes they span, and an impossible header right behind them if there is one. |
| FrameStream.SlicedDecodingIsSequential | crates/smeltr-core/src/reader.rs:314-340 | Decoding slices of frames apart and joining the results in order is decoding them all in order, for every slice size. |
| FrameStream.DrainIsSplitThenDecode | crates/smeltr-core/src/reader.rs:235-261 | Split, decode everything, deliver up to the first bad frame: the same events, problem and position as reading frame after frame. |
| FrameStream.FrameParser.Feed | crates/smeltr-core/src/reader.rs:235-261 | The whole effect of one piece on parser and sink, including a stop on the way, a bad frame and an impossible header. |
| FrameStream.FrameParser.Finish | crates/smeltr-core/src/reader.rs:264-273 | Bytes left over are a truncation at the position behind them; a failed parser reports nothing more. |
| FrameStream.FeedMovesEvents | crates/smeltr-core/src/reader.rs:235-284 | Feeding a piece moves its events from what is still to come to what was delivered and keeps the one problem. |
| FrameStream.StreamingEqualsBatch | crates/smeltr-core/src/reader.rs:215-284 | For every way of cutting a unit's data into pieces: the events and the single problem, with its byte position, are those of reading the joined data frame by frame. |
| Layout.SealableFits | crates/smeltr-core/src/writer.rs:277-337 | A batch within the seal limit always compresses within the scan's chunk bound, so a sealed chunk is never too large to recover. |
| Layout.IndexOfAppend | crates/smeltr-core/src/chunked.rs:164-186 | One more chunk is one more index entry, at the offset where the previous chunks end. |
| Reader.DecodeIndexed | crates/smeltr-core/src/reader.rs:556-608 | The loop over index entries is the entry-by-entry definition: skipped, outside, unreadable, miscounted or delivered, stopping with the sink. |
| Reader.ReadChunked | crates/smeltr-core/src/reader.rs:522-550 | Footer good: through the index; footer corrupt: scan up to the claimed offset; none: scan everything. |
| Reader.StreamFrame | crates/smeltr-core/src/reader.rs:359-405 | Feeding a frame's data block by block delivers what one parse of the data delivers. |
| Reader.LegacyPass | crates/smeltr-core/src/reader.rs:451-518 | One turn of the loop: gap or tail reported, or one frame read and the position advanced. |
| Reader.ReadLegacy | crates/smeltr-core/src/reader.rs:451-518 | The position loop ends on every input and is the step-by-step definition. |
| Reader.ReadRaw | crates/smeltr-core/src/reader.rs:117-170 | An uncompressed file is one feed and one finish. |
| Reader.RawReadAgreesUnlessStopped | crates/smeltr-core/src/reader.rs:117-273 | An uncompressed file always delivers what frame-by-frame reading delivers. Its reports agree if and only if the callback asks to stop at none of the prefixes of the matching events; otherwise it reports a truncation at the end of the data and frame-by-frame reading reports nothing. |
| Reader.WholeFileReportedTruncated | crates/smeltr-core/src/reader.rs:117-273 | A file of one whole frame, for any event, and a callback that stops at it: nothing is wrong, and a truncation is reported. |
| Delivery.StopsExactlyWhenAsked | crates/smeltr-core/src/reader.rs:174-195 | Delivery stops if and only if the callback asks for it at one of the prefixes of the matching events. |
| Reader.StoppedSinkReadsNoMore | crates/smeltr-core/src/reader.rs:556-608 | Once the callback stopped, later index entries change nothing. |
| Reader.ForEachEvent | crates/smeltr-core/src/reader.rs:117-170 | The whole read: format by magic, the matching path, and count reports only for a complete unfiltered pass. |
| ReadBack.IndexedReadDeliversEverything | crates/smeltr-core/src/reader.rs:556-608 | Reading through the index hands over every event in order and reports nothing, for every filter and every stopping callback. |
| ReadBack.IndexAgreesWithScan | crates/smeltr-core/src/reader.rs:522-608 | The footer-indexed read and the slow scan up to the footer give the same deliveries and no reports. |
| ReadBack.SealedFileReadsBack | crates/smeltr-core/src/reader.rs:522-608 | A sealed chunk file reads back as its batches, whether the reader takes the index or, with 2^32 entries or more, falls back to the scan. |
| ReadBack.CorruptFooterLosesNothing | crates/smeltr-core/src/chunked.rs:150-160 | Whatever bytes stand where the index should be and whatever the checksum field says: when the footer is refused and its offset field is intact, the scan up to that offset still delivers every event and reports no damage. |
| WrongOffset.WrongOffsetIff | crates/smeltr-core/src/reader.rs:522-550 | The index intact, the offset field anything between magic and trailer, the footer refused: every event is delivered and nothing reported if and only if the offset is the end of the chunks, or the end of an earlier chunk behind which the callback has stopped. |
| WrongOffset.OnlyTheRightOffset | crates/smeltr-core/src/reader.rs:522-550 | For a callback that never asks to stop: if and only if the offset is the end of the chunks. |
| WrongOffset.OffsetBelowLosesChunks | crates/smeltr-core/src/chunked.rs:153-160 | A smaller offset: the chunks that end before it are delivered, later ones are lost, and nothing is reported exactly when it is where a chunk ends. |
| WrongOffset.OffsetAboveIsReported | crates/smeltr-core/src/chunked.rs:153-160 | A larger offset: every event is delivered first, and damage is reported. |
| WrongOffset.OneChunkVanishes | crates/smeltr-core/src/reader.rs:534-537 | For every batch: a sealed session of that one chunk whose offset field reads 4 is refused and reads as empty, with no report. |
| ReadBack.FilterPushdownIsExact | crates/smeltr-core/src/reader.rs:556-608 | Reading a sealed file through any filter is filtering the full read, in order. |
| Selection.FilteredReadSelects | crates/smeltr-core/src/filter.rs:10-41 | What a filtered read of a sealed file hands over is exactly what stands at the positions where the source is the asked one, the time is within both bounds inclusively and the kind has the asked name up to ASCII case, in file order, with no report. |
| Selection.OpsAlone | crates/smeltr-core/src/filter.rs:10-41 | A mark and an ops event of the same time, asked for by a lower-case kind with both bounds at that time: the ops event alone; without the kind, both. |
| DamagedChunks.DamageIsReportedExactly | crates/smeltr-core/src/reader.rs:556-608 | Any bytes in the place of any chunks of a sealed file, the footer intact, any filter, a callback that never stops: exactly the matching events of the admitted chunks that still decode, in order; exactly one report for each admitted chunk that does not decode or decodes to another count, with its number and counts; so no report if and only if all of them decode as indexed. |
| DamagedChunks.OneDamagedChunk | crates/smeltr-core/src/reader.rs:556-608 | One chunk no longer decodes: every other event is read, and that chunk is reported with its number and count. |
| DamagedChunks.EntryLeadsToItsUnit | crates/smeltr-core/src/reader.rs:556-586 | Each index entry leads to exactly the bytes in the place of its chunk. |
| DamagedChunks.MissingEventsAreCounted | crates/smeltr-core/src/reader.rs:151-168 | An undamaged session read in full: missing events are reported if and only if the metadata counts more, with their exact number; dropped ones likewise; nothing else is. |
| DamagedChunks.PartialReadsAreNotCounted | crates/smeltr-core/src/reader.rs:151-168 | A read with a filter, or one that stopped, reports no missing or dropped events. |
| ReadBack.CutChunkFileReadsBack | crates/smeltr-core/src/reader.rs:522-550 | An unfinished chunk file cut anywhere: all events of chunks complete before the end of the scan first, a report exactly when that end is inside a chunk. The scan ends at the cut, unless the cut bytes end like a footer that is refused and claims an earlier offset. Hypothesis: they are not accepted as a footer. |
| Chunked.ScanIgnoresWhatFollows | crates/smeltr-core/src/chunked.rs:318-368 | A scan up to an offset depends on the bytes before that offset alone. |
| ReadBack.LegacyReadsWholeFrames | crates/smeltr-core/src/reader.rs:451-518 | Intact checksummed frames hand over their events in order and the read goes on behind them. |
| ReadBack.CutLegacyFileReadsBack | crates/smeltr-core/src/reader.rs:451-518 | A legacy file cut anywhere: all events of complete frames first, a report exactly when the cut is inside a frame. |
| Writer.RetryOverwritesTheTail | crates/smeltr-core/src/writer.rs:133-159 | Writing the front unit again at the cursor overwrites exactly the stray prefix a failed attempt left. |
| Writer.AttemptKeepsOnDisk | crates/smeltr-core/src/writer.rs:133-159 | However much of the front unit an attempt writes, and cut back or not, the file stays whole units in order plus at most a prefix of the front pending unit. |
| Writer.Appender.Enqueue | crates/smeltr-core/src/writer.rs:119-129 | Keeps a unit exactly when the backlog is empty or stays within the bound, else counts its events as dropped. |
| Writer.Appender.TryFront | crates/smeltr-core/src/writer.rs:133-159 | A write of the front unit lands whole, or leaves the file valid whatever prefix was written and whether or not it could be cut back; on a reliable file it lands whenever its end fits a 64-bit position. |
| Writer.Appender.Drain | crates/smeltr-core/src/writer.rs:133-159 | Under any pattern of failed writes: units only move from pending to written, in order; success means nothing is pending and the file is exactly the written units; the counters, cursor and index follow. On a reliable file it succeeds. |
| SessionWriter.PlacedIsTheIndex | crates/smeltr-core/src/writer.rs:133-159 | The index the appender accumulates is the index of the chunks at their real offsets. |
| SessionWriter.UnitsSpellTheBatches | crates/smeltr-core/src/writer.rs:277-337 | The units' bytes and event counts are those of the batches they were sealed from. |
| SessionWriter.Batch.Push | crates/smeltr-core/src/writer.rs:67-75 | An encoded event joins the batch; data, count, bytes, bounds and bitmap stay those of its events. |
| SessionWriter.SessionWriter.Seal | crates/smeltr-core/src/writer.rs:277-337 | A sealed batch is kept or its events are counted as dropped; a batch whose encoder cannot be renewed stays as it is. With a working encoder and an empty or fitting backlog the batch is kept. |
| SessionWriter.SessionWriter.WriteEvent | crates/smeltr-core/src/writer.rs:247-273 | Refused exactly when it cannot be encoded, changing nothing. An accepted event is the last of the open batch or of the last sealed one, which holds what was open before it, or begins a new batch if it no longer fitted; and the open batch is again below its limits: 256 KiB, or the configured bytes and events and 16 MiB. An event that stays below them is always accepted with nothing sealed, and on a reliable disk with a working encoder every encodable event is. Any other failure: the event was not pushed, or was dropped with its batch, or, exactly when no new encoder could be made, is still the last of the open batch. |
| SessionWriter.SessionWriter.Flush | crates/smeltr-core/src/writer.rs:357-370 | On success everything sealed is on disk and the open batch is empty or, for chunks, below the configured minimum; a batch below it is left alone; on a reliable disk with a working encoder it succeeds. |
| SessionWriter.SessionWriter.Finalize | crates/smeltr-core/src/writer.rs:391-433 | Written and dropped events make up every event pushed if and only if no batch was open or its encoder could be renewed; else the open batch is counted nowhere. On success the file is base, kept units and, when chunked, the footer for exactly them; on a reliable disk with a working encoder it succeeds. |
| SessionWriter.SessionWriter.FinishFooter | crates/smeltr-core/src/writer.rs:391-433 | A footer that fails part way is cut off again if the file can be cut; otherwise a prefix of it remains behind the units. On a reliable file it is written whole. |
| SessionWriter.WriteFooterAt | crates/smeltr-core/src/chunked.rs:164-186 | Four separate writes leave the whole footer, always on a reliable file, or a prefix of it. |
| SessionWriter.EveryEventIsCounted | crates/smeltr-core/src/writer.rs:117-129 | In every state of the writer: events pushed = open + pending + written + dropped. |
| SessionWriter.EverySealedEventIsCounted | crates/smeltr-core/src/writer.rs:277-337 | Every sealed event is in a kept batch or counted as lost. |
| SessionWriter.KeptFitTheBound | crates/smeltr-core/src/writer.rs:277-337 | The bytes of all kept units and their index entries are bounded by the sizes of the events alone, so whether a session fits 64-bit positions can be told from its input. |
| UncountedEvents.LastSealGetsNoEncoder | crates/smeltr-core/src/writer.rs:277-282 | A session of one small event on a working disk with no encoder at the end: the event was accepted, and the metadata says 0 written and none dropped. |
| UncountedEvents.HeldDespiteTheError | crates/smeltr-core/src/writer.rs:243-282 | A session that seals every event and gets no new encoder: the call fails, and the writer holds the event. |
| Session.FileIsACutOfTheKept | crates/smeltr-core/src/writer.rs:117-159 | In every reachable state the file is the header plus a cut of the kept units in acceptance order, at or behind the cursor. |
| Session.AnyChunkedStateReadsBack | crates/smeltr-core/src/writer.rs:117-159 | In every state of a chunked writer, reading gives every written unit's events first and in order; with the tail cut, exactly those and no report. Hypothesis: the file is not accepted as sealed, and no refused footer in it claims an offset before the writer's cursor. |
| Session.AnyLegacyStateReadsBack | crates/smeltr-core/src/writer.rs:117-159 | The same for the legacy format, also when the file already held whole frames when it was opened: those come first. No hypothesis on where the file ends; damaged ends are `Reopened.ReopenedStateReadsBack`. |
| Reopened.ReopenedStateReadsBack | crates/smeltr-core/src/writer.rs:209-219 | A legacy file that ended in any damaged bytes when it was opened, in every state of the new writer: its whole frames come first, always. Unless the damage holds what reads as a frame, it is reported, every new frame on disk follows in order, and with the tail cut that is all, with at most that one report. |
| Reopened.DamageStep | crates/smeltr-core/src/reader.rs:451-518 | A stretch with no frame magic behind its first byte and no acceptable frame at it draws exactly the report its kind calls for, with its bounds, and the reader resumes exactly behind it; a magic cannot even arise across its end. |
| Reopened.OldFrameKeepsItsPrefix | crates/smeltr-core/src/reader.rs:451-518 | A damaged frame from before checksums that is all of its file: the events decoded before the damage are delivered, and the damage is reported at the frame's start. |
| Session.AfterFinalizeReadsBack | crates/smeltr-core/src/writer.rs:391-433 | However finalizing a chunk file went: every written event reads back first, in order; all there is and no report when the scan ends with the units, a report when it reaches into a torn footer. Hypothesis: no footer is accepted and none claims an offset before the end of the units. |
| TornFooter.TornFooterReadsBack | crates/smeltr-core/src/reader.rs:522-550 | Any start of a footer behind the chunks, the whole one included when it is refused: it is never taken for a chunk, every event is delivered first, and a report is drawn exactly when the scan ends behind the chunks. Same hypothesis. |
| Session.FinishedFileReadsBack | crates/smeltr-core/src/reader.rs:117-170 | A finalized session reads back as its sealed batches, with no report, whatever the format, filter and callback. |
| Session.RecordAndRead | crates/smeltr-core/src/writer.rs:247-433 | End to end: on a reliable disk with a working encoder any session of encodable events that fits 64-bit positions is recorded completely, for every chunk setting; and whenever nothing was refused, also on a disk that fails, the reader hands over exactly the recorded events, through any filter and up to any stop, and reports nothing. |
| Ring.RingBuffer.WriteFrameLocked | metal-hook/src/ring.c:158-199 | With the reader free to run between any two steps: exactly one zero-padded record joins the history or `dropped` grows by one, never both; no drop when there was room; the recursion happens at most once. |
| Ring.RingBuffer.WriteFrame | metal-hook/src/ring.c:201-207 | The same behind the `writable` test; a forked child changes nothing. |
| Ring.RingBuffer.PutFrame | metal-hook/src/ring.c:191-199 | A record at the head, published with its header, payload and zero fill in place. |
| Ring.RingBuffer.PutPad | metal-hook/src/ring.c:184-187 | Padding to the end of the buffer adds no record and brings the head to offset 0. |
| Ring.RingBuffer.StageFrame | metal-hook/src/ring.c:191-198 | Bytes are written only into free space, so no frame between tail and head changes, however far the reader has moved meanwhile. |
| Ring.RingBuffer.Next | crates/smeltr-metal-ring/src/reader.rs:69-110 | The reader skips padding and is handed the oldest record not yet delivered, or nothing exactly when none is left. |
| Ring.HoldsSurvives | metal-hook/src/ring.c:158-199 | Frames between tail and head survive every write outside them. |
| Ring.HoldsAppend | metal-hook/src/ring.c:158-199 | A frame published at the head joins the queue at its end. |
| Ring.PadFits | metal-hook/src/ring.c:177-183 | Offsets are multiples of the alignment, so a PAD header always fits before the end: the defensive drop is never reached. |
| WireFormat.RecordStandsLikeThis | metal-hook/src/ring.c:158-199 | The 32 bytes of a record with a payload of three, one by one. |
| Windows.EvalWindows | crates/smeltr-analyzer/src/windows.rs:45-83 | One window per return whose call is open, found by a backward search, stably sorted by start. |
| EvalCharge.EvalWindowsAreTold | crates/smeltr-analyzer/src/windows.rs:45-83 | The windows are exactly those of evals that return, from entry to return, half a second longer for an asynchronous return, sorted by start. |
| Windows.ScopeWindows | crates/smeltr-analyzer/src/windows.rs:115-166 | One window per entry, closed by the return that names it, and the exact count of orphan returns and unreturned calls. |
| SmallSessions.MalformedCounted | crates/smeltr-analyzer/src/windows.rs:140-165 | A session with an orphan return, a call left open and a repeated return: one of each counted, the repeated one as neither. |
| EvalCharge.ScopeWindowsAreTold | crates/smeltr-analyzer/src/windows.rs:115-166 | With distinct call ids every call has its window, from its entry to the first return naming it or the end of the session, and there are no others. |
| Windows.DistinctCallEndsAtFirstReturn | crates/smeltr-analyzer/src/windows.rs:115-166 | With distinct call ids a window ends at the first return naming it. |
| Windows.ScopeSweep.InnermostAt | crates/smeltr-analyzer/src/windows.rs:172-203 | For non-decreasing timestamps the stack sweep is the full search: the last window in start order that covers the time and its grace, or none, even when windows do not nest. |
| Windows.EvalAt | crates/smeltr-analyzer/src/windows.rs:205-216 | The last window covering the time, and no later one does. |
| Sorting.StableSortSorts | crates/smeltr-analyzer/src/windows.rs:81-81 | The sort orders by key and permutes. |
| Sorting.StableSortKeepsTies | crates/smeltr-analyzer/src/breakdown.rs:450-461 | Equal keys keep their order. |
| OpClamp.OpClampState.Observe | crates/smeltr-analyzer/src/op_clamp.rs:64-93 | Each step of the three-map machine gives what a backward search for scheduling, previous completion and unconsumed window gives. |
| OpClamp.ComputeOpTimeScales | crates/smeltr-analyzer/src/op_clamp.rs:98-107 | The factors are exactly those of the ops events whose sum exceeds their window. |
| OpClamp.ApplyOpTimeScales | crates/smeltr-analyzer/src/op_clamp.rs:112-125 | Element by element, before and after: an ops event whose factor is `window / sum` has each time `x` of `g` with `x * sum <= g * window < (x + 1) * sum`, apportioned parts likewise and everything else kept; all other events are unchanged. |
| OpClamp.FactorIsItsOwn | crates/smeltr-analyzer/src/op_clamp.rs:98-125 | With distinct sequence numbers each event is scaled by its own factor. |
| OpClamp.ClampedFitsItsWindow | crates/smeltr-analyzer/src/op_clamp.rs:36-93 | After the clamp an ops event never exceeds its window. |
| OpClamp.WindowsFitTheSpan | crates/smeltr-analyzer/src/op_clamp.rs:64-93 | The windows of a queue add up to at most last completion minus first scheduling. |
| OpClamp.ClampedTimesFitTheQueueSpan | crates/smeltr-analyzer/src/op_clamp.rs:64-93 | Wall-clock bound: the clamped op times charged to a queue over a whole run fit its span; each window is consumed at most once. |
| OpClamp.ClampedTotalFitsTheSpans | crates/smeltr-analyzer/src/op_clamp.rs:64-125 | All queues together: the clamped op times of a run fit the sum of the queue spans. |
| ClampExact.ClampIsExact | crates/smeltr-analyzer/src/op_clamp.rs:36-125 | From the recorded times alone, for ops that follow their own completion: ops that fit the time from scheduling, or the queue's previous completion, to completion stay raw; others are scaled in proportion, add up to at most that time and to more than it less one nanosecond an op, and to exactly it if and only if every scaled time is whole. |
| ClampExact.OthersStayRaw | crates/smeltr-analyzer/src/op_clamp.rs:70-93 | Ops without such a completion, or whose time other ops have claimed, stay raw. |
| ClampExact.OtherEventsStay | crates/smeltr-analyzer/src/op_clamp.rs:112-125 | No event that is not an ops event changes. |
| ClampExact.FactorsCounted | crates/smeltr-analyzer/src/op_clamp.rs:29-33 | The number of clamped buffers is the number of ops events whose sum exceeds that time. |
| ClampExact.OverlappingIsHalved | crates/smeltr-analyzer/src/op_clamp.rs:36-125 | A buffer of 100 ns with ops of 150 and 50: they become 75 and 25. |
| Pairing.PairCommandBuffers | crates/smeltr-analyzer/src/breakdown.rs:191-237 | One entry per paired completion with its own commit time and the last ops event attached to it, for every stream and every reuse of ids. |
| Pairing.LastPairedIs | crates/smeltr-analyzer/src/breakdown.rs:191-237 | The completion an ops event belongs to is the latest one of its id with a commit, and nothing of the kind lies between. |
| Pairing.OpsAre | crates/smeltr-analyzer/src/breakdown.rs:191-237 | A completion has the last of the ops events that belong to it. |
| Pairing.OpsAreUsedOnce | crates/smeltr-analyzer/src/breakdown.rs:191-237 | No ops event is used for two completions, however often ids are recycled. |
| Pairing.CompletionGetsItsCommit | crates/smeltr-analyzer/src/breakdown.rs:191-237 | When ids repeat committed, completed, optional ops: each completion gets its own commit. |
| Pairing.CompletionGetsItsOps | crates/smeltr-analyzer/src/breakdown.rs:191-237 | Under the same condition each completion gets exactly the ops event that follows it. |
| ClampedSession.BothWaysAgree | crates/smeltr-analyzer/src/breakdown.rs:178-237 | Pairing with the clamp factors and pairing the events rewritten by them give the same buffers: same commit times, times in flight and op times, op by op. |
| Tallies.AddOps | crates/smeltr-analyzer/src/breakdown.rs:84-101 | Adding ops one by one to the per-name totals is merging the table of those ops. |
| SmallSessions.OpsAddUp | crates/smeltr-analyzer/src/breakdown.rs:66-101 | Ops with a symbol are listed by it; ops of one entry add up their times, counts and apportioned parts. |
| Tallies.MergeInto | crates/smeltr-analyzer/src/breakdown.rs:380-417 | Draining one table into another gives their sum whatever the map's order. |
| Tallies.SumTableMerge | crates/smeltr-analyzer/src/breakdown.rs:84-101 | Merging tables adds their times. |
| CallTree.IndexCalls | crates/smeltr-analyzer/src/breakdown.rs:252-281 | Each entered call by its latest entry, with the children that entered after it, in order. |
| CallTree.BuildWeighs | crates/smeltr-analyzer/src/breakdown.rs:422-448 | A built node's subtree time and buffer total are those of everything linked below it; building ends for every stream, since children enter after their parent. |
| CallTree.RootsAndLateHoldEverything | crates/smeltr-analyzer/src/breakdown.rs:273-278 | Exact accounting for any weight: root subtrees plus the subtrees of calls whose parent enters later make up all calls. |
| CallTree.RootsHoldEverythingIffNoneLate | crates/smeltr-analyzer/src/breakdown.rs:450-461 | The roots hold everything, whatever is counted, if and only if every parent enters before its children or never. |
| CallTree.RootsSum | crates/smeltr-analyzer/src/breakdown.rs:450-461 | Any listing of the roots, each once, sums to the same. |
| Attribution.ChargeEvals | crates/smeltr-analyzer/src/breakdown.rs:297-342 | One pass adds every buffer to its eval's sums or sets it aside, and counts the unsampled ones. |
| Attribution.ChargeScopes | crates/smeltr-analyzer/src/breakdown.rs:344-378 | Sorted by commit time and swept over scope windows, the rest is charged to the innermost scope or to none. |
| Attribution.ChargeLeaves | crates/smeltr-analyzer/src/breakdown.rs:380-403 | Each eval's sums go to the leaf of its module stack when that call entered, else to no call. |
| Attribution.MergeFallback | crates/smeltr-analyzer/src/breakdown.rs:405-417 | Scope sums reach their nodes whatever the map's order. |
| Attribution.Attribute | crates/smeltr-analyzer/src/breakdown.rs:297-417 | The passes together charge each call exactly the buffers a one-buffer-at-a-time definition charges it. |
| EvalCharge.InnermostCallGetsTheBuffer | crates/smeltr-analyzer/src/breakdown.rs:380-403 | A buffer committed in an eval whose stack is `outer + [id]`: its whole charge is in the `own` of call `id` when it entered, whatever `outer` is, and nobody else holds any of it. |
| EvalCharge.NobodyGetsTheBuffer | crates/smeltr-analyzer/src/breakdown.rs:380-403 | When the innermost call never entered or the stack is empty, the unscoped row holds the whole charge and no call any of it. |
| EvalCharge.InnermostScopeGetsTheBuffer | crates/smeltr-analyzer/src/breakdown.rs:344-378 | A buffer of no eval goes whole to the scope that started last among those open at its commit, half a second of grace included. |
| EvalCharge.NoScopeGetsTheBuffer | crates/smeltr-analyzer/src/breakdown.rs:368-377 | With no scope open either it goes whole to the unscoped row. |
| EvalCharge.BufferCounts | crates/smeltr-analyzer/src/breakdown.rs:307-342 | A buffer counts as one, at its own commit time, with the sum of its op times; without ops with nothing, or with its time in flight when the session has no ops at all. |
| EvalCharge.CallsCountTheirEvals | crates/smeltr-analyzer/src/breakdown.rs:380-390 | Every call counts exactly the evals whose stack ends in it. |
| EvalCharge.OthersCounted | crates/smeltr-analyzer/src/breakdown.rs:396-403 | The unscoped row counts the evals with an empty stack or an innermost call that never entered. |
| EvalCharge.UnsampledCounted | crates/smeltr-analyzer/src/breakdown.rs:305-313 | Buffers without ops are counted exactly in sessions that have ops. |
| EvalCharge.UnmatchedCounted | crates/smeltr-analyzer/src/breakdown.rs:368-377 | The unmatched count is the number of buffers committed outside every eval and every scope with its grace. |
| EvalCharge.InnerCallHoldsIt | crates/smeltr-analyzer/src/breakdown.rs:380-403 | A session of two nested calls with an eval of stack `[1, 2]` and one buffer: call 2 holds the time, the buffer and the eval, call 1 nothing. |
| EvalCharge.TreeOfTwoLevels | crates/smeltr-analyzer/src/breakdown.rs:419-507 | The whole tree of that session, every field. |
| Breakdown.CollectRoots | crates/smeltr-analyzer/src/breakdown.rs:450-461 | Exactly the calls without an entered parent, in call-id order. |
| Breakdown.Analyze | crates/smeltr-analyzer/src/breakdown.rs:252-507 | The tree and the diagnostics are those of the definitions over the session. |
| Breakdown.Compute | crates/smeltr-analyzer/src/breakdown.rs:239-507 | Empty sessions are refused; otherwise op times are clamped in a copy and the tree is the one the definitions give. |
| SmallSessions.UnscopedRow | crates/smeltr-analyzer/src/breakdown.rs:463-485 | What no call is charged is a row of its own if and only if it holds time, an eval or a buffer. |
| Conservation.ChargesAreAllPlaced | crates/smeltr-analyzer/src/breakdown.rs:297-417 | Every buffer is charged to exactly one place: the calls' shares and the unscoped share are everything. |
| Conservation.TreeAccountsForEverything | crates/smeltr-analyzer/src/breakdown.rs:297-507 | In time and in buffers, the tree plus what sits under late calls is exactly what was measured. |
| Conservation.TreeConserves | crates/smeltr-analyzer/src/breakdown.rs:297-507 | With distinct call ids and no late parent: the root's subtree time is the sum over completed buffers and the tree's buffer counts sum to their number. |
| ClampedSession.ComputedTreeConserves | crates/smeltr-analyzer/src/breakdown.rs:239-507 | For the tree `Compute` returns, from the recorded events: with distinct call ids and no late parent its root shows the clamped time of all completed buffers, and every one is counted once. |
| ClampedSession.ComputedTreeNeverOvercounts | crates/smeltr-analyzer/src/breakdown.rs:239-507 | And with late parents it never shows more. |
| ClampedSession.ClampKeepsLateCalls | crates/smeltr-analyzer/src/op_clamp.rs:112-125 | Rewriting op times changes neither which calls are late nor, in `ClampKeepsShape`, whether call ids are distinct and ops were sampled. |
| Conservation.TreeNeverOvercounts | crates/smeltr-analyzer/src/breakdown.rs:297-507 | The tree never shows more than was measured, and shows all of it if and only if no time sits under a late call. |
| Conservation.TreeIsBalanced | crates/smeltr-analyzer/src/breakdown.rs:297-507 | Once any op was sampled, every node's own time is the sum of its ops. |
| TreeOrder.TreeIsOrdered | crates/smeltr-analyzer/src/breakdown.rs:429-485 | Every node lists its children by falling subtree time, the unscoped row among the roots included. |
| LateParent.LateParentLosesTime | crates/smeltr-analyzer/src/breakdown.rs:273-278 | A concrete session of four events: 7 ns are measured and charged to a call that enters before its parent, and the tree shows 0. |
| WallClock.CompletionsHoldAtMostTheOps | crates/smeltr-analyzer/src/breakdown.rs:191-250 | The completions together hold at most the op times of the session. |
| WallClock.BreakdownFitsTheWallClock | crates/smeltr-analyzer/src/breakdown.rs:245-507 | The breakdown's total is at most the sum of the queue spans when each ops event follows its own scheduling and completion and completions come in order. |
| TraceLayout.RenderChromeTrace | crates/smeltr-analyzer/src/breakdown.rs:783-849 | The cursor walk draws the slices the recursive definition gives, properly nested. |
| TraceLayout.DrawingIsLaminar | crates/smeltr-analyzer/src/breakdown.rs:786-846 | For any tree and any rounding: a slice encloses exactly what is drawn inside it and ends before anything else drawn later starts. |
| TraceLayout.TracksNeverOverlap | crates/smeltr-analyzer/src/breakdown.rs:786-846 | On each track slices never overlap. |
| TraceLayout.NodeEnclosesItsContents | crates/smeltr-analyzer/src/breakdown.rs:786-846 | Every node's slice encloses all its children and ops, and is at least its own time. |
| SmallSessions.Slices | crates/smeltr-analyzer/src/breakdown.rs:786-846 | A node with a child and an op, in whole microseconds of at least one: the three slices with their positions and depths. |
| Export.PushKernels | crates/smeltr-analyzer/src/export.rs:60-90 | The loop draws each op behind the previous one, scaled when their sum exceeds the window. |
| Export.KernelsStayInside | crates/smeltr-analyzer/src/export.rs:60-90 | Every kernel lies inside its buffer's window. |
| Export.KernelsOfABufferAreDisjoint | crates/smeltr-analyzer/src/export.rs:60-90 | The kernels of one buffer follow each other. |
| Export.WindowsNeverOverlap | crates/smeltr-analyzer/src/export.rs:182-233 | GPU windows of one queue never overlap, for any interleaving and any reuse of ids. |
| Export.KernelsNeverOverlap | crates/smeltr-analyzer/src/export.rs:60-253 | Given one batch per window, all kernels of a queue are pairwise disjoint. |
| ExportRun.Complete | crates/smeltr-analyzer/src/export.rs:182-253 | A completion draws its window once, then the ops its id holds, or leaves the window waiting. |
| ExportRun.DrawOps | crates/smeltr-analyzer/src/export.rs:250-253 | Ops are drawn in the window that waits for them, which is used up, or kept for a later completion. |
| ExportRun.ToChromeTrace | crates/smeltr-analyzer/src/export.rs:92-253 | Over a whole session: exactly the windows and kernels the per-queue and per-id definitions give, for every interleaving and reuse of ids. |
| ExportWindows.WindowsAreTold | crates/smeltr-analyzer/src/export.rs:182-233 | Every window belongs to one completed lifetime of a buffer, starts exactly at the latest of its commit, its own last scheduling and the end of its queue's previous window, and ends at commit plus flight time or, when that is over, at its start. |
| ExportWindows.EveryLifetimeHasAWindow | crates/smeltr-analyzer/src/export.rs:182-233 | And every completed lifetime has a window, in the order of completion. |
| ExportWindows.KernelsAreLaid | crates/smeltr-analyzer/src/export.rs:60-90 | The kernels of a batch start with the window and follow each other without gaps; a batch that fits keeps the measured times, one that does not fills the window exactly, in proportion. |
| ExportWindows.BatchesAreLaid | crates/smeltr-analyzer/src/export.rs:60-253 | In every session each batch is one stretch of the kernel lane laid out like that in its window. |
| ExportWindows.OneBufferIsDrawn | crates/smeltr-analyzer/src/export.rs:182-253 | Committed at 0, scheduled at 6 us, 10 us in flight, ops of 6 and 2 us: a window from 6 to 10, kernels of 3 and 1. |
| ExportRun.WindowsAreUsedOnce | crates/smeltr-analyzer/src/export.rs:182-253 | In every session each window is drawn at most one batch of kernels, and the windows of a queue follow each other. |
| ExportRun.KernelsOfAQueueAreDisjoint | crates/smeltr-analyzer/src/export.rs:60-253 | In every session no two kernels of a queue overlap. |
| ExportRun.KernelsLieInTheirWindows | crates/smeltr-analyzer/src/export.rs:60-253 | In every session each kernel is one op of one batch, carries its name, and lies inside the window of that batch on its queue. |
| ExportRun.TheLatestWaits | crates/smeltr-analyzer/src/export.rs:195-253 | A window that waits for ops is its buffer id's latest completion, the one the breakdown attaches the ops to. |
| ExportRun.OrderlyOpsAreDrawnAtOnce | crates/smeltr-analyzer/src/export.rs:195-253 | When every id repeats committed, completed, optional ops, every ops event finds its own buffer's window waiting and nothing is ever kept for later. The exact condition is `EarlyOps.OpsAreDrawnAtOnceIff`. |
| EarlyOps.OpsAreDrawnAtOnceIff | crates/smeltr-analyzer/src/export.rs:195-253 | For any session and id: every ops event is drawn at once in the window of the completion the breakdown attaches it to, if and only if the latest paired completion or ops event of its id before it is a completion. |
| EarlyOps.OffByOneForGood | crates/smeltr-analyzer/src/export.rs:195-253 | Once an id holds ops, alternating completions and ops never bring it back: no later ops event is drawn in its own window. |
| EarlyOps.TwoEarlyDrawnInOrder | crates/smeltr-analyzer/src/export.rs:241-253 | Two ops events before a completion are drawn together, in the order they came. |
| EarlyOps.LostCommitShiftsOps | crates/smeltr-analyzer/src/export.rs:195-253 | A concrete session whose first commit was not captured: the only window gets the ops of the buffer before, its own are never drawn, and the breakdown attaches its own. |
| MemoryRun.ComputeMemoryBreakdown | crates/smeltr-analyzer/src/memory.rs:170-318 | The table is the merge of the calls' own figures, one after another, over an order that names every entered call exactly once: calls by the end of their grace, then those still in grace, then those still open. So each row has its calls' largest peak and growth, and the rest from the first call with that peak. |
| MemoryTold.RowIsTold | crates/smeltr-analyzer/src/memory.rs:176-225 | With distinct call ids, from the samples alone: a call's figures are the number, the largest, the average rounded down and the last of the samples taken before its first return or at most half a second after it. |
| MemoryTold.ThreeSamples | crates/smeltr-analyzer/src/memory.rs:176-225 | A session with samples of 100, 500 and 200 in one call: peak 500, average 266, end 200, growth 400, three samples. |
| MemoryTold.GraceTail | crates/smeltr-analyzer/src/memory.rs:257-295 | A first sample exactly at the end of the grace counts and is no growth; one nanosecond later it does not count. |
| Memory.InTimeOrderIs | crates/smeltr-analyzer/src/memory.rs:166-174 | The walk is a rearrangement of the events, by time and then by number. |
| Memory.FirstPeakWins | crates/smeltr-analyzer/src/memory.rs:202-225 | A name's row has the average, end and count of the first merged call with its largest peak. |
| MemoryRun.Sweep | crates/smeltr-analyzer/src/memory.rs:227-236 | Exactly the draining calls past their deadline are finished: each is merged once, later than every call due before it, and none left was due. |
| MemoryRun.Handle | crates/smeltr-analyzer/src/memory.rs:238-298 | One event moves calls between open and draining and credits samples as the per-call definition says. |
| Memory.SummarizesMore | crates/smeltr-analyzer/src/memory.rs:202-224 | Merging a finished call keeps each row the largest peak and growth of its name. |
| Memory.FoldSummarizes | crates/smeltr-analyzer/src/memory.rs:202-224 | Merged in any order, the calls of a name leave its largest peak and growth, and the rest from a call with that peak; a name has a row exactly when one of its calls was merged. |
| Memory.FrozenAfterDeadline | crates/smeltr-analyzer/src/memory.rs:227-236 | Past its deadline no later event changes a call's sums, so finishing it early loses nothing. |
| Memory.ReturnClosesOneCall | crates/smeltr-analyzer/src/memory.rs:251-263 | A return closes at most one call, of the id it names: orphan and out-of-order returns leave the others alone. |
| Memory.GrowthIsTheRiseWhileOpen | crates/smeltr-analyzer/src/memory.rs:265-298 | Growth is the largest rise above the first sample while the call was open, nothing when its first sample came in the grace tail. |
| OverBudget.OverBudgetWindows | crates/smeltr-analyzer/src/memory.rs:962-1047 | For every event order: the windows are those of the runs as the code decides them, with start, end, earliest true peak and its scope. |
| OverBudget.RunsAreMaximal | crates/smeltr-analyzer/src/memory.rs:962-1047 | Runs cover every over-threshold sample once, in order, and no two neighbours would join. |
| OverBudget.RunsHoldTogether | crates/smeltr-analyzer/src/memory.rs:962-1047 | Inside a run every over-threshold sample is within the gap of the one before it. |
| OverBudget.DipsMatterExactlyWhenTheyCloseEarly | crates/smeltr-analyzer/src/memory.rs:962-1047 | The windows depend on the over-threshold samples alone if and only if no dip between two near samples outlasts the gap. |
| OverBudget.InOrderRuns | crates/smeltr-analyzer/src/memory.rs:962-1047 | For samples in time order dips never matter and neighbouring windows are more than the gap apart. |
| OverBudget.LateDipPartsAWindow | crates/smeltr-analyzer/src/memory.rs:1031-1038 | A concrete out-of-order session where a late dip parts two samples one nanosecond apart. |
| OverBudget.TheGapItselfJoins | crates/smeltr-analyzer/src/memory.rs:996-1002 | Two samples exactly the gap apart make one window; one nanosecond less gap makes two. |
| SmallSessions.OneWindowOverBudget | crates/smeltr-analyzer/src/memory.rs:962-1047 | A session of two nested calls with samples at 12, 9 and 8 of 10 and one without a limit, threshold 0.9: one window from the first to the second, with its peak and the inner call's name. |

## Left out

- CBOR, zstd and crc32 internals: function values with laws; the source calls library code for them.
- Metadata file, directories, session lookup, environment variables: file system plumbing around the store.
- I/O errors other than a write, flush or truncation that fails; write failures leave any prefix of the data behind.
- An encoder that refuses bytes in the middle of a batch (`Batch::push` failing): encoding into memory is taken to succeed, only creating and finishing an encoder may fail.
- Text of damage reports: reports are values naming kind, place and counts.
- Decoder call granularity on damaged unchecked legacy frames: such a frame gives all its output before the damage, then an error.
- Threads, panics and the thread count in `decode_frames_in`: any slice size is covered, scheduling is not.
- mmap, file locks, fork handlers, Mach time and message layouts in `ring.c`; the field writers only build payloads.
- 64-bit wrap-around of the ring's head and tail, and capacities of 2^32 bytes or more (the frame length is a 32-bit field); the mask is the remainder by the capacity, and the frame alignment is 16.
- Memory ordering is taken as the release and acquire pairs give it: the reader sees a frame only after its head is published.
- An index entry whose offset plus length exceeds 64 bits: the sum is unbounded here and the entry lies outside the file.
- The warning for files with very many chunks: it changes nothing that is read.
- Floating-point rounding of scale factors and microseconds, and the truncation of a scaled time computed in floating point.
- 64-bit overflow of summed GPU times and of sample sums: unbounded here.
- The symbol, kind and fields carried with a node or op, class names, and the display order of ops inside a node and of rows in the memory table.
- `breakdown::render_table`, JSON and text output, advice strings, notices and regrouping by kind or name.
- Labels, statuses and the lanes of the exporter other than GPU windows and kernels; lanes are kept apart here, the source emits them into one list.
- The 16-bit depth of the breakdown trace: depths are unbounded here.
- Heap breakdown, MLX allocator and footprint summaries: folds of the same shape as the memory machine, with less state.
- `crash_join`, recovery, triggers, flight recorder, server, client and command line.
