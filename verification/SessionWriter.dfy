/** Batching, sealing, flushing and finalizing a session, with every event accounted for. */
module SessionWriter {
  import opened Bytes
  import opened Events
  import opened Externals
  import opened Codec
  import opened Footer
  import opened Chunked
  import opened Filter
  import opened Layout
  import opened Writer
  import Reader

  datatype ChunkConfig = ChunkConfig(maxEvents: u32, maxBytes: u64, flushMinBytes: u64)

  datatype Kind = Legacy | Chunked(cfg: ChunkConfig)

  /** How large a batch may grow, before compression, until it is sealed. */
  function BatchLimit(kind: Kind): (n: nat)
    ensures n <= MAX_FRAME_BYTES
  {
    match kind
    case Legacy => LEGACY_FRAME_BYTES
    case Chunked(cfg) => Min(cfg.maxBytes, MAX_FRAME_BYTES)
  }

  function FlushMin(kind: Kind): (r: nat)
  {
    match kind case Legacy => 0 case Chunked(cfg) => cfg.flushMinBytes
  }

  // ----- from batches to units -----

  ghost function UnitOf(lib: Library, chunked: bool, b: seq<Event>): (r: Unit)
    requires LawfulZstd(lib) && Sealable(lib, b)
  {
    Unit(UnitBytes(lib, chunked, b), |b|, if chunked then Some(EntryOf(lib, b, 0)) else None)
  }

  ghost function UnitsOf(lib: Library, chunked: bool, bs: seq<seq<Event>>): (us: seq<Unit>)
    requires LawfulZstd(lib) && AllSealable(lib, bs)
    ensures |us| == |bs|
  {
    if bs == [] then []
    else UnitsOf(lib, chunked, bs[..|bs| - 1]) + [UnitOf(lib, chunked, bs[|bs| - 1])]
  }

  lemma UnitsOfOneMore(lib: Library, chunked: bool, bs: seq<seq<Event>>, b: seq<Event>)
    requires LawfulZstd(lib) && AllSealable(lib, bs) && Sealable(lib, b)
    ensures AllSealable(lib, bs + [b])
    ensures UnitsOf(lib, chunked, bs + [b]) == UnitsOf(lib, chunked, bs) + [UnitOf(lib, chunked, b)]
  {
    hide UnitOf, LawfulZstd, Sealable;
    assert (bs + [b])[..|bs|] == bs;
  }

  lemma {:induction false} UnitsOfPrefix(lib: Library, chunked: bool, bs: seq<seq<Event>>, n: nat)
    requires LawfulZstd(lib) && AllSealable(lib, bs) && n <= |bs|
    ensures UnitsOf(lib, chunked, bs)[..n] == UnitsOf(lib, chunked, bs[..n])
    ensures n < |bs| ==> UnitsOf(lib, chunked, bs)[n] == UnitOf(lib, chunked, bs[n])
    decreases |bs|
  {
    hide UnitOf, LawfulZstd, Sealable;
    if n == |bs| {
      assert bs[..n] == bs;
    } else {
      var init := bs[..|bs| - 1];
      UnitsOfPrefix(lib, chunked, init, n);
      assert init[..n] == bs[..n];
      assert UnitsOf(lib, chunked, bs)[..n] == UnitsOf(lib, chunked, init)[..n];
    }
  }

  /** The units' bytes, event counts and index entries are those of the batches. */
  lemma {:induction false} UnitsSpellTheBatches(lib: Library, chunked: bool, bs: seq<seq<Event>>)
    requires LawfulZstd(lib) && AllSealable(lib, bs)
    ensures BatchesEncode(lib, bs)
    ensures CatBytes(UnitsOf(lib, chunked, bs)) == CatUnits(lib, chunked, bs)
    ensures TotalEvents(UnitsOf(lib, chunked, bs)) == |Flatten(bs)|
    decreases |bs|
  {
    hide LawfulZstd, UnitBytes, Sealable, EntryOf, Flatten;
    AllSealableFit(lib, bs);
    if bs == [] {
      FlattenNothing();
    } else {
      var init, b := bs[..|bs| - 1], bs[|bs| - 1];
      assert bs == init + [b];
      UnitsSpellTheBatches(lib, chunked, init);
      CatUnitsSplits(lib, chunked, bs, |init|);
      assert bs[|init|..] == [b];
      CatOneUnit(lib, chunked, b);
      FlattenOne(init, b);
      var us := UnitsOf(lib, chunked, bs);
      assert us[..|us| - 1] == UnitsOf(lib, chunked, init);
    }
  }

  lemma FlattenNothing()
    ensures Flatten<Event>([]) == []
  {
  }

  lemma FlattenOne(init: seq<seq<Event>>, b: seq<Event>)
    ensures Flatten(init + [b]) == Flatten(init) + b
  {
    FlattenAppend(init, [b]);
    assert Flatten([b]) == b;
  }

  lemma CatOneUnit(lib: Library, chunked: bool, b: seq<Event>)
    requires AllEncodable(lib, b)
    ensures CatUnits(lib, chunked, [b]) == UnitBytes(lib, chunked, b)
  {
    hide UnitBytes;
    assert [b][1..] == [];
  }

  /** One more batch, one more unit, one more index entry. */
  lemma PlacedOneMore(lib: Library, init: seq<seq<Event>>, b: seq<Event>, base: nat)
    requires LawfulZstd(lib) && AllSealable(lib, init) && Sealable(lib, b) && BatchesEncode(lib, init)
    requires base + |CatUnits(lib, true, init)| + |UnitBytes(lib, true, b)| <= U64_MAX
    requires TotalBytes(UnitsOf(lib, true, init)) == |CatUnits(lib, true, init)|
    requires Placed(UnitsOf(lib, true, init), base) == IndexOf(lib, init, base)
    ensures AllSealable(lib, init + [b]) && BatchesEncode(lib, init + [b])
    ensures TotalBytes(UnitsOf(lib, true, init + [b])) == |CatUnits(lib, true, init + [b])|
          == |CatUnits(lib, true, init)| + |UnitBytes(lib, true, b)|
    ensures Placed(UnitsOf(lib, true, init + [b]), base) == IndexOf(lib, init + [b], base)
  {
    hide LawfulZstd, UnitBytes, Sealable, EntryOf, Placed, TotalBytes, CatBytes, CatUnits, IndexOf, UnitsOf, UnitOf,
         PlacedAt, BatchesEncode, AllSealable;
    UnitsOfOneMore(lib, true, init, b);
    AllSealableFit(lib, init + [b]);
    UnitHasItsBytes(lib, b);
    UnitLands(UnitsOf(lib, true, init), UnitOf(lib, true, b), base);
    IndexOfAppend(lib, init, b, base);
    UnitPlaced(lib, b, base + |CatUnits(lib, true, init)|);
  }

  lemma UnitBytesAdd(lib: Library, init: seq<seq<Event>>, b: seq<Event>)
    requires LawfulZstd(lib) && AllSealable(lib, init) && Sealable(lib, b)
    ensures AllSealable(lib, init + [b])
    ensures TotalBytes(UnitsOf(lib, true, init + [b]))
            == TotalBytes(UnitsOf(lib, true, init)) + |UnitBytes(lib, true, b)|
  {
    hide LawfulZstd, UnitBytes, Sealable, TotalBytes, UnitsOf, UnitOf, AllSealable;
    UnitsOfOneMore(lib, true, init, b);
    UnitHasItsBytes(lib, b);
    OneMoreUnit(UnitsOf(lib, true, init), UnitOf(lib, true, b));
  }

  /** The index the appender builds is the index of the chunks. */
  lemma {:induction false} PlacedIsTheIndex(lib: Library, bs: seq<seq<Event>>, base: nat)
    requires LawfulZstd(lib) && AllSealable(lib, bs)
    requires base + TotalBytes(UnitsOf(lib, true, bs)) <= U64_MAX
    ensures BatchesEncode(lib, bs) && TotalBytes(UnitsOf(lib, true, bs)) == |CatUnits(lib, true, bs)|
    ensures Placed(UnitsOf(lib, true, bs), base) == IndexOf(lib, bs, base)
    decreases |bs|
  {
    hide LawfulZstd, UnitBytes, Sealable, Placed, TotalBytes, CatUnits, IndexOf, UnitsOf, BatchesEncode;
    if bs == [] {
      NothingPlaced(lib, base);
    } else {
      var init, b := bs[..|bs| - 1], bs[|bs| - 1];
      assert bs == init + [b];
      UnitBytesAdd(lib, init, b);
      PlacedIsTheIndex(lib, init, base);
      PlacedOneMore(lib, init, b, base);
    }
  }

  lemma NothingPlaced(lib: Library, base: nat)
    requires LawfulZstd(lib) && base <= U64_MAX
    ensures BatchesEncode(lib, []) && TotalBytes(UnitsOf(lib, true, [])) == 0 == |CatUnits(lib, true, [])|
    ensures Placed(UnitsOf(lib, true, []), base) == IndexOf(lib, [], base) == []
  {
  }

  lemma UnitHasItsBytes(lib: Library, b: seq<Event>)
    requires LawfulZstd(lib) && Sealable(lib, b)
    ensures UnitOf(lib, true, b).bytes == UnitBytes(lib, true, b)
  {
  }

  lemma UnitPlaced(lib: Library, b: seq<Event>, at: u64)
    requires LawfulZstd(lib) && Sealable(lib, b)
    ensures PlacedAt(UnitOf(lib, true, b), at) == [EntryOf(lib, b, at)]
  {
  }

  // ----- the fate of every batch -----

  /** A sealed batch, and whether its unit was queued or dropped. */
  datatype Fate = Fate(batch: seq<Event>, kept: bool)

  ghost function Kept(fs: seq<Fate>): (r: seq<seq<Event>>)
  {
    if fs == [] then []
    else Kept(fs[..|fs| - 1]) + if fs[|fs| - 1].kept then [fs[|fs| - 1].batch] else []
  }

  ghost function LostEvents(fs: seq<Fate>): (r: nat)
  {
    if fs == [] then 0
    else LostEvents(fs[..|fs| - 1]) + if fs[|fs| - 1].kept then 0 else |fs[|fs| - 1].batch|
  }

  ghost function SealedEvents(fs: seq<Fate>): (r: seq<Event>)
  {
    if fs == [] then [] else SealedEvents(fs[..|fs| - 1]) + fs[|fs| - 1].batch
  }

  lemma OneMoreFate(fs: seq<Fate>, f: Fate)
    ensures Kept(fs + [f]) == Kept(fs) + if f.kept then [f.batch] else []
    ensures LostEvents(fs + [f]) == LostEvents(fs) + if f.kept then 0 else |f.batch|
    ensures SealedEvents(fs + [f]) == SealedEvents(fs) + f.batch
  {
    assert (fs + [f])[..|fs|] == fs;
  }

  /** Every sealed event is in a kept batch or counted as lost. */
  lemma {:induction false} EverySealedEventIsCounted(fs: seq<Fate>)
    ensures |SealedEvents(fs)| == |Flatten(Kept(fs))| + LostEvents(fs)
    decreases |fs|
  {
    hide Flatten;
    if fs == [] {
      FlattenNothing();
    } else {
      var init, f := fs[..|fs| - 1], fs[|fs| - 1];
      EverySealedEventIsCounted(init);
      FlattenOne(Kept(init), f.batch);
      assert Kept(init) + [] == Kept(init);
    }
  }

  /** When no batch was lost, the kept batches are the sealed events, in order. */
  lemma {:induction false} NothingLostKeepsEverything(fs: seq<Fate>)
    requires forall i :: 0 <= i < |fs| ==> fs[i].kept
    ensures Flatten(Kept(fs)) == SealedEvents(fs) && LostEvents(fs) == 0
    decreases |fs|
  {
    hide Flatten;
    if fs == [] {
      FlattenNothing();
    } else {
      var init, f := fs[..|fs| - 1], fs[|fs| - 1];
      NothingLostKeepsEverything(init);
      FlattenOne(Kept(init), f.batch);
    }
  }

  // ----- how much a session can grow to -----

  /** More than any session of these events takes: a unit for each, at twice its size. */
  ghost function SizeBound(lib: Library, evs: seq<Event>): (n: nat)
    requires AllEncodable(lib, evs)
    ensures n >= 1100 * |evs|
  {
    2 * |Frames(lib, evs)| + 1100 * |evs|
  }

  /** The session, its footer included, fits 64-bit positions. A caller can tell from the events alone. */
  ghost predicate HasRoom(lib: Library, base: nat, evs: seq<Event>)
  {
    AllEncodable(lib, evs) && base + SizeBound(lib, evs) + 24 <= U64_MAX
  }

  lemma SizeBoundAdds(lib: Library, a: seq<Event>, b: seq<Event>)
    requires AllEncodable(lib, a) && AllEncodable(lib, b)
    ensures AllEncodable(lib, a + b) && SizeBound(lib, a + b) == SizeBound(lib, a) + SizeBound(lib, b)
  {
    hide Frames;
    FramesAppend(lib, a, b);
  }

  lemma RoomForLess(lib: Library, base: nat, evs: seq<Event>, e: Event)
    requires HasRoom(lib, base, evs + [e])
    ensures HasRoom(lib, base, evs) && Encodable(lib, e)
  {
    hide Frames;
    SplitEncodable(lib, evs, [e]);
    assert [e][0] == e;
    SizeBoundAdds(lib, evs, [e]);
  }

  lemma UnitFitsItsBound(lib: Library, chunked: bool, b: seq<Event>)
    requires LawfulZstd(lib) && Sealable(lib, b)
    ensures |UnitOf(lib, chunked, b).bytes| + 40 <= SizeBound(lib, b)
  {
    hide Frames;
    assert |lib.compress(Frames(lib, b))| <= CompressBound(|Frames(lib, b)|);
  }

  /** The kept units, and 40 bytes of index for each, stay below the bound of the sealed events. */
  lemma {:induction false} KeptFitTheBound(lib: Library, chunked: bool, fs: seq<Fate>)
    requires LawfulZstd(lib) && AllSealable(lib, Kept(fs)) && AllEncodable(lib, SealedEvents(fs))
    ensures TotalBytes(UnitsOf(lib, chunked, Kept(fs))) + 40 * |Kept(fs)| <= SizeBound(lib, SealedEvents(fs))
    decreases |fs|
  {
    hide LawfulZstd, Sealable, UnitOf, UnitsOf, TotalBytes, Frames, SizeBound;
    if fs == [] {
      NoUnits(lib, chunked);
    } else {
      var init, f := fs[..|fs| - 1], fs[|fs| - 1];
      assert SealedEvents(fs) == SealedEvents(init) + f.batch;
      SplitEncodable(lib, SealedEvents(init), f.batch);
      SizeBoundAdds(lib, SealedEvents(init), f.batch);
      if f.kept {
        assert Kept(fs) == Kept(init) + [f.batch];
        SplitSealable(lib, Kept(init), f.batch);
        KeptFitTheBound(lib, chunked, init);
        UnitsOfOneMore(lib, chunked, Kept(init), f.batch);
        OneMoreUnit(UnitsOf(lib, chunked, Kept(init)), UnitOf(lib, chunked, f.batch));
        UnitFitsItsBound(lib, chunked, f.batch);
      } else {
        assert Kept(fs) == Kept(init);
        KeptFitTheBound(lib, chunked, init);
      }
    }
  }

  lemma NoUnits(lib: Library, chunked: bool)
    requires LawfulZstd(lib)
    ensures TotalBytes(UnitsOf(lib, chunked, [])) == 0
  {
  }

  lemma SplitEncodable(lib: Library, a: seq<Event>, b: seq<Event>)
    requires AllEncodable(lib, a + b)
    ensures AllEncodable(lib, a) && AllEncodable(lib, b)
  {
    hide Encodable;
    assert forall i :: 0 <= i < |a| ==> a[i] == (a + b)[i];
    assert forall i :: 0 <= i < |b| ==> b[i] == (a + b)[|a| + i];
  }

  lemma SplitSealable(lib: Library, bs: seq<seq<Event>>, b: seq<Event>)
    requires AllSealable(lib, bs + [b])
    ensures AllSealable(lib, bs) && Sealable(lib, b)
  {
    hide Sealable;
    assert (bs + [b])[|bs|] == b;
    assert forall i :: 0 <= i < |bs| ==> bs[i] == (bs + [b])[i];
  }

  // ----- the current batch -----

  lemma OneMoreEvent(lib: Library, evs: seq<Event>, e: Event)
    requires AllEncodable(lib, evs) && Encodable(lib, e)
    ensures AllEncodable(lib, evs + [e])
    ensures Frames(lib, evs + [e]) == Frames(lib, evs) + Frame(lib.encode(e).value)
    ensures StatsOf(evs + [e]) == AddToStats(StatsOf(evs), e)
  {
    hide ToLE, AddToStats;
    assert (evs + [e])[..|evs|] == evs;
  }

  lemma BitmapFits(bitmap: u64, source: Source)
    ensures SetBit(bitmap, SourceIndex(source)) <= U64_MAX
  {
    Pow2At64();
    SetBitStaysInWidth(bitmap, SourceIndex(source), 64);
  }

  /** The open batch: its events, encoded and counted. */
  class Batch {
    var data: seq<byte>
    var eventCount: nat
    var uncompressedBytes: nat
    var minTs: u64
    var maxTs: u64
    var sourceBitmap: u64
    ghost var evs: seq<Event>

    ghost predicate Valid(lib: Library)
      reads this
    {
      && AllEncodable(lib, evs) && data == Frames(lib, evs)
      && eventCount == |evs| && uncompressedBytes == |data| <= MAX_FRAME_BYTES + 4
      && Stats(minTs, maxTs, sourceBitmap) == StatsOf(evs)
    }

    constructor (ghost lib: Library)
      ensures Valid(lib) && evs == []
    {
      data, eventCount, uncompressedBytes := [], 0, 0;
      minTs, maxTs, sourceBitmap := U64_MAX, 0, 0;
      evs := [];
    }

    method Push(lib: Library, frame: seq<byte>, e: Event)
      requires Valid(lib) && Encodable(lib, e) && frame == Frame(lib.encode(e).value)
      requires |data| + |frame| <= MAX_FRAME_BYTES + 4
      modifies this
      ensures Valid(lib) && evs == old(evs) + [e] && data == old(data) + frame
    {
      hide ToLE, SetBit, Frames, StatsOf, SourceIndex;
      ghost var evs' := evs + [e];
      OneMoreEvent(lib, evs, e);
      BitmapFits(sourceBitmap, e.source);
      data := data + frame;
      eventCount := eventCount + 1;
      uncompressedBytes := uncompressedBytes + |frame|;
      minTs := Min(minTs, e.ts);
      maxTs := Max(maxTs, e.ts);
      sourceBitmap := SetBit(sourceBitmap, SourceIndex(e.source));
      evs := evs';
    }
  }

  /** Append `data` at the end of a file, after some earlier writes: whole, or any prefix. */
  ghost predicate Appended(before: seq<byte>, after: seq<byte>, data: seq<byte>, ok: bool)
  {
    exists k :: 0 <= k <= |data| && after == before + data[..k] && (ok ==> k == |data|)
  }

  /** What a chunk file holds after `finalize`, whatever failed: the units and a stray prefix of the next, or all units
      and as much of the footer as was written and could not be cut off. */
  ghost predicate Unfinished(lib: Library, bytes: seq<byte>, base: seq<byte>, written: seq<Unit>, pending: seq<Unit>)
  {
    var at := |base| + TotalBytes(written);
    || OnDisk(bytes, base, written, pending)
    || (pending == [] && at <= U64_MAX && Appended(base + CatBytes(written), bytes,
       FooterBytes(lib, at, Placed(written, |base|)), false))
  }

  lemma AppendedTwice(b0: seq<byte>, b1: seq<byte>, b2: seq<byte>, d1: seq<byte>, d2: seq<byte>, ok: bool)
    requires b1 == b0 + d1 && Appended(b1, b2, d2, ok)
    ensures Appended(b0, b2, d1 + d2, ok)
  {
    var k :| 0 <= k <= |d2| && b2 == b1 + d2[..k] && (ok ==> k == |d2|);
    assert (d1 + d2)[..|d1| + k] == d1 + d2[..k];
  }

  lemma FailedEarly(b0: seq<byte>, b1: seq<byte>, d1: seq<byte>, d2: seq<byte>)
    requires Appended(b0, b1, d1, false)
    ensures Appended(b0, b1, d1 + d2, false)
  {
    var k :| 0 <= k <= |d1| && b1 == b0 + d1[..k];
    assert (d1 + d2)[..k] == d1[..k];
  }

  method AppendTo(file: EventFile, data: seq<byte>) returns (ok: bool)
    modifies file
    ensures Appended(old(file.bytes), file.bytes, data, ok)
    ensures file.reliable && |old(file.bytes)| + |data| <= U64_MAX ==> ok
  {
    ghost var b := file.bytes;
    ok := file.WriteAt(|file.bytes|, data);
    assert data[..|data|] == data;
    if !ok {
      ghost var k :| 0 <= k <= |data| && file.bytes == Overlay(b, |b|, data[..k]);
      assert b[..|b|] == b;
      assert file.bytes == b + data[..k];
    } else {
      assert file.bytes == b + data[..|data|];
    }
  }

  /** Body, then the three fields of the trailer, each its own write; any of them may fail part way. */
  method WriteFooterAt(lib: Library, file: EventFile, footerOffset: u64, es: seq<ChunkIndexEntry>) returns (ok: bool)
    modifies file
    ensures Appended(old(file.bytes), file.bytes, FooterBytes(lib, footerOffset, es), ok)
    ensures file.reliable && |old(file.bytes)| + |FooterBytes(lib, footerOffset, es)| <= U64_MAX ==> ok
  {
    hide ToLE, EntriesBytes, Appended;
    var body := BuildBody(es);
    var b, m := ToLE(footerOffset, 8), ToLE(FOOTER_MAGIC, 8);
    var c := ToLE(lib.crc32(body), 4);
    ghost var f0 := file.bytes;
    assert FooterBytes(lib, footerOffset, es) == body + ((b + c) + m);
    ok := AppendTo(file, body);
    if !ok {
      FailedEarly(f0, file.bytes, body, (b + c) + m);
      return;
    }
    WholeAppend(f0, file.bytes, body);
    ghost var f1 := file.bytes;
    ok := AppendTo(file, b);
    if !ok {
      FailedEarly(f1, file.bytes, b, c);
      FailedEarly(f1, file.bytes, b + c, m);
      AppendedTwice(f0, f1, file.bytes, body, (b + c) + m, false);
      return;
    }
    WholeAppend(f1, file.bytes, b);
    ghost var f2 := file.bytes;
    ok := AppendTo(file, c);
    AppendedTwice(f1, f2, file.bytes, b, c, ok);
    if !ok {
      FailedEarly(f1, file.bytes, b + c, m);
      AppendedTwice(f0, f1, file.bytes, body, (b + c) + m, false);
      return;
    }
    WholeAppend(f1, file.bytes, b + c);
    ghost var f3 := file.bytes;
    ok := AppendTo(file, m);
    AppendedTwice(f1, f3, file.bytes, b + c, m, ok);
    AppendedTwice(f0, f1, file.bytes, body, (b + c) + m, ok);
  }

  lemma WholeAppend(before: seq<byte>, after: seq<byte>, data: seq<byte>)
    requires Appended(before, after, data, true)
    ensures after == before + data
  {
    assert data[..|data|] == data;
  }

  // ----- the writer -----

  datatype WriteResult = Accepted | NotEncoded(error: CodecError) | NotKept

  /** What the zstd library answers when a batch is sealed: whether it hands out the next encoder,
      and whether the old one finishes its frame. */
  datatype EncoderAnswer = EncoderAnswer(renews: bool, finishes: bool)

  ghost predicate Works(encoder: nat -> EncoderAnswer)
  {
    forall i :: encoder(i) == EncoderAnswer(true, true)
  }

  /** The event joined the held ones, which stay open or were sealed and kept with it. */
  ghost predicate Took(before: seq<Fate>, held: seq<Event>, e: Event, after: seq<Fate>, open: seq<Event>)
  {
    || (open == held + [e] && after == before)
    || (open == [] && after == before + [Fate(held + [e], true)])
  }

  lemma WorksEveryTime(encoder: nat -> EncoderAnswer, attempt: nat)
    ensures Works(encoder) ==> encoder(attempt) == EncoderAnswer(true, true)
  {
  }

  class SessionWriter {
    const lib: Library
    const kind: Kind
    /** The answer to each attempt to seal a batch, in order. */
    const encoder: nat -> EncoderAnswer
    var attempts: nat
    var batch: Batch
    const out: Appender
    /** Every event pushed into a batch, in order. */
    ghost var log: seq<Event>
    /** Every batch sealed, in order. */
    ghost var fates: seq<Fate>

    /** The log is the sealed batches and the open one; the units written and pending are the
        kept batches, in sealing order; the lost ones are counted. */
    ghost predicate Valid()
      reads this, batch, out, out.file
    {
      && Lawful(lib) && LawfulZstd(lib) && out.Valid() && batch.Valid(lib)
      && log == SealedEvents(fates) + batch.evs && AllEncodable(lib, log)
      && AllSealable(lib, Kept(fates))
      && out.written + out.pending == UnitsOf(lib, kind.Chunked?, Kept(fates))
      && out.droppedEvents == LostEvents(fates)
    }

    constructor (lib: Library, kind: Kind, file: EventFile, maxPendingBytes: nat, encoder: nat -> EncoderAnswer)
      requires Lawful(lib) && |file.bytes| <= U64_MAX
      ensures Valid() && fresh(out) && fresh(batch) && this.encoder == encoder && attempts == 0
      ensures this.lib == lib && this.kind == kind && out.file == file && out.base == file.bytes
      ensures log == [] && fates == [] && batch.evs == [] && out.written == [] && out.pending == []
    {
      this.lib := lib;
      this.kind := kind;
      this.encoder := encoder;
      attempts := 0;
      out := new Appender(file, maxPendingBytes);
      batch := new Batch(lib);
      log, fates := [], [];
    }

    /** The unit the current batch becomes. */
    method BuildUnit() returns (unit: Unit)
      requires Valid() && batch.evs != []
      ensures Sealable(lib, batch.evs) && unit == UnitOf(lib, kind.Chunked?, batch.evs)
    {
      hide ToLE, StatsOf, Frames;
      SealableFits(lib, batch.evs);
      var compressed := lib.compress(batch.data);
      if kind.Legacy? {
        return Unit(compressed, batch.eventCount, None);
      }
      // The source drops a chunk larger than MAX_CHUNK_BYTES here; none ever is.
      assert |compressed| <= MAX_CHUNK_BYTES;
      unit := Unit(
        ToLE(|compressed|, 4) + compressed,
        batch.eventCount,
        Some(ChunkIndexEntry(0, |compressed|, batch.minTs, batch.maxTs, batch.sourceBitmap, batch.eventCount)));
    }

    /** The appender's side of `Valid`. */
    ghost predicate Accounted()
      reads this, out, out.file
    {
      && Lawful(lib) && LawfulZstd(lib) && out.Valid()
      && AllSealable(lib, Kept(fates))
      && out.written + out.pending == UnitsOf(lib, kind.Chunked?, Kept(fates))
      && out.droppedEvents == LostEvents(fates)
    }

    /** Make room, then queue the unit of `evs` or drop it; either way its fate is recorded. */
    method QueueUnit(unit: Unit, ghost evs: seq<Event>) returns (ok: bool)
      requires Accounted() && Sealable(lib, evs) && unit == UnitOf(lib, kind.Chunked?, evs)
      modifies this`fates, out, out.file
      ensures Accounted() && fates == old(fates) + [Fate(evs, ok)]
      ensures out.file.bytes == old(out.file.bytes) || old(out.pending) != []
      ensures old(out.pending) == [] ==> ok
      ensures out.file.reliable && |out.base| + TotalBytes(UnitsOf(lib, kind.Chunked?, old(Kept(fates)))) <= U64_MAX
              ==> ok
    {
      hide UnitsOf, LostEvents, Kept, UnitOf, Lawful, LawfulZstd, Sealable, AllSealable, TotalBytes, TotalEvents,
           CatBytes, Placed, OnDisk;
      ghost var before := out.written + out.pending;
      if out.pending != [] {
        var drained := out.Drain();
      }
      ghost var written, pending := out.written, out.pending;
      UnitCounts(lib, kind.Chunked?, evs);
      ok := out.Enqueue(unit);
      OneMoreFate(fates, Fate(evs, ok));
      UnitsOfOneMore(lib, kind.Chunked?, Kept(fates), evs);
      assert written + (pending + [unit]) == before + [unit];
      assert Kept(fates) + [] == Kept(fates);
      fates := fates + [Fate(evs, ok)];
    }

    /** The encoder failed at the last step: the batch is lost, and counted. */
    method LoseUnit(events: nat, ghost evs: seq<Event>)
      requires Accounted() && events == |evs|
      modifies this`fates, out
      ensures Accounted() && fates == old(fates) + [Fate(evs, false)]
      ensures out.written == old(out.written) && out.pending == old(out.pending)
    {
      hide UnitsOf, LostEvents, Kept, Lawful, LawfulZstd, AllSealable;
      OneMoreFate(fates, Fate(evs, false));
      assert Kept(fates) + [] == Kept(fates);
      out.droppedEvents := out.droppedEvents + events;
      fates := fates + [Fate(evs, false)];
    }

    /** Close the open batch and enqueue what it becomes. `renewed` is false when no new encoder
        could be made, which leaves everything as it was; otherwise the batch is kept exactly
        when the call succeeds, and counted as dropped when it does not. With an encoder that
        finishes it is kept when nothing is pending, and on a reliable disk always. */
    method Seal() returns (ok: bool, renewed: bool)
      requires Valid()
      modifies this, out, out.file
      ensures Valid() && log == old(log)
      ensures batch == old(batch) || fresh(batch)
      ensures old(batch.evs) == [] ==>
                ok && renewed && out.written == old(out.written) && out.pending == old(out.pending)
      ensures old(batch.evs) == [] || !renewed ==>
                batch == old(batch) && batch.evs == old(batch.evs) && fates == old(fates)
      ensures !renewed ==> !ok
      ensures old(batch.evs) != [] && renewed ==> batch.evs == [] && fates == old(fates) + [Fate(old(batch.evs), ok)]
      ensures out.file.bytes == old(out.file.bytes) || old(out.pending) != []
      ensures old(batch.evs) == [] ==> attempts == old(attempts)
      ensures old(batch.evs) != [] ==>
                && attempts == old(attempts) + 1
                && renewed == encoder(old(attempts)).renews
                && (ok ==> encoder(old(attempts)).finishes)
                && (encoder(old(attempts)) == EncoderAnswer(true, true) ==>
                      (old(out.pending) == [] || (out.file.reliable && HasRoom(lib, |out.base|, log)) ==> ok))
    {
      hide UnitsOf, SealedEvents, LostEvents, Kept, UnitOf, Lawful, LawfulZstd, Sealable, AllSealable, Frames, StatsOf,
           AllEncodable, TotalBytes, TotalEvents, CatBytes, Placed, OnDisk;
      if batch.eventCount == 0 {
        return true, true;
      }
      var answer := encoder(attempts);
      attempts := attempts + 1;
      renewed := answer.renews;
      if !renewed {
        return false, false;
      }
      RoomForKept(this);
      var events := batch.eventCount;
      var unit := BuildUnit();
      ghost var evs := batch.evs;
      batch := new Batch(lib);
      if answer.finishes {
        ok := QueueUnit(unit, evs);
      } else {
        LoseUnit(events, evs);
        ok := false;
      }
      OneMoreFate(old(fates), Fate(evs, ok));
      assert SealedEvents(fates) + [] == SealedEvents(fates);
    }

    /** Write what is pending; only the split between written and pending moves. */
    method DrainPending() returns (ok: bool)
      requires Valid()
      modifies out, out.file
      ensures Valid()
      ensures ok <==> out.pending == []
      ensures ok ==> out.file.bytes == out.base + CatBytes(UnitsOf(lib, kind.Chunked?, Kept(fates)))
      ensures out.droppedEvents == old(out.droppedEvents)
      ensures out.file.reliable && HasRoom(lib, |out.base|, log) ==> ok
    {
      hide UnitsOf, SealedEvents, LostEvents, Kept, Lawful, LawfulZstd, AllSealable, TotalBytes, TotalEvents, CatBytes,
           Placed, OnDisk, Frames, StatsOf, HasRoom;
      RoomForKept(this);
      ok := out.Drain();
      assert out.written + [] == out.written;
    }

    /** Seal the batch; whether its unit reaches the disk right away does not matter for the answer. */
    method SealAndTryDrain() returns (ok: bool)
      requires Valid() && batch.evs != []
      modifies this, out, out.file
      ensures Valid() && log == old(log) && (batch == old(batch) || fresh(batch))
      ensures ok ==>
                batch.evs == [] && fates == old(fates) + [Fate(old(batch.evs), true)] && encoder(old(attempts)).renews
      ensures attempts == old(attempts) + 1
      ensures ok || (fates == old(fates) && batch == old(batch) && batch.evs == old(batch.evs)
              && !encoder(old(attempts)).renews)
              || (batch.evs == [] && fates == old(fates) + [Fate(old(batch.evs), false)]
                 && encoder(old(attempts)).renews)
      ensures out.file.reliable && Works(encoder) && HasRoom(lib, |out.base|, log) ==> ok && out.pending == []
    {
      hide HasRoom, UnitsOf, SealedEvents, LostEvents, Kept, Lawful, LawfulZstd, AllSealable, TotalBytes, TotalEvents,
           CatBytes, Placed, OnDisk, Frames, StatsOf;
      var renewed;
      ok, renewed := Seal();
      if ok {
        var drained := DrainPending();
      }
    }

    predicate BatchFull()
      reads this, batch
    {
      batch.uncompressedBytes >= BatchLimit(kind) || (kind.Chunked? && batch.eventCount >= kind.cfg.maxEvents)
    }

    /** The event would leave the batch below every limit that seals it: 256 KiB in a legacy session; the configured
        bytes and events in a chunked one, and never more than 16 MiB. */
    ghost predicate StaysOpen(e: Event)
      requires Encodable(lib, e)
      reads this, batch
    {
      var size := |batch.data| + |Frame(lib.encode(e).value)|;
      match kind
      case Legacy => size < 262_144
      case Chunked(cfg) => size < cfg.maxBytes && size < 16_777_216 && |batch.evs| + 1 < cfg.maxEvents
    }

    /** The event still fits the open batch, exactly at the byte limit too. */
    ghost predicate Fits(e: Event)
      requires Encodable(lib, e)
      reads this, batch
    {
      var size := |batch.data| + |Frame(lib.encode(e).value)|;
      match kind
      case Legacy => size <= 262_144
      case Chunked(cfg) => size <= cfg.maxBytes && size <= 16_777_216
    }

    /** The open batch is empty or below the same limits. */
    ghost predicate WithinLimits()
      reads this, batch
    {
      batch.evs == [] ||
      match kind
      case Legacy => |batch.data| < 262_144
      case Chunked(cfg) => |batch.data| < cfg.maxBytes && |batch.data| < 16_777_216 && |batch.evs| < cfg.maxEvents
    }

    /** Push an encoded event into the open batch. */
    method Hold(frame: seq<byte>, e: Event)
      requires Valid() && Encodable(lib, e) && frame == Frame(lib.encode(e).value)
      requires |batch.data| + |frame| <= MAX_FRAME_BYTES + 4
      modifies this`log, batch
      ensures Valid() && log == old(log) + [e] && batch.evs == old(batch.evs) + [e]
      ensures old(StaysOpen(e)) ==> !BatchFull()
    {
      hide UnitsOf, SealedEvents, LostEvents, Kept, Lawful, LawfulZstd, AllSealable, TotalBytes, TotalEvents, CatBytes,
           Placed, OnDisk, Frames, StatsOf, ToLE;
      ghost var sealed := SealedEvents(fates);
      assert (sealed + batch.evs) + [e] == sealed + (batch.evs + [e]);
      batch.Push(lib, frame, e);
      log := log + [e];
    }

    /** What became of an event that was pushed although the call failed: sealed and dropped with its batch, or, when
        an encoder was missing, still the last of the open batch. */
    ghost predicate RefusedAfterAll(e: Event)
      reads this, batch
    {
      && attempts > 0
      && if encoder(attempts - 1).renews then
           batch.evs == [] && fates != [] && !fates[|fates| - 1].kept && e in fates[|fates| - 1].batch
         else
           batch.evs != [] && batch.evs[|batch.evs| - 1] == e
    }

    /** Push an encoded event, and seal the batch when that fills it. */
    method HoldAndSeal(frame: seq<byte>, e: Event) returns (kept: bool)
      requires Valid() && Encodable(lib, e) && frame == Frame(lib.encode(e).value)
      requires |batch.data| + |frame| <= MAX_FRAME_BYTES + 4
      modifies this, batch, out, out.file
      ensures Valid() && (batch == old(batch) || fresh(batch))
      ensures log == old(log) + [e] && old(fates) <= fates
      ensures kept ==> forall i :: |old(fates)| <= i < |fates| ==> fates[i].kept
      ensures kept ==>
                if batch.evs == [] then old(attempts) < attempts && encoder(attempts - 1).renews else !BatchFull()
      ensures kept ==> WithinLimits()
      ensures kept ==> Took(old(fates), old(batch.evs), e, fates, batch.evs)
      ensures !kept ==> RefusedAfterAll(e) && old(attempts) < attempts
      ensures old(StaysOpen(e)) ==>
                kept && batch.evs == old(batch.evs) + [e] && fates == old(fates) && attempts == old(attempts)
      ensures out.file.reliable && Works(encoder) && HasRoom(lib, |out.base|, old(log) + [e]) ==>
                kept && (old(out.pending) == [] ==> out.pending == [])
    {
      hide Lawful, LawfulZstd, AllSealable, TotalBytes, TotalEvents, OnDisk, Placed, UnitsOf, Kept, SealedEvents,
           LostEvents, Frames, StatsOf, StaysOpen, HasRoom, Works, Frame;
      Hold(frame, e);
      kept := true;
      if BatchFull() {
        kept := SealAndTryDrain();
      }
    }

    /** Seal the open batch when the frame would take it over the limit. */
    method MakeRoom(frame: seq<byte>, e: Event) returns (ok: bool)
      requires Valid() && Encodable(lib, e) && frame == Frame(lib.encode(e).value)
      modifies this, out, out.file
      ensures Valid() && log == old(log) && (batch == old(batch) || fresh(batch)) && old(fates) <= fates
      ensures old(attempts) <= attempts
      ensures ok ==> forall i :: |old(fates)| <= i < |fates| ==> fates[i].kept
      ensures ok ==> |batch.data| + |frame| <= MAX_FRAME_BYTES + 4
      ensures !ok ==> old(batch.evs) != []
      ensures old(Fits(e)) || old(batch.evs) == [] ==>
                ok && batch == old(batch) && batch.evs == old(batch.evs) && fates == old(fates)
                && attempts == old(attempts)
      ensures old(StaysOpen(e)) ==> old(Fits(e)) && StaysOpen(e)
      ensures !old(Fits(e)) && old(batch.evs) != [] && ok ==>
                batch.evs == [] && fates == old(fates) + [Fate(old(batch.evs), true)]
      ensures out.file.reliable && Works(encoder) && HasRoom(lib, |out.base|, log) ==>
                ok && (old(out.pending) == [] ==> out.pending == [])
    {
      hide UnitsOf, SealedEvents, LostEvents, Kept, Lawful, LawfulZstd, AllSealable, TotalBytes, TotalEvents, CatBytes,
           Placed, OnDisk, Frames, StatsOf, HasRoom, Works, Frame;
      ok := true;
      NothingFramed(lib);
      FrameSize(lib, e);
      if batch.eventCount > 0 && batch.uncompressedBytes + |frame| > BatchLimit(kind) {
        ok := SealAndTryDrain();
      }
    }

    /** Accepts an event. Accepted means held: in the open batch or in a unit that was kept, and
        a batch that became full was sealed. An event that cannot be encoded changes nothing. */
    method WriteEvent(e: Event) returns (r: WriteResult)
      requires Valid()
      modifies this, batch, out, out.file
      ensures Valid() && (batch == old(batch) || fresh(batch))
      ensures r.NotEncoded? <==> !Encodable(lib, e)
      ensures r.NotEncoded? ==>
                log == old(log) && fates == old(fates) && batch.evs == old(batch.evs)
                && out.file.bytes == old(out.file.bytes)
      ensures old(fates) <= fates
      ensures r.Accepted? ==> log == old(log) + [e] && (forall i :: |old(fates)| <= i < |fates| ==> fates[i].kept)
      ensures r.Accepted? ==>
                if batch.evs == [] then old(attempts) < attempts && encoder(attempts - 1).renews else !BatchFull()
      ensures r.Accepted? ==> WithinLimits()
      ensures r.Accepted? ==>
                if old(Fits(e)) || old(batch.evs) == [] then Took(old(fates), old(batch.evs), e, fates, batch.evs)
                else Took(old(fates) + [Fate(old(batch.evs), true)], [], e, fates, batch.evs)
      ensures r.NotKept? ==>
                (log == old(log) && old(batch.evs) != [])
                || (log == old(log) + [e] && RefusedAfterAll(e) && old(attempts) < attempts)
      ensures Encodable(lib, e) && old(StaysOpen(e)) ==>
                r.Accepted? && batch.evs == old(batch.evs) + [e] && fates == old(fates) && attempts == old(attempts)
      ensures out.file.reliable && Works(encoder) && HasRoom(lib, |out.base|, old(log) + [e]) ==>
                r.Accepted? && (old(out.pending) == [] ==> out.pending == [])
    {
      hide UnitsOf, SealedEvents, LostEvents, Kept, Lawful, LawfulZstd, AllSealable, TotalBytes, TotalEvents, CatBytes,
           Placed, OnDisk, Frames, StatsOf, ToLE, EncodeSpec, HasRoom, Works, RefusedAfterAll, StaysOpen, Fits, Took,
           WithinLimits, BatchFull, Frame;
      if HasRoom(lib, |out.base|, log + [e]) {
        RoomForLess(lib, |out.base|, log, e);
      }
      EncodesToItsFrame(lib, e);
      var encoded := EncodeFrame(lib, e);
      if encoded.Refused? {
        return NotEncoded(encoded.error);
      }
      var room := MakeRoom(encoded.bytes, e);
      if !room {
        return NotKept;
      }
      var kept := HoldAndSeal(encoded.bytes, e);
      return if kept then Accepted else NotKept;
    }

    /** Bring what was accepted to the disk: on success nothing is pending, the file is exactly
        the base and the kept batches, and the open batch is empty or below the flush threshold. */
    method Flush() returns (ok: bool)
      requires Valid()
      modifies this, out, out.file
      ensures Valid() && log == old(log) && (batch == old(batch) || fresh(batch)) && old(fates) <= fates
      ensures ok ==>
                && out.pending == [] && (batch.evs == [] || |batch.data| < FlushMin(kind))
                && out.file.bytes == out.base + CatBytes(UnitsOf(lib, kind.Chunked?, Kept(fates)))
                && (forall i :: |old(fates)| <= i < |fates| ==> fates[i].kept)
      ensures ok && batch.evs != [] ==> kind.Chunked? && |batch.data| < kind.cfg.flushMinBytes
      ensures kind.Chunked? && old(|batch.data|) < kind.cfg.flushMinBytes ==>
                batch == old(batch) && batch.evs == old(batch.evs) && fates == old(fates)
      ensures out.file.reliable && Works(encoder) && HasRoom(lib, |out.base|, log) ==> ok
    {
      hide HasRoom, UnitsOf, SealedEvents, LostEvents, Kept, Lawful, LawfulZstd, AllSealable, TotalBytes, TotalEvents,
           CatBytes, Placed, OnDisk, Frames, StatsOf;
      var sealed, renewed := true, true;
      if batch.eventCount > 0 && batch.uncompressedBytes >= FlushMin(kind) {
        sealed, renewed := Seal();
      }
      var drained := DrainPending();
      if !drained || !sealed {
        return false;
      }
      ok := out.file.Flush();
    }

    /** Writes everything accepted and, in a chunked file, the footer. What cannot be
        written even now counts as dropped. Written and dropped events make up every event pushed
        exactly when there was nothing left to seal or an encoder for it; on a reliable disk
        with a working encoder it succeeds. */
    method Finalize() returns (ok: bool, meta: Reader.Metadata)
      requires Valid()
      modifies this, out, out.file
      ensures log == old(log) && old(fates) <= fates && LawfulZstd(lib) && AllSealable(lib, Kept(fates))
      ensures out.written + out.pending == UnitsOf(lib, kind.Chunked?, Kept(fates))
      ensures meta.eventCount == Some(out.writtenEvents)
      ensures meta.droppedEvents == if out.droppedEvents > 0 then Some(out.droppedEvents) else None
      ensures out.writtenEvents + out.droppedEvents + |batch.evs| == |log|
      ensures out.writtenEvents + out.droppedEvents == |log| <==> old(batch.evs) == [] || encoder(old(attempts)).renews
      ensures out.file.reliable && Works(encoder) && HasRoom(lib, |out.base|, log) ==> ok
      ensures out.droppedEvents == LostEvents(fates) + TotalEvents(out.pending)
      ensures log == SealedEvents(fates) + batch.evs
      ensures old(batch.evs) != [] && !encoder(old(attempts)).renews ==> !ok && batch.evs == old(batch.evs)
      ensures ok ==> batch.evs == [] && out.pending == [] && (forall i :: |old(fates)| <= i < |fates| ==> fates[i].kept)
      ensures if kind.Chunked? then Unfinished(lib, out.file.bytes, out.base, out.written, out.pending)
              else OnDisk(out.file.bytes, out.base, out.written, out.pending)
      ensures out.cursor == |out.base| + TotalBytes(out.written) <= U64_MAX
              && out.index == Placed(out.written, |out.base|)
      ensures ok ==>
                out.file.bytes == out.base + CatBytes(out.written)
                + if kind.Chunked? then FooterBytes(lib, out.cursor, out.index) else []
    {
      hide HasRoom, UnitsOf, SealedEvents, LostEvents, Kept, Lawful, LawfulZstd, AllSealable, TotalBytes, TotalEvents,
           CatBytes, Placed, OnDisk, Frames, StatsOf, Unfinished, Works;
      WorksEveryTime(encoder, attempts);
      var renewed;
      ok, renewed := Seal();
      var drained := DrainPending();
      EveryEventIsCounted(this);
      UnitsOnly(lib, out.file.bytes, out.base, out.written, out.pending);
      if !drained {
        out.droppedEvents := out.droppedEvents + TotalEvents(out.pending);
        ok := false;
      } else {
        NothingPendingNothingStray(out.file.bytes, out.base, out.written);
        NoEvents();
        if kind.Chunked? {
          RoomForFooter(this);
          ok := FinishFooter(ok);
        }
      }
      meta := Reader.Metadata(Some(out.writtenEvents), if out.droppedEvents > 0 then Some(out.droppedEvents) else None);
    }

    /** The footer; a torn one is cut, if the file can be cut. */
    method FinishFooter(soFar: bool) returns (ok: bool)
      requires out.Valid() && out.pending == [] && out.file.bytes == out.base + CatBytes(out.written)
      modifies out.file
      ensures ok ==>
                soFar && out.file.bytes == out.base + CatBytes(out.written) + FooterBytes(lib, out.cursor, out.index)
      ensures Unfinished(lib, out.file.bytes, out.base, out.written, out.pending)
      ensures soFar && out.file.reliable && out.cursor + |FooterBytes(lib, out.cursor, out.index)| <= U64_MAX ==> ok
    {
      hide TotalBytes, TotalEvents, CatBytes, Placed, OnDisk, Appended;
      ghost var before, footer := out.file.bytes, FooterBytes(lib, out.cursor, out.index);
      var written := WriteFooterAt(lib, out.file, out.cursor, out.index);
      AppendedAnyway(before, out.file.bytes, footer, written);
      if written {
        WholeAppend(before, out.file.bytes, footer);
        written := out.file.Flush();
      }
      if !written {
        CursorIsTheEnd(out.base, out.written);
        AppendedIsLonger(before, out.file.bytes, footer);
        var cut := out.file.SetLen(out.cursor);
      }
      FooterOrNothing(lib, out.file.bytes, out.base, out.written);
      ok := soFar && written;
    }
  }

  /** Where there is room for the events there is room for the kept units. */
  lemma RoomForKept(w: SessionWriter)
    requires w.Valid()
    ensures HasRoom(w.lib, |w.out.base|, w.log) ==>
              |w.out.base| + TotalBytes(UnitsOf(w.lib, w.kind.Chunked?, Kept(w.fates))) + 40 * |Kept(w.fates)| + 24
                  <= U64_MAX
  {
    hide OnDisk, Placed, UnitsOf, Kept, LostEvents, SealedEvents, TotalBytes, CatBytes, TotalEvents, Frames, StatsOf,
         SizeBound;
    SplitEncodable(w.lib, SealedEvents(w.fates), w.batch.evs);
    SizeBoundAdds(w.lib, SealedEvents(w.fates), w.batch.evs);
    KeptFitTheBound(w.lib, w.kind.Chunked?, w.fates);
  }

  /** Where there is room for the events there is room for the footer behind the units. */
  lemma RoomForFooter(w: SessionWriter)
    requires w.Valid() && w.out.pending == [] && w.kind.Chunked?
    ensures HasRoom(w.lib, |w.out.base|, w.log) ==>
              w.out.cursor + |FooterBytes(w.lib, w.out.cursor, w.out.index)| <= U64_MAX
  {
    hide OnDisk, UnitsOf, Kept, LostEvents, SealedEvents, TotalBytes, CatBytes, TotalEvents, Frames, StatsOf, SizeBound,
         HasRoom, Placed;
    RoomForKept(w);
    assert w.out.written + [] == w.out.written;
    AtMostOneEntryEach(w.out.written, |w.out.base|);
  }

  lemma {:induction false} AtMostOneEntryEach(us: seq<Unit>, base: nat)
    requires base + TotalBytes(us) <= U64_MAX
    ensures |Placed(us, base)| <= |us|
    decreases |us|
  {
    if us != [] {
      AtMostOneEntryEach(us[..|us| - 1], base);
    }
  }

  lemma NoEvents()
    ensures TotalEvents([]) == 0
  {
  }

  lemma CursorIsTheEnd(base: seq<byte>, written: seq<Unit>)
    ensures |base + CatBytes(written)| == |base| + TotalBytes(written)
  {
  }

  lemma FooterOrNothing(lib: Library, bytes: seq<byte>, base: seq<byte>, written: seq<Unit>)
    requires |base| + TotalBytes(written) <= U64_MAX
    requires bytes == base + CatBytes(written)
          || Appended(base + CatBytes(written), bytes,
             FooterBytes(lib, |base| + TotalBytes(written), Placed(written, |base|)), false)
    ensures Unfinished(lib, bytes, base, written, [])
  {
    hide Appended, OnDisk, FooterBytes, Placed;
    if bytes == base + CatBytes(written) {
      WholeUnitsAreOnDisk(base, written, []);
    }
  }

  lemma UnitsOnly(lib: Library, bytes: seq<byte>, base: seq<byte>, written: seq<Unit>, pending: seq<Unit>)
    requires OnDisk(bytes, base, written, pending)
    ensures Unfinished(lib, bytes, base, written, pending)
  {
  }

  lemma AppendedAnyway(before: seq<byte>, after: seq<byte>, data: seq<byte>, ok: bool)
    requires Appended(before, after, data, ok)
    ensures Appended(before, after, data, false)
  {
  }

  lemma AppendedIsLonger(before: seq<byte>, after: seq<byte>, data: seq<byte>)
    requires Appended(before, after, data, false)
    ensures |before| <= |after| && after[..|before|] == before
  {
  }

  /** In every state of the writer, every event pushed is in the open batch, in a pending unit,
      on disk, or counted as dropped. */
  lemma EveryEventIsCounted(w: SessionWriter)
    requires w.Valid()
    ensures |w.log| == |w.batch.evs| + TotalEvents(w.out.pending) + w.out.writtenEvents + w.out.droppedEvents
  {
    hide OnDisk, Placed, UnitsOf, Kept, LostEvents, SealedEvents, Flatten, TotalEvents, TotalBytes, CatBytes;
    EverySealedEventIsCounted(w.fates);
    UnitsSpellTheBatches(w.lib, w.kind.Chunked?, Kept(w.fates));
    TotalsAppend(w.out.written, w.out.pending);
  }

  lemma EncodesToItsFrame(lib: Library, e: Event)
    ensures EncodeSpec(lib, e).Refused? <==> !Encodable(lib, e)
    ensures Encodable(lib, e) ==> EncodeSpec(lib, e) == Encoded(Frame(lib.encode(e).value))
  {
  }

  lemma FrameSize(lib: Library, e: Event)
    requires Encodable(lib, e)
    ensures |Frame(lib.encode(e).value)| <= MAX_FRAME_BYTES + 4
  {
  }

  lemma NothingFramed(lib: Library)
    ensures Frames(lib, []) == []
  {
  }

  lemma UnitCounts(lib: Library, chunked: bool, b: seq<Event>)
    requires LawfulZstd(lib) && Sealable(lib, b)
    ensures UnitOf(lib, chunked, b).events == |b|
  {
  }
}
