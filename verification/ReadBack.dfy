/** Files the writer can leave behind, read back: sealed, cut anywhere, with a broken footer, filtered. */
module ReadBack {
  import opened Bytes
  import opened Events
  import opened Externals
  import opened Codec
  import opened Footer
  import opened Chunked
  import opened Filter
  import opened Delivery
  import opened Layout
  import opened Reader

  // ----- through the index -----

  lemma {:induction false} IndexOfAt(lib: Library, bs: seq<seq<Event>>, at: nat, k: nat)
    requires LawfulZstd(lib) && AllSealable(lib, bs) && at + |CatUnits(lib, true, bs)| <= U64_MAX && k < |bs|
    ensures at + |CatUnits(lib, true, bs[..k])| <= U64_MAX
    ensures IndexOf(lib, bs, at)[k] == EntryOf(lib, bs[k], at + |CatUnits(lib, true, bs[..k])|)
    decreases k
  {
    hide UnitBytes, LawfulZstd, EntryOf, Sealable;
    AllSealableFit(lib, bs);
    if k > 0 {
      assert AllSealable(lib, bs[1..]);
      AllSealableFit(lib, bs[1..]);
      IndexOfAt(lib, bs[1..], at + |UnitBytes(lib, true, bs[0])|, k - 1);
      assert bs[..k][1..] == bs[1..][..k - 1];
    }
  }

  /** Chunk `k` of an area stands where its predecessors end. */
  lemma ChunkInArea(lib: Library, area: seq<byte>, bs: seq<seq<Event>>, k: nat)
    requires LawfulZstd(lib) && AllSealable(lib, bs) && area == CatUnits(lib, true, bs) && k < |bs|
    ensures var p := |CatUnits(lib, true, bs[..k])|;
            p + |UnitBytes(lib, true, bs[k])| <= |area|
                && area[p..p + |UnitBytes(lib, true, bs[k])|] == UnitBytes(lib, true, bs[k])
  {
    hide UnitBytes, LawfulZstd, Sealable;
    AllSealableFit(lib, bs);
    CatUnitsSplits(lib, true, bs, k);
    assert bs[k..][0] == bs[k];
  }

  /** `buf` holds the chunks of `bs` right behind the magic. */
  ghost predicate HoldsChunks(lib: Library, buf: seq<byte>, bs: seq<seq<Event>>, footerOffset: nat)
    requires LawfulZstd(lib) && AllSealable(lib, bs)
  {
    && footerOffset == |HEAD_MAGIC| + |CatUnits(lib, true, bs)|
    && footerOffset <= |buf| && footerOffset <= U64_MAX
    && buf[|HEAD_MAGIC|..footerOffset] == CatUnits(lib, true, bs)
  }

  lemma EntryReadsChunkAt(lib: Library, buf: seq<byte>, b: seq<Event>, at: u64, footerOffset: nat)
    requires Lawful(lib) && Sealable(lib, b)
    requires |HEAD_MAGIC| <= at && at + |UnitBytes(lib, true, b)| <= footerOffset <= |buf|
    requires buf[at..at + |UnitBytes(lib, true, b)|] == UnitBytes(lib, true, b)
    ensures ReadEntryChunk(lib, buf, EntryOf(lib, b, at), footerOffset) == Outcome.Decoded(b)
  {
    DecodeWrittenChunk(lib, b);
    hide Lawful, LawfulZstd, DecodeChunkSpec, ToLE, StatsOf, Frames;
    var chunk := UnitBytes(lib, true, b);
    assert chunk[4..] == UnitBytes(lib, false, b);
    assert buf[at + 4..at + |chunk|] == buf[at..at + |chunk|][4..];
  }

  lemma SliceOfSlice(buf: seq<byte>, lo: nat, hi: nat, p: nat, q: nat)
    requires lo <= hi <= |buf| && p <= q <= hi - lo
    ensures buf[lo..hi][p..q] == buf[lo + p..lo + q]
  {
    forall i | 0 <= i < q - p
      ensures buf[lo..hi][p..q][i] == buf[lo + p..lo + q][i]
    {
      assert buf[lo..hi][p + i] == buf[lo + p + i];
    }
  }

  lemma EntryReadsItsChunk(lib: Library, buf: seq<byte>, bs: seq<seq<Event>>, footerOffset: nat, k: nat)
    requires Lawful(lib) && AllSealable(lib, bs) && HoldsChunks(lib, buf, bs, footerOffset) && k < |bs|
    ensures ReadEntryChunk(lib, buf, IndexOf(lib, bs, |HEAD_MAGIC|)[k], footerOffset) == Outcome.Decoded(bs[k])
  {
    assert LawfulZstd(lib);
    hide Lawful, LawfulZstd, IndexOf, CatUnits, UnitBytes, ReadEntryChunk, EntryOf, Summarizes, Sealable;
    var b, h, p := bs[k], |HEAD_MAGIC|, |CatUnits(lib, true, bs[..k])|;
    var q := p + |UnitBytes(lib, true, b)|;
    IndexOfAt(lib, bs, h, k);
    ChunkInArea(lib, buf[h..footerOffset], bs, k);
    SliceOfSlice(buf, h, footerOffset, p, q);
    assert Sealable(lib, b);
    assert buf[h + p..h + q] == UnitBytes(lib, true, b);
    EntryReadsChunkAt(lib, buf, b, h + p, footerOffset);
  }

  /** One entry's step, on a sink that has seen the same deliveries. */
  lemma EntryStepDelivers(lib: Library, buf: seq<byte>, es: seq<ChunkIndexEntry>, k: nat, footerOffset: nat,
      c: Consumer, s: ReadState, b: seq<Event>, t: SinkState)
    requires k < |es| && ReadEntryChunk(lib, buf, es[k], footerOffset) == Outcome.Decoded(b)
    requires Summarizes(es[k], b) && es[k].eventCount == |b|
    requires SameDelivery(s.sink, t)
    ensures var r := EntryStep(lib, buf, es, k, footerOffset, c, s);
            && r.problems == s.problems
            && SameDelivery(r.sink, PushAll(c, t, b))
            && (c.filter.None? && s.sink == t ==> r.sink == PushAll(c, t, b))
  {
    hide ReadEntryChunk, Matches, ChunkOverlaps, Summarizes;
    SameDeliveryIsKept(c, s.sink, t, b);
    if t.stopped {
      PushAllAfterStop(c, t, b);
    } else if c.filter.Some? && !ChunkOverlaps(c.filter.value, es[k]) {
      forall i | 0 <= i < |b|
        ensures !Matches(c.filter.value, b[i])
      {
        RejectedChunkHasNoMatch(c.filter.value, es[k], b, i);
      }
      SkippingRejectedEvents(c, t, b);
    }
    assert s.problems + [] == s.problems;
  }

  /** Reading through the index hands over every event in order, whatever the filter and
      whenever the callback stops, and reports nothing: a chunk the filter skips held no match. */
  lemma {:induction false} IndexedReadDeliversEverything(
    lib: Library, buf: seq<byte>, bs: seq<seq<Event>>, footerOffset: nat, n: nat, c: Consumer, s: ReadState)
    requires Lawful(lib) && AllSealable(lib, bs) && HoldsChunks(lib, buf, bs, footerOffset) && n <= |bs|
    ensures var r := DecodeIndexedSpec(lib, buf, IndexOf(lib, bs, |HEAD_MAGIC|), n, footerOffset, c, s);
            && r.problems == s.problems
            && SameDelivery(r.sink, PushAll(c, s.sink, Flatten(bs[..n])))
            && (c.filter.None? ==> r.sink == PushAll(c, s.sink, Flatten(bs[..n])))
  {
    assert LawfulZstd(lib);
    hide Lawful, LawfulZstd, IndexOf, EntryStep, CatUnits, PushSpec;
    if n > 0 {
      var k := n - 1;
      var es := IndexOf(lib, bs, |HEAD_MAGIC|);
      IndexedReadDeliversEverything(lib, buf, bs, footerOffset, k, c, s);
      EntryReadsItsChunk(lib, buf, bs, footerOffset, k);
      IndexOfAtStart(lib, bs, k);
      FlattenOneMore(bs, k);
      PushAllAppend(c, s.sink, Flatten(bs[..k]), bs[k]);
      EntryStepDelivers(lib, buf, es, k, footerOffset, c, DecodeIndexedSpec(lib, buf, es, k, footerOffset, c, s),
                        bs[k], PushAll(c, s.sink, Flatten(bs[..k])));
    }
  }

  lemma FlattenOneMore(bs: seq<seq<Event>>, k: nat)
    requires k < |bs|
    ensures Flatten(bs[..k + 1]) == Flatten(bs[..k]) + bs[k]
  {
    assert bs[..k + 1] == bs[..k] + [bs[k]];
    FlattenAppend(bs[..k], [bs[k]]);
    assert Flatten([bs[k]]) == bs[k];
  }

  lemma IndexOfAtStart(lib: Library, bs: seq<seq<Event>>, k: nat)
    requires LawfulZstd(lib) && AllSealable(lib, bs) && |HEAD_MAGIC| + |CatUnits(lib, true, bs)| <= U64_MAX && k < |bs|
    ensures var e := IndexOf(lib, bs, |HEAD_MAGIC|)[k];
            Summarizes(e, bs[k]) && e.eventCount == |bs[k]|
  {
    IndexOfAt(lib, bs, |HEAD_MAGIC|, k);
    hide LawfulZstd;
  }

  // ----- sealed files, and files with a broken footer -----

  lemma ScanOfTheChunkArea(lib: Library, buf: seq<byte>, bs: seq<seq<Event>>, end: nat)
    requires Lawful(lib) && AllSealable(lib, bs) && HoldsChunks(lib, buf, bs, end)
    ensures ScanSpec(lib, buf, |HEAD_MAGIC|, end) == Scan(Flatten(bs), [])
  {
    AllSealableFit(lib, bs);
    hide Lawful, LawfulZstd, CatUnits, ChunkFits, Sealable, TryChunk, FindResync;
    ScanWrittenChunks(lib, buf, |HEAD_MAGIC|, bs, end);
    assert Flatten(bs) + [] == Flatten(bs);
  }

  /** The index and the slow scan agree: same deliveries, same (empty) reports. */
  lemma IndexAgreesWithScan(lib: Library, buf: seq<byte>, bs: seq<seq<Event>>, end: nat, c: Consumer, s: SinkState)
    requires Lawful(lib) && AllSealable(lib, bs) && HoldsChunks(lib, buf, bs, end)
    ensures var indexed := DecodeIndexedSpec(lib, buf, IndexOf(lib, bs, |HEAD_MAGIC|), |bs|, end, c, ReadState(s, []));
            var scanned := ScannedSpec(lib, buf, end, c, s);
            && indexed.problems == scanned.problems == []
            && SameDelivery(indexed.sink, scanned.sink)
            && (c.filter.None? ==> indexed.sink == scanned.sink)
            && scanned.sink == PushAll(c, s, Flatten(bs))
  {
    IndexedReadDeliversEverything(lib, buf, bs, end, |bs|, c, ReadState(s, []));
    ScanOfTheChunkArea(lib, buf, bs, end);
    hide Lawful, LawfulZstd, CatUnits, IndexOf, DecodeIndexedSpec, ScanSpec, HoldsChunks;
    assert bs[..|bs|] == bs;
  }

  /** The chunk area followed by anything. */
  lemma AreaIsHeld(lib: Library, bs: seq<seq<Event>>, rest: seq<byte>)
    requires LawfulZstd(lib) && AllSealable(lib, bs) && |ChunkFile(lib, bs)| <= U64_MAX
    ensures HoldsChunks(lib, ChunkFile(lib, bs) + rest, bs, |ChunkFile(lib, bs)|)
  {
    hide CatUnits;
    var h, area := |HEAD_MAGIC|, CatUnits(lib, true, bs);
    assert (ChunkFile(lib, bs) + rest)[h..h + |area|] == area;
  }

  /** A sealed file read back: every event, in order, through any filter and up to any stop,
      with nothing reported - even when the index is too long for its 32-bit count and the
      footer is refused. */
  lemma SealedFileReadsBack(lib: Library, bs: seq<seq<Event>>, c: Consumer, s: SinkState)
    requires Lawful(lib) && AllSealable(lib, bs) && |ChunkFile(lib, bs)| <= U64_MAX
    ensures var r := ReadChunkedSpec(lib, SealedFile(lib, bs), c, s);
            && r.problems == []
            && SameDelivery(r.sink, PushAll(c, s, Flatten(bs)))
            && (c.filter.None? ==> r.sink == PushAll(c, s, Flatten(bs)))
  {
    assert LawfulZstd(lib);
    var chunks, es := ChunkFile(lib, bs), IndexOf(lib, bs, |HEAD_MAGIC|);
    AreaIsHeld(lib, bs, FooterBytes(lib, |chunks|, es));
    IndexAgreesWithScan(lib, SealedFile(lib, bs), bs, |chunks|, c, s);
    FooterRoundTrip(lib, chunks, es);
    FooterIsClaimed(chunks, BodyBytes(es), |chunks|, lib.crc32(BodyBytes(es)));
    hide Lawful, LawfulZstd, CatUnits, IndexOf, DecodeIndexedSpec, ScannedSpec, ReadFooterSpec, ClaimedFooterOffset,
         BodyBytes, Trailer, PushAll, Flatten, AllSealable;
  }

  lemma FooterIsClaimed(pre: seq<byte>, body: seq<byte>, offset: u64, crc: u32)
    ensures ClaimedFooterOffset(pre + (body + Trailer(offset, crc))) ==
            if |HEAD_MAGIC| <= offset < |pre| + |body| then Some(offset) else None
  {
    hide ReadU64, ReadU32, Trailer;
    TrailerReadsBack(pre + body, offset, crc);
    assert pre + (body + Trailer(offset, crc)) == (pre + body) + Trailer(offset, crc);
  }

  /** Whatever bytes stand where the index should be, and whatever the checksum field says: when the reader
      refuses the footer, a scan up to an intact offset field still delivers everything. */
  lemma CorruptFooterLosesNothing(lib: Library, bs: seq<seq<Event>>, body: seq<byte>, crc: u32, c: Consumer,
      s: SinkState)
    requires Lawful(lib) && AllSealable(lib, bs) && |ChunkFile(lib, bs)| <= U64_MAX && body != []
    ensures var buf := ChunkFile(lib, bs) + (body + Trailer(|ChunkFile(lib, bs)|, crc));
            ReadFooterSpec(lib, buf).FooterCorrupt? ==>
              ReadChunkedSpec(lib, buf, c, s) == ReadState(PushAll(c, s, Flatten(bs)), [])
  {
    assert LawfulZstd(lib);
    var chunks := ChunkFile(lib, bs);
    var buf := chunks + (body + Trailer(|chunks|, crc));
    FooterIsClaimed(chunks, body, |chunks|, crc);
    AreaIsHeld(lib, bs, body + Trailer(|chunks|, crc));
    IndexAgreesWithScan(lib, buf, bs, |chunks|, c, s);
    hide Trailer, CatUnits, ReadFooterSpec, ClaimedFooterOffset, ScannedSpec, Lawful, LawfulZstd, DecodeIndexedSpec,
         IndexOf, PushAll, Flatten, AllSealable;
    assert ScannedSpec(lib, buf, |chunks|, c, s) == ReadState(PushAll(c, s, Flatten(bs)), []);
  }

  /** Filter pushdown is exact: reading a sealed file through a filter is filtering the full read. */
  lemma FilterPushdownIsExact(lib: Library, bs: seq<seq<Event>>, f: Option<EventFilter>, breaks: seq<Event> -> bool)
    requires Lawful(lib) && AllSealable(lib, bs) && |ChunkFile(lib, bs)| <= U64_MAX
    requires forall h :: !breaks(h)
    ensures var r := ReadChunkedSpec(lib, SealedFile(lib, bs), Consumer(f, breaks), FRESH_SINK);
            r.sink.out == FilterSeq(f, Flatten(bs)) && !r.sink.stopped && r.problems == []
  {
    hide Lawful, LawfulZstd, AllSealable, ReadChunkedSpec, SealedFile, PushAll, FilterSeq, ChunkFile, Flatten;
    SealedFileReadsBack(lib, bs, Consumer(f, breaks), FRESH_SINK);
    PushAllDeliversMatches(Consumer(f, breaks), FRESH_SINK, Flatten(bs));
    assert [] + FilterSeq(f, Flatten(bs)) == FilterSeq(f, Flatten(bs));
  }

  // ----- files read by scanning -----

  lemma ReadsByScanning(lib: Library, buf: seq<byte>, c: Consumer, s: SinkState)
    requires !ReadFooterSpec(lib, buf).Footer?
    ensures ReadChunkedSpec(lib, buf, c, s) == ScannedSpec(lib, buf, ScanEnd(lib, buf), c, s)
  {
    hide ReadFooterSpec, ClaimedFooterOffset, ScannedSpec;
  }

  /** At the end of the `m`-th unit exactly `m` units are complete; further on, at least as many. */
  lemma {:induction false} CompleteAtBoundary(lib: Library, chunked: bool, bs: seq<seq<Event>>, m: nat, k: nat)
    requires LawfulZstd(lib) && BatchesEncode(lib, bs) && m <= |bs|
    requires k >= |CatUnits(lib, chunked, bs[..m])|
    ensures CompleteUnits(lib, chunked, bs, k) >= m
    ensures k == |CatUnits(lib, chunked, bs[..m])| ==> CompleteUnits(lib, chunked, bs, k) == m
    decreases |bs|
  {
    hide UnitBytes, LawfulZstd;
    if bs != [] {
      UnitsAreNotEmpty(lib, chunked, bs[0]);
      if m > 0 {
        assert bs[..m][1..] == bs[1..][..m - 1];
        CompleteAtBoundary(lib, chunked, bs[1..], m - 1, k - |UnitBytes(lib, chunked, bs[0])|);
      }
    }
  }

  lemma UnitsAreNotEmpty(lib: Library, chunked: bool, b: seq<Event>)
    requires LawfulZstd(lib) && AllEncodable(lib, b)
    ensures UnitBytes(lib, chunked, b) != []
  {
    assert FrameHasChecksum(lib.compress(Frames(lib, b)));
  }

  lemma ScannedIgnoresWhatFollows(lib: Library, buf: seq<byte>, end: nat, c: Consumer, s: SinkState)
    requires end <= |buf|
    ensures ScannedSpec(lib, buf, end, c, s) == ScannedSpec(lib, buf[..end], end, c, s)
  {
    hide ScanSpec;
    ScanIgnoresWhatFollows(lib, buf, |HEAD_MAGIC|, end);
  }

  /** Scanning up to `end` within the chunk area: every event of every chunk that is complete by then, and a
      report exactly when `end` lies inside a chunk. */
  lemma ScanUpTo(lib: Library, bs: seq<seq<Event>>, buf: seq<byte>, end: nat, c: Consumer, s: SinkState)
    requires Lawful(lib) && AllSealable(lib, bs)
    requires |HEAD_MAGIC| <= end <= |buf| && buf[..end] <= ChunkFile(lib, bs)
    ensures var n := CompleteUnits(lib, true, bs, end - |HEAD_MAGIC|);
            var r := ScannedSpec(lib, buf, end, c, s);
            && (exists more :: r.sink == PushAll(c, s, Flatten(bs[..n]) + more))
            && (r.problems == [] <==> end == |ChunkFile(lib, bs[..n])|)
            && (r.problems == [] ==> r.sink == PushAll(c, s, Flatten(bs[..n])))
  {
    AllSealableFit(lib, bs);
    assert ChunkFile(lib, bs)[..end] == buf[..end];
    ScanOfACutFile(lib, bs, end);
    ScanIgnoresWhatFollows(lib, buf, |HEAD_MAGIC|, end);
    var n := CompleteUnits(lib, true, bs, end - |HEAD_MAGIC|);
    hide Lawful, LawfulZstd, CatUnits, CompleteUnits, ScanSpec, PushAll, Flatten;
    var scan := ScanSpec(lib, buf, |HEAD_MAGIC|, end);
    assert scan.events == Flatten(bs[..n]) + scan.events[|Flatten(bs[..n])|..];
  }

  /** An unsealed chunked file, cut anywhere: every event of every complete chunk first, and a report exactly when
      the cut is inside a chunk. Should the cut bytes end like a footer that is refused, its offset is the cut. */
  lemma CutChunkFileReadsBack(lib: Library, bs: seq<seq<Event>>, k: nat, c: Consumer, s: SinkState)
    requires Lawful(lib) && AllSealable(lib, bs) && |HEAD_MAGIC| <= k <= |ChunkFile(lib, bs)|
    requires !ReadFooterSpec(lib, ChunkFile(lib, bs)[..k]).Footer?
    ensures var buf := ChunkFile(lib, bs)[..k];
            var n := CompleteUnits(lib, true, bs, ScanEnd(lib, buf) - |HEAD_MAGIC|);
            var r := ReadChunkedSpec(lib, buf, c, s);
            && |HEAD_MAGIC| <= ScanEnd(lib, buf) <= k
            && (exists more :: r.sink == PushAll(c, s, Flatten(bs[..n]) + more))
            && (r.problems == [] <==> ScanEnd(lib, buf) == |ChunkFile(lib, bs[..n])|)
            && (r.problems == [] ==> r.sink == PushAll(c, s, Flatten(bs[..n])))
  {
    assert LawfulZstd(lib);
    hide Lawful, LawfulZstd, CatUnits, CompleteUnits, ReadFooterSpec, ScannedSpec, PushAll, Flatten, AllSealable,
         ClaimedFooterOffset;
    AllSealableFit(lib, bs);
    var buf := ChunkFile(lib, bs)[..k];
    ReadsByScanning(lib, buf, c, s);
    ScanUpTo(lib, bs, buf, ScanEnd(lib, buf), c, s);
  }

  // ----- legacy files -----

  lemma WholeFrameReads(lib: Library, b: seq<Event>, rest: seq<byte>)
    requires LawfulZstd(lib) && AllEncodable(lib, b)
    ensures var f := UnitBytes(lib, false, b);
            && f != [] && FrameHasChecksum(f + rest) && StartsWithMagic(f + rest)
            && UsableFrameSize(lib, f + rest) == Some(|f|)
            && FrameData(lib, f + rest) == (Frames(lib, b), true)
  {
    var f := UnitBytes(lib, false, b);
    var buf := f + rest;
    assert FrameHasChecksum(f);
    assert buf[..4] == f[..4] && buf[4] == f[4];
    assert lib.frameSize(lib.compress(Frames(lib, b)) + rest) == Some(|f|);
    assert buf[..|f|] == f;
    assert lib.decompress(f) == Externals.Decoded(Frames(lib, b), true);
  }

  lemma NothingToRead(lib: Library)
    ensures ReadSpec(lib, []) == CleanEnd
  {
  }

  lemma FramesDeliver(lib: Library, b: seq<Event>, at: nat, c: Consumer, s: SinkState)
    requires LawfulCbor(lib) && AllEncodable(lib, b)
    ensures DeliverData(lib, Frames(lib, b), at, c, s) == ReadState(PushAll(c, s, b), [])
  {
    hide ParseSpec, ReadSpec, Frames, PushAll, LawfulCbor, AllEncodable;
    ParseAfterFrames(lib, b, [], 0);
    ParseUnfolds(lib, [], |Frames(lib, b)|);
    NothingToRead(lib);
    assert Frames(lib, b) + [] == Frames(lib, b) && b + [] == b;
  }

  lemma WholeFrameStep(lib: Library, buf: seq<byte>, at: nat, b: seq<Event>, c: Consumer, s: ReadState)
    requires Lawful(lib) && AllEncodable(lib, b)
    requires at + |UnitBytes(lib, false, b)| <= |buf|
             && buf[at..at + |UnitBytes(lib, false, b)|] == UnitBytes(lib, false, b)
    ensures at < |buf|
    ensures var t := s.(sink := PushAll(c, s.sink, b));
            LegacyStep(lib, buf, at, c, s) ==
            LegacyStepResult(t, if t.sink.stopped then None else Some(at + |UnitBytes(lib, false, b)|))
  {
    var f := UnitBytes(lib, false, b);
    var rest := buf[at + |f|..];
    assert buf[at..] == f + rest;
    WholeFrameReads(lib, b, rest);
    FramesDeliver(lib, b, at, c, s.sink);
    hide Lawful, UnitBytes, PushAll, DeliverData, FrameData, UsableFrameSize, FrameHasChecksum, StartsWithMagic;
    assert s.problems + [] == s.problems;
  }

  lemma ReadLegacyUnfolds(lib: Library, buf: seq<byte>, at: nat, c: Consumer, s: ReadState)
    ensures ReadLegacySpec(lib, buf, at, c, s) ==
            if at >= |buf| || s.sink.stopped then s
            else
              var r := LegacyStep(lib, buf, at, c, s);
              if r.next.None? then r.state else ReadLegacySpec(lib, buf, r.next.value, c, r.state)
  {
  }

  /** Whole frames hand over their events in order; the read then goes on behind them. */
  lemma {:induction false} LegacyReadsWholeFrames(lib: Library, buf: seq<byte>, at: nat, bs: seq<seq<Event>>,
      c: Consumer, s: ReadState)
    requires Lawful(lib) && BatchesEncode(lib, bs)
    requires at + |CatUnits(lib, false, bs)| <= |buf|
             && buf[at..at + |CatUnits(lib, false, bs)|] == CatUnits(lib, false, bs)
    ensures ReadLegacySpec(lib, buf, at, c, s) ==
            ReadLegacySpec(lib, buf, at + |CatUnits(lib, false, bs)|, c, s.(sink := PushAll(c, s.sink, Flatten(bs))))
    decreases |bs|
  {
    hide Lawful, UnitBytes, LegacyStep, PushSpec, ReadLegacySpec;
    ReadLegacyUnfolds(lib, buf, at, c, s);
    if s.sink.stopped {
      PushAllAfterStop(c, s.sink, Flatten(bs));
      ReadLegacyUnfolds(lib, buf, at + |CatUnits(lib, false, bs)|, c, s);
    } else if bs != [] {
      var f, more := UnitBytes(lib, false, bs[0]), CatUnits(lib, false, bs[1..]);
      var next := at + |f|;
      SliceOfSlice(buf, at, next + |more|, 0, |f|);
      SliceOfSlice(buf, at, next + |more|, |f|, |f| + |more|);
      WholeFrameStep(lib, buf, at, bs[0], c, s);
      var t := s.(sink := PushAll(c, s.sink, bs[0]));
      PushAllAppend(c, s.sink, bs[0], Flatten(bs[1..]));
      if t.sink.stopped {
        PushAllAfterStop(c, t.sink, Flatten(bs[1..]));
        ReadLegacyUnfolds(lib, buf, next + |more|, c, t);
      } else {
        LegacyReadsWholeFrames(lib, buf, next, bs[1..], c, t);
      }
    }
  }

  /** One pass only pushes events, and only adds reports. */
  ghost predicate OnlyAdds(c: Consumer, s: ReadState, t: ReadState)
  {
    s.problems <= t.problems && exists more :: t.sink == PushAll(c, s.sink, more)
  }

  lemma OnlyAddsTwice(c: Consumer, s: ReadState, t: ReadState, u: ReadState)
    requires OnlyAdds(c, s, t) && OnlyAdds(c, t, u)
    ensures OnlyAdds(c, s, u)
  {
    var a :| t.sink == PushAll(c, s.sink, a);
    var b :| u.sink == PushAll(c, t.sink, b);
    PushAllAppend(c, s.sink, a, b);
  }

  lemma LegacyStepOnlyAdds(lib: Library, buf: seq<byte>, at: nat, c: Consumer, s: ReadState)
    requires at < |buf|
    ensures OnlyAdds(c, s, LegacyStep(lib, buf, at, c, s).state)
  {
    assert PushAll(c, s.sink, []) == s.sink;
    var data := FrameData(lib, buf[at..]).0;
    assert DeliverData(lib, data, at, c, s.sink).sink == PushAll(c, s.sink, ParseSpec(lib, data, 0).events);
    hide FrameHasChecksum, StartsWithMagic, UsableFrameSize, PushAll, FrameData, ParseSpec;
  }

  lemma {:induction false} LegacyReadOnlyAdds(lib: Library, buf: seq<byte>, at: nat, c: Consumer, s: ReadState)
    ensures OnlyAdds(c, s, ReadLegacySpec(lib, buf, at, c, s))
    decreases |buf| - at
  {
    assert PushAll(c, s.sink, []) == s.sink;
    hide LegacyStep, OnlyAdds;
    if at < |buf| && !s.sink.stopped {
      LegacyStepOnlyAdds(lib, buf, at, c, s);
      var r := LegacyStep(lib, buf, at, c, s);
      if r.next.Some? {
        LegacyReadOnlyAdds(lib, buf, r.next.value, c, r.state);
        OnlyAddsTwice(c, s, r.state, ReadLegacySpec(lib, buf, r.next.value, c, r.state));
      }
    } else {
      NothingAdded(c, s);
    }
  }

  lemma NothingAdded(c: Consumer, s: ReadState)
    ensures OnlyAdds(c, s, s)
  {
    assert PushAll(c, s.sink, []) == s.sink;
  }

  /** What stands behind the last complete frame draws a report at once, unless the callback stops first. */
  lemma CutFrameStepReports(lib: Library, buf: seq<byte>, at: nat, b: seq<Event>, c: Consumer, s: ReadState)
    requires LawfulZstd(lib) && AllEncodable(lib, b) && at < |buf|
    requires buf[at..] <= UnitBytes(lib, false, b) && |buf[at..]| < |UnitBytes(lib, false, b)|
    ensures var r := LegacyStep(lib, buf, at, c, s);
            !r.state.sink.stopped ==> |r.state.problems| > |s.problems|
  {
    var rest := buf[at..];
    assert rest == lib.compress(Frames(lib, b))[..|rest|];
    assert lib.frameSize(lib.compress(Frames(lib, b))[..|rest|]) == None;
    assert UsableFrameSize(lib, rest).None?;
    hide LawfulZstd, UnitBytes, FrameHasChecksum, StartsWithMagic, UsableFrameSize, FrameData, DeliverData,
         FindChecksummed, FindMagic;
  }

  lemma CutFrameIsReported(lib: Library, buf: seq<byte>, at: nat, b: seq<Event>, c: Consumer, s: ReadState)
    requires LawfulZstd(lib) && AllEncodable(lib, b) && at < |buf| && !s.sink.stopped
    requires buf[at..] <= UnitBytes(lib, false, b) && |buf[at..]| < |UnitBytes(lib, false, b)|
    ensures var r := ReadLegacySpec(lib, buf, at, c, s);
            OnlyAdds(c, s, r) && (!r.sink.stopped ==> |r.problems| > |s.problems|)
  {
    CutFrameStepReports(lib, buf, at, b, c, s);
    LegacyReadOnlyAdds(lib, buf, at, c, s);
    hide LegacyStep, UnitBytes, LawfulZstd, PushAll;
    var r := LegacyStep(lib, buf, at, c, s);
    if r.next.Some? {
      LegacyReadOnlyAdds(lib, buf, r.next.value, c, r.state);
      if r.state.sink.stopped {
        var more :| ReadLegacySpec(lib, buf, r.next.value, c, r.state).sink == PushAll(c, r.state.sink, more);
        PushAllAfterStop(c, r.state.sink, more);
      }
    }
  }

  /** A legacy file cut anywhere: every event of every complete frame first, and a report exactly
      when the cut is inside a frame. */
  lemma CutLegacyFileReadsBack(lib: Library, bs: seq<seq<Event>>, k: nat, c: Consumer, s: SinkState)
    requires Lawful(lib) && BatchesEncode(lib, bs) && k <= |CatUnits(lib, false, bs)|
    ensures var n := CompleteUnits(lib, false, bs, k);
            var r := ReadLegacySpec(lib, CatUnits(lib, false, bs)[..k], 0, c, ReadState(s, []));
            && (exists more :: r.sink == PushAll(c, s, Flatten(bs[..n]) + more))
            && (!r.sink.stopped ==> (r.problems == [] <==> k == |CatUnits(lib, false, bs[..n])|))
            && (k == |CatUnits(lib, false, bs[..n])| ==> r == ReadState(PushAll(c, s, Flatten(bs[..n])), []))
  {
    hide CatUnits, CompleteUnits, UnitBytes, PushAll, Flatten, LegacyStep, Lawful, ReadLegacySpec;
    var part := CutArea(lib, false, bs, k);
    var n := CompleteUnits(lib, false, bs, k);
    WholeFramesThenPart(lib, bs[..n], part, c, s);
    if part != [] {
      CutTailReads(lib, CatUnits(lib, false, bs[..n]) + part, |CatUnits(lib, false, bs[..n])|, bs[n], c, s,
          Flatten(bs[..n]));
    }
  }

  lemma WholeFramesThenPart(lib: Library, bs: seq<seq<Event>>, part: seq<byte>, c: Consumer, s: SinkState)
    requires Lawful(lib) && BatchesEncode(lib, bs)
    ensures var whole := CatUnits(lib, false, bs);
            var t := ReadState(PushAll(c, s, Flatten(bs)), []);
            && ReadLegacySpec(lib, whole + part, 0, c, ReadState(s, []))
               == ReadLegacySpec(lib, whole + part, |whole|, c, t)
            && (part == [] ==> ReadLegacySpec(lib, whole + part, |whole|, c, t) == t)
            && Flatten(bs) + [] == Flatten(bs)
  {
    hide CatUnits, PushAll, Flatten, LegacyStep, Lawful;
    var whole := CatUnits(lib, false, bs);
    assert (whole + part)[0..0 + |whole|] == whole;
    LegacyReadsWholeFrames(lib, whole + part, 0, bs, c, ReadState(s, []));
  }

  lemma CutTailReads(lib: Library, buf: seq<byte>, at: nat, b: seq<Event>, c: Consumer, s: SinkState, evs: seq<Event>)
    requires Lawful(lib) && AllEncodable(lib, b) && at < |buf|
    requires buf[at..] <= UnitBytes(lib, false, b) && |buf[at..]| < |UnitBytes(lib, false, b)|
    ensures var r := ReadLegacySpec(lib, buf, at, c, ReadState(PushAll(c, s, evs), []));
            (exists more :: r.sink == PushAll(c, s, evs + more)) && (!r.sink.stopped ==> r.problems != [])
  {
    assert LawfulZstd(lib);
    hide Lawful, LawfulZstd, UnitBytes, PushAll, LegacyStep;
    var t := ReadState(PushAll(c, s, evs), []);
    var r := ReadLegacySpec(lib, buf, at, c, t);
    LegacyReadOnlyAdds(lib, buf, at, c, t);
    var more :| r.sink == PushAll(c, t.sink, more);
    PushAllAppend(c, s, evs, more);
    if !t.sink.stopped {
      CutFrameIsReported(lib, buf, at, b, c, t);
    }
  }
}
