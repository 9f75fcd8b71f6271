/** A sealed file whose footer is refused because its offset field, which no checksum covers, is damaged. */
module WrongOffset {
  import opened Bytes
  import opened Events
  import opened Externals
  import opened Codec
  import opened Footer
  import opened Chunked
  import opened Delivery
  import opened Layout
  import opened Reader
  import opened ReadBack
  import opened TornFooter

  /** The sealed file with any offset and any checksum in its trailer. */
  ghost function WithOffset(lib: Library, bs: seq<seq<Event>>, offset: u64, crc: u32): (buf: seq<byte>)
    requires LawfulZstd(lib) && AllSealable(lib, bs) && |ChunkFile(lib, bs)| <= U64_MAX
  {
    ChunkFile(lib, bs) + (BodyBytes(IndexOf(lib, bs, |HEAD_MAGIC|)) + Trailer(offset, crc))
  }

  /** The offset lies behind the magic and before the trailer. */
  ghost predicate Plausible(lib: Library, bs: seq<seq<Event>>, offset: u64)
    requires LawfulZstd(lib) && AllSealable(lib, bs) && |ChunkFile(lib, bs)| <= U64_MAX
  {
    |HEAD_MAGIC| <= offset < |ChunkFile(lib, bs)| + |BodyBytes(IndexOf(lib, bs, |HEAD_MAGIC|))|
  }

  lemma ScansUpToTheOffset(lib: Library, bs: seq<seq<Event>>, offset: u64, crc: u32, c: Consumer, s: SinkState)
    requires LawfulZstd(lib) && AllSealable(lib, bs) && |ChunkFile(lib, bs)| <= U64_MAX && Plausible(lib, bs, offset)
    requires ReadFooterSpec(lib, WithOffset(lib, bs, offset, crc)).FooterCorrupt?
    ensures var buf := WithOffset(lib, bs, offset, crc);
            offset <= |buf| && ReadChunkedSpec(lib, buf, c, s) == ScannedSpec(lib, buf, offset, c, s)
  {
    hide LawfulZstd, AllSealable, CatUnits, IndexOf, BodyBytes, Trailer, ReadFooterSpec, ClaimedFooterOffset,
         ScannedSpec;
    AllSealableFit(lib, bs);
    FooterIsClaimed(ChunkFile(lib, bs), BodyBytes(IndexOf(lib, bs, |HEAD_MAGIC|)), offset, crc);
  }

  /** A refused footer whose offset is too small: the chunks that end before it, and no report if it is where one
      ends. */
  lemma OffsetBelowLosesChunks(lib: Library, bs: seq<seq<Event>>, offset: u64, crc: u32, c: Consumer, s: SinkState)
    requires Lawful(lib) && AllSealable(lib, bs) && |ChunkFile(lib, bs)| <= U64_MAX && Plausible(lib, bs, offset)
    requires ReadFooterSpec(lib, WithOffset(lib, bs, offset, crc)).FooterCorrupt?
    requires offset <= |ChunkFile(lib, bs)|
    ensures var n := CompleteUnits(lib, true, bs, offset - |HEAD_MAGIC|);
            var r := ReadChunkedSpec(lib, WithOffset(lib, bs, offset, crc), c, s);
            && (exists more :: r.sink == PushAll(c, s, Flatten(bs[..n]) + more))
            && (r.problems == [] <==> offset == |ChunkFile(lib, bs[..n])|)
            && (r.problems == [] ==> r.sink == PushAll(c, s, Flatten(bs[..n])))
  {
    assert LawfulZstd(lib);
    hide Lawful, LawfulZstd, AllSealable, ChunkFile, CatUnits, IndexOf, BodyBytes, Trailer, ReadFooterSpec, ScannedSpec,
         PushAll, Flatten, CompleteUnits, ReadChunkedSpec;
    AllSealableFit(lib, bs);
    ScansUpToTheOffset(lib, bs, offset, crc, c, s);
    var buf := WithOffset(lib, bs, offset, crc);
    assert buf[..offset] == ChunkFile(lib, bs)[..offset];
    ScanUpTo(lib, bs, buf, offset, c, s);
  }

  /** A refused footer whose offset is too large: every event first, and a report. */
  lemma OffsetAboveIsReported(lib: Library, bs: seq<seq<Event>>, offset: u64, crc: u32, c: Consumer, s: SinkState)
    requires Lawful(lib) && AllSealable(lib, bs) && |ChunkFile(lib, bs)| <= U64_MAX && Plausible(lib, bs, offset)
    requires ReadFooterSpec(lib, WithOffset(lib, bs, offset, crc)).FooterCorrupt?
    requires offset > |ChunkFile(lib, bs)|
    ensures var r := ReadChunkedSpec(lib, WithOffset(lib, bs, offset, crc), c, s);
            (exists more :: r.sink == PushAll(c, s, Flatten(bs) + more)) && r.problems != []
  {
    assert LawfulZstd(lib);
    hide Lawful, LawfulZstd, AllSealable, ChunkFile, CatUnits, IndexOf, BodyBytes, Trailer, ReadFooterSpec, ScannedSpec,
         PushAll, Flatten, ReadChunkedSpec;
    AllSealableFit(lib, bs);
    ScansUpToTheOffset(lib, bs, offset, crc, c, s);
    var at, body := |ChunkFile(lib, bs)|, BodyBytes(IndexOf(lib, bs, |HEAD_MAGIC|));
    StartOfTheBody(ChunkFile(lib, bs), body, Trailer(offset, crc), Trailer(at, lib.crc32(body)), offset);
    ScanIntoAFooter(lib, bs, WithOffset(lib, bs, offset, crc), offset, c, s);
  }

  lemma StartOfTheBody(chunks: seq<byte>, body: seq<byte>, trailer: seq<byte>, other: seq<byte>, end: nat)
    requires |chunks| <= end <= |chunks| + |body|
    ensures var buf := chunks + (body + trailer);
            buf[..|chunks|] == chunks && buf[|chunks|..end] <= body + other
  {
    var buf := chunks + (body + trailer);
    assert buf[|chunks|..end] == body[..end - |chunks|];
  }

  lemma {:induction false} DeliveryIsSeen(c: Consumer, s: SinkState, evs: seq<Event>)
    requires !s.stopped && evs != []
    ensures PushAll(c, s, evs).seen > s.seen
    decreases |evs|
  {
    var t := PushSpec(c, s, evs[0]);
    if t.stopped {
      PushAllAfterStop(c, t, evs[1..]);
    } else if |evs| > 1 {
      DeliveryIsSeen(c, t, evs[1..]);
    }
  }

  /** More events change what was delivered unless the callback has stopped. */
  lemma MoreEvents(c: Consumer, s: SinkState, first: seq<Event>, more: seq<Event>)
    requires more != []
    ensures PushAll(c, s, first) == PushAll(c, s, first + more) <==> PushAll(c, s, first).stopped
  {
    hide PushAll;
    var t := PushAll(c, s, first);
    PushAllAppend(c, s, first, more);
    if t.stopped {
      PushAllAfterStop(c, t, more);
    } else {
      DeliveryIsSeen(c, t, more);
    }
  }

  /** Fewer batches deliver the same exactly when the callback has stopped by then. */
  lemma FewerBatches(lib: Library, bs: seq<seq<Event>>, m: nat, c: Consumer, s: SinkState)
    requires AllSealable(lib, bs) && m < |bs|
    ensures PushAll(c, s, Flatten(bs[..m])) == PushAll(c, s, Flatten(bs)) <==> PushAll(c, s, Flatten(bs[..m])).stopped
  {
    hide PushAll, AllEncodable, Frames;
    assert Sealable(lib, bs[m]);
    assert bs == bs[..m] + bs[m..] && bs[m..][0] == bs[m];
    FlattenAppend(bs[..m], bs[m..]);
    MoreEvents(c, s, Flatten(bs[..m]), Flatten(bs[m..]));
  }

  /** When the read with a damaged offset is the whole read: the offset is where a chunk ends, and the callback has
      stopped by then unless it is the last. */
  ghost predicate OffsetDoesNoHarm(lib: Library, bs: seq<seq<Event>>, offset: u64, c: Consumer, s: SinkState)
    requires BatchesEncode(lib, bs)
  {
    exists m :: 0 <= m <= |bs| && offset == |ChunkFile(lib, bs[..m])|
        && (m == |bs| || PushAll(c, s, Flatten(bs[..m])).stopped)
  }

  lemma ChunkFileGrows(lib: Library, bs: seq<seq<Event>>, m: nat)
    requires LawfulZstd(lib) && BatchesEncode(lib, bs) && m <= |bs|
    ensures BatchesEncode(lib, bs[..m]) && |HEAD_MAGIC| <= |ChunkFile(lib, bs[..m])|
    ensures |ChunkFile(lib, bs[..m])| <= |ChunkFile(lib, bs)|
    ensures CompleteUnits(lib, true, bs, |ChunkFile(lib, bs[..m])| - |HEAD_MAGIC|) == m
  {
    hide LawfulZstd, CatUnits, CompleteUnits;
    CatUnitsSplits(lib, true, bs, m);
    CompleteAtBoundary(lib, true, bs, m, |ChunkFile(lib, bs[..m])| - |HEAD_MAGIC|);
  }

  /** With the index intact and the footer refused, the read gives every event and no report exactly when the offset
      is the end of the chunks, or of an earlier chunk the callback does not read past. */
  lemma WrongOffsetIff(lib: Library, bs: seq<seq<Event>>, offset: u64, crc: u32, c: Consumer, s: SinkState)
    requires Lawful(lib) && AllSealable(lib, bs) && |ChunkFile(lib, bs)| <= U64_MAX && Plausible(lib, bs, offset)
    requires ReadFooterSpec(lib, WithOffset(lib, bs, offset, crc)).FooterCorrupt?
    ensures BatchesEncode(lib, bs)
    ensures ReadChunkedSpec(lib, WithOffset(lib, bs, offset, crc), c, s) == ReadState(PushAll(c, s, Flatten(bs)), [])
       <==> OffsetDoesNoHarm(lib, bs, offset, c, s)
  {
    assert LawfulZstd(lib);
    hide Lawful, LawfulZstd, AllSealable, CatUnits, Plausible, WithOffset, ReadFooterSpec, PushAll, Flatten,
         CompleteUnits, ReadChunkedSpec, OffsetDoesNoHarm;
    AllSealableFit(lib, bs);
    HarmlessOffsets(lib, bs, offset, c, s);
    if offset > |ChunkFile(lib, bs)| {
      OffsetAboveIsReported(lib, bs, offset, crc, c, s);
    } else {
      OffsetBelowLosesChunks(lib, bs, offset, crc, c, s);
      UpToAChunk(lib, bs, CompleteUnits(lib, true, bs, offset - |HEAD_MAGIC|), c, s);
    }
  }

  lemma HarmlessOffsets(lib: Library, bs: seq<seq<Event>>, offset: u64, c: Consumer, s: SinkState)
    requires LawfulZstd(lib) && BatchesEncode(lib, bs) && |HEAD_MAGIC| <= offset
    ensures OffsetDoesNoHarm(lib, bs, offset, c, s) <==>
            var n := CompleteUnits(lib, true, bs, offset - |HEAD_MAGIC|);
            offset == |ChunkFile(lib, bs[..n])| && (n == |bs| || PushAll(c, s, Flatten(bs[..n])).stopped)
    ensures OffsetDoesNoHarm(lib, bs, offset, c, s) ==> offset <= |ChunkFile(lib, bs)|
  {
    hide LawfulZstd, ChunkFile, PushAll, Flatten, CompleteUnits, BatchesEncode;
    forall m | 0 <= m <= |bs|
      ensures BatchesEncode(lib, bs[..m]) && |HEAD_MAGIC| <= |ChunkFile(lib, bs[..m])| <= |ChunkFile(lib, bs)|
      ensures CompleteUnits(lib, true, bs, |ChunkFile(lib, bs[..m])| - |HEAD_MAGIC|) == m
    {
      ChunkFileGrows(lib, bs, m);
    }
  }

  lemma UpToAChunk(lib: Library, bs: seq<seq<Event>>, n: nat, c: Consumer, s: SinkState)
    requires AllSealable(lib, bs) && n <= |bs|
    ensures n == |bs| ==> bs[..n] == bs
    ensures PushAll(c, s, Flatten(bs[..n])) == PushAll(c, s, Flatten(bs))
       <==> n == |bs| || PushAll(c, s, Flatten(bs[..n])).stopped
  {
    hide PushAll, Flatten, AllSealable;
    if n < |bs| {
      FewerBatches(lib, bs, n, c, s);
    } else {
      assert bs[..n] == bs;
    }
  }

  /** For a callback that never asks to stop: every event and no report exactly when the offset is right. */
  lemma OnlyTheRightOffset(lib: Library, bs: seq<seq<Event>>, offset: u64, crc: u32, c: Consumer, s: SinkState)
    requires Lawful(lib) && AllSealable(lib, bs) && |ChunkFile(lib, bs)| <= U64_MAX && Plausible(lib, bs, offset)
    requires ReadFooterSpec(lib, WithOffset(lib, bs, offset, crc)).FooterCorrupt?
    requires !s.stopped && NeverAsksToStop(c, s.out, Flatten(bs))
    ensures ReadChunkedSpec(lib, WithOffset(lib, bs, offset, crc), c, s) == ReadState(PushAll(c, s, Flatten(bs)), [])
       <==> offset == |ChunkFile(lib, bs)|
  {
    hide Lawful, LawfulZstd, AllSealable, ChunkFile, CatUnits, Plausible, WithOffset, ReadFooterSpec, PushAll, Flatten,
         ReadChunkedSpec, NeverAsksToStop;
    WrongOffsetIff(lib, bs, offset, crc, c, s);
    StopsExactlyWhenAsked(c, s, Flatten(bs));
    forall m | 0 <= m < |bs|
      ensures !PushAll(c, s, Flatten(bs[..m])).stopped
    {
      FewerBatches(lib, bs, m, c, s);
    }
    assert bs[..|bs|] == bs;
  }

  // ----- a session that reads as empty -----

  /** Seen from behind the magic, the first chunk's length and the size of what follows never satisfy the size
      equation. */
  lemma OffsetAtTheMagicIsRefused(lib: Library, b: seq<Event>, crc: u32)
    requires LawfulZstd(lib) && Sealable(lib, b) && |ChunkFile(lib, [b])| <= U64_MAX
    ensures ReadFooterSpec(lib, WithOffset(lib, [b], |HEAD_MAGIC|, crc)).FooterCorrupt?
  {
    hide LawfulZstd, BodyBytes, Trailer, IndexOf, Frames, ToLE;
    var frame := lib.compress(Frames(lib, b));
    var body := BodyBytes(IndexOf(lib, [b], |HEAD_MAGIC|));
    var buf, at := WithOffset(lib, [b], |HEAD_MAGIC|, crc), |HEAD_MAGIC|;
    SealableFits(lib, b);
    assert [b][1..] == [];
    assert ChunkFile(lib, [b]) == HEAD_MAGIC + (ToLE(|frame|, 4) + frame);
    var rest := frame + (body + Trailer(at, crc));
    assert buf == HEAD_MAGIC + ToLE(|frame|, 4) + rest;
    ReadBackU32(HEAD_MAGIC, |frame|, rest);
    assert buf == (ChunkFile(lib, [b]) + body) + Trailer(at, crc);
    TrailerReadsBack(ChunkFile(lib, [b]) + body, at, crc);
  }

  /** A sealed session of one chunk, for any batch, with the smallest plausible offset: nothing is read, nothing
      reported. */
  lemma OneChunkVanishes(lib: Library, b: seq<Event>, crc: u32, c: Consumer, s: SinkState)
    requires Lawful(lib) && Sealable(lib, b) && |ChunkFile(lib, [b])| <= U64_MAX
    ensures ReadChunkedSpec(lib, WithOffset(lib, [b], |HEAD_MAGIC|, crc), c, s) == ReadState(s, [])
  {
    assert LawfulZstd(lib);
    hide Lawful, LawfulZstd, WithOffset, ReadFooterSpec, ReadChunkedSpec, Sealable, UnitBytes;
    OffsetAtTheMagicIsRefused(lib, b, crc);
    UnitsAreNotEmpty(lib, true, b);
    OffsetBelowLosesChunks(lib, [b], |HEAD_MAGIC|, crc, c, s);
    assert [b][..0] == [];
  }
}
