/** A session whose footer was cut short, and could not be cut off again: what reading it gives. */
module TornFooter {
  import opened Bytes
  import opened Events
  import opened Externals
  import opened Footer
  import opened Chunked
  import opened Delivery
  import opened Layout
  import opened Reader
  import opened ReadBack

  lemma {:induction false} EntriesStartWithTheFirstOffset(es: seq<ChunkIndexEntry>)
    requires es != []
    ensures EntriesBytes(es)[0] == es[0].offset % 0x100
    decreases |es|
  {
    if |es| == 1 {
      assert es[..0] == [];
    } else {
      EntriesStartWithTheFirstOffset(es[..|es| - 1]);
    }
  }

  /** The writer's index starts at the first chunk, right behind the magic. */
  lemma WrittenFooterStart(lib: Library, bs: seq<seq<Event>>, at: u64)
    requires LawfulZstd(lib) && AllSealable(lib, bs) && |HEAD_MAGIC| + |CatUnits(lib, true, bs)| <= U64_MAX
    ensures var f := FooterBytes(lib, at, IndexOf(lib, bs, |HEAD_MAGIC|));
            && f[..4] == ToLE(|bs|, 4)
            && (bs != [] ==> f[4] == 4)
  {
    hide CatUnits, EntryOf, ToLE, Trailer, LawfulZstd;
    var es := IndexOf(lib, bs, |HEAD_MAGIC|);
    if bs != [] {
      EntriesStartWithTheFirstOffset(es);
      FirstEntryOffset(lib, bs);
      assert FooterBytes(lib, at, es)[4] == EntriesBytes(es)[0];
    }
  }

  lemma FirstEntryOffset(lib: Library, bs: seq<seq<Event>>)
    requires LawfulZstd(lib) && AllSealable(lib, bs) && |HEAD_MAGIC| + |CatUnits(lib, true, bs)| <= U64_MAX && bs != []
    ensures IndexOf(lib, bs, |HEAD_MAGIC|)[0].offset == 4
  {
    hide CatUnits, LawfulZstd;
  }

  /** A footer, or any start of one, is never taken for a chunk: its first entry does not look like a zstd frame. */
  lemma FooterIsNoChunk(lib: Library, bs: seq<seq<Event>>, at: u64, buf: seq<byte>, p: nat)
    requires LawfulZstd(lib) && AllSealable(lib, bs) && |HEAD_MAGIC| + |CatUnits(lib, true, bs)| <= U64_MAX
    requires p < |buf| && buf[p..] <= FooterBytes(lib, at, IndexOf(lib, bs, |HEAD_MAGIC|))
    ensures TryChunk(lib, buf, p, |buf|, false).None?
  {
    hide CatUnits, IndexOf, FooterBytes, LawfulZstd, DecodeChunkSpec, ToLE, FromLE;
    WrittenFooterStart(lib, bs, at);
    var part := buf[p..];
    if p + 4 <= |buf| {
      assert buf[p..p + 4] == part[..4] == ToLE(|bs|, 4);
      if bs == [] {
        NoCount(buf[p..p + 4]);
      } else if p + 4 < |buf| {
        assert buf[p + 4] == part[4] == 4;
        var n := ReadU32(buf, p);
        if n > 0 && p + 4 + n <= |buf| {
          assert buf[p + 4..p + 4 + n][0] == 4;
          if n >= 4 {
            assert buf[p + 4..p + 4 + n][..4][0] == 4;
          }
        }
      }
    }
  }

  lemma NoCount(b: seq<byte>)
    requires b == ToLE(0, 4)
    ensures FromLE(b) == 0
  {
    LE4(0);
  }

  lemma ChunksScanFirst(lib: Library, bs: seq<seq<Event>>, buf: seq<byte>, at: nat)
    requires Lawful(lib) && AllSealable(lib, bs) && HoldsChunks(lib, buf, bs, at)
    ensures var tail := ScanSpec(lib, buf, at, |buf|);
            ScanSpec(lib, buf, |HEAD_MAGIC|, |buf|) == tail.(events := Flatten(bs) + tail.events)
  {
    assert LawfulZstd(lib);
    hide Lawful, LawfulZstd, CatUnits, ScanSpec, Flatten, AllChunksFit, AllSealable, BatchesEncode;
    AllSealableFit(lib, bs);
    ScanWrittenChunks(lib, buf, |HEAD_MAGIC|, bs, |buf|);
  }

  /** The chunks are scanned first; the footer's first byte starts no chunk, so something is reported. */
  lemma ScanOfATornFooter(lib: Library, bs: seq<seq<Event>>, buf: seq<byte>, at: u64)
    requires Lawful(lib) && AllSealable(lib, bs) && HoldsChunks(lib, buf, bs, at) && at < |buf|
    requires buf[at..] <= FooterBytes(lib, at, IndexOf(lib, bs, |HEAD_MAGIC|))
    ensures var scan := ScanSpec(lib, buf, |HEAD_MAGIC|, |buf|);
            Flatten(bs) <= scan.events && scan.damage != []
  {
    assert LawfulZstd(lib);
    ChunksScanFirst(lib, bs, buf, at);
    FooterIsNoChunk(lib, bs, at, buf, at);
    hide *;
    TailIsReported(lib, buf, at);
    var events, tail := Flatten(bs), ScanSpec(lib, buf, at, |buf|);
    assert events <= events + tail.events;
  }

  lemma TailIsReported(lib: Library, buf: seq<byte>, at: nat)
    requires at < |buf| && TryChunk(lib, buf, at, |buf|, false).None?
    ensures ScanSpec(lib, buf, at, |buf|).damage != []
  {
    hide TryChunk, FindResync, ScanSpec;
    ScanResyncs(lib, buf, at, |buf|);
  }

  /** The chunks and the start of a footer, scanned: every event first, and a report unless there is nothing more. */
  lemma ScanOfTheShortFile(lib: Library, bs: seq<seq<Event>>, part: seq<byte>, c: Consumer, s: SinkState)
    requires Lawful(lib) && AllSealable(lib, bs) && |ChunkFile(lib, bs)| <= U64_MAX
    requires part <= FooterBytes(lib, |ChunkFile(lib, bs)|, IndexOf(lib, bs, |HEAD_MAGIC|))
    ensures var buf := ChunkFile(lib, bs) + part;
            var r := ScannedSpec(lib, buf, |buf|, c, s);
            && (exists more :: r.sink == PushAll(c, s, Flatten(bs) + more))
            && (r.problems == [] <==> part == [])
            && (part == [] ==> r == ReadState(PushAll(c, s, Flatten(bs)), []))
  {
    assert LawfulZstd(lib);
    hide Lawful, LawfulZstd, HoldsChunks, CatUnits, IndexOf, FooterBytes, ScanSpec, PushAll, Flatten, AllChunksFit,
         AllSealable, BatchesEncode, ChunkFile;
    AllSealableFit(lib, bs);
    var buf := ChunkFile(lib, bs) + part;
    ScannedChunksFirst(lib, bs, part);
    OthersFollow(c, s, Flatten(bs), ScanSpec(lib, buf, |HEAD_MAGIC|, |buf|).events);
  }

  lemma ScannedChunksFirst(lib: Library, bs: seq<seq<Event>>, part: seq<byte>)
    requires Lawful(lib) && AllSealable(lib, bs) && |ChunkFile(lib, bs)| <= U64_MAX
    requires part <= FooterBytes(lib, |ChunkFile(lib, bs)|, IndexOf(lib, bs, |HEAD_MAGIC|))
    ensures var buf := ChunkFile(lib, bs) + part;
            var scan := ScanSpec(lib, buf, |HEAD_MAGIC|, |buf|);
            && Flatten(bs) <= scan.events
            && if part == [] then scan == Scan(Flatten(bs), []) else scan.damage != []
  {
    assert LawfulZstd(lib);
    hide Lawful, LawfulZstd, HoldsChunks, IndexOf, FooterBytes, ScanSpec, Flatten, AllChunksFit, AllSealable,
         BatchesEncode, ChunkFile;
    AllSealableFit(lib, bs);
    AreaIsHeld(lib, bs, part);
    var at, buf := |ChunkFile(lib, bs)|, ChunkFile(lib, bs) + part;
    assert buf[at..] == part;
    ScanBehindTheChunks(lib, bs, buf, at);
  }

  lemma ScanBehindTheChunks(lib: Library, bs: seq<seq<Event>>, buf: seq<byte>, at: u64)
    requires Lawful(lib) && AllSealable(lib, bs) && HoldsChunks(lib, buf, bs, at)
    requires buf[at..] <= FooterBytes(lib, at, IndexOf(lib, bs, |HEAD_MAGIC|))
    ensures var scan := ScanSpec(lib, buf, |HEAD_MAGIC|, |buf|);
            && Flatten(bs) <= scan.events
            && if at == |buf| then scan == Scan(Flatten(bs), []) else scan.damage != []
  {
    assert at <= |buf|;
    if at == |buf| {
      hide *;
      ScanOfTheChunkArea(lib, buf, bs, at);
    } else {
      hide *;
      ScanOfATornFooter(lib, bs, buf, at);
    }
  }

  lemma OthersFollow(c: Consumer, s: SinkState, first: seq<Event>, all: seq<Event>)
    requires first <= all
    ensures exists more :: PushAll(c, s, all) == PushAll(c, s, first + more)
  {
    assert all == first + all[|first|..];
  }

  /** The same when more bytes follow behind the end of the scan. */
  lemma ScanIntoAFooter(lib: Library, bs: seq<seq<Event>>, buf: seq<byte>, end: nat, c: Consumer, s: SinkState)
    requires Lawful(lib) && AllSealable(lib, bs) && |ChunkFile(lib, bs)| <= U64_MAX
    requires |ChunkFile(lib, bs)| <= end <= |buf| && buf[..|ChunkFile(lib, bs)|] == ChunkFile(lib, bs)
    requires buf[|ChunkFile(lib, bs)|..end] <= FooterBytes(lib, |ChunkFile(lib, bs)|, IndexOf(lib, bs, |HEAD_MAGIC|))
    ensures var r := ScannedSpec(lib, buf, end, c, s);
            && (exists more :: r.sink == PushAll(c, s, Flatten(bs) + more))
            && (r.problems == [] <==> end == |ChunkFile(lib, bs)|)
            && (r.problems == [] ==> r == ReadState(PushAll(c, s, Flatten(bs)), []))
  {
    assert LawfulZstd(lib);
    hide Lawful, LawfulZstd, CatUnits, IndexOf, FooterBytes, ScannedSpec, PushAll, Flatten, ChunkFile, AllSealable;
    AllSealableFit(lib, bs);
    var part := buf[|ChunkFile(lib, bs)|..end];
    ScanOfTheShortFile(lib, bs, part, c, s);
    assert buf[..end] == ChunkFile(lib, bs) + part;
    ScannedIgnoresWhatFollows(lib, buf, end, c, s);
  }

  /** Every sealed event comes first, in order, and whatever the scan reaches of the footer is reported. The hypothesis
      is that no footer is accepted and none claims to start before the end of the chunks. */
  lemma TornFooterReadsBack(lib: Library, bs: seq<seq<Event>>, part: seq<byte>, c: Consumer, s: SinkState)
    requires Lawful(lib) && AllSealable(lib, bs) && |ChunkFile(lib, bs)| <= U64_MAX
    requires part <= FooterBytes(lib, |ChunkFile(lib, bs)|, IndexOf(lib, bs, |HEAD_MAGIC|))
    requires var buf := ChunkFile(lib, bs) + part;
             !ReadFooterSpec(lib, buf).Footer? && ScanEnd(lib, buf) >= |ChunkFile(lib, bs)|
    ensures var buf := ChunkFile(lib, bs) + part;
            var r := ReadChunkedSpec(lib, buf, c, s);
            && (exists more :: r.sink == PushAll(c, s, Flatten(bs) + more))
            && (r.problems == [] <==> ScanEnd(lib, buf) == |ChunkFile(lib, bs)|)
            && (r.problems == [] ==> r == ReadState(PushAll(c, s, Flatten(bs)), []))
  {
    assert LawfulZstd(lib);
    hide Lawful, LawfulZstd, IndexOf, FooterBytes, ScannedSpec, ReadFooterSpec, PushAll, Flatten, AllSealable, ScanEnd,
         ChunkFile;
    AllSealableFit(lib, bs);
    var at, buf := |ChunkFile(lib, bs)|, ChunkFile(lib, bs) + part;
    var end := ScanEnd(lib, buf);
    ReadsByScanning(lib, buf, c, s);
    assert buf[..at] == ChunkFile(lib, bs) && buf[at..end] == part[..end - at];
    ScanIntoAFooter(lib, bs, buf, end, c, s);
  }
}
