/** Writer and reader together: what any state of the writer reads back as, and a whole session. */
module Session {
  import opened Bytes
  import opened Events
  import opened Externals
  import opened Codec
  import opened Footer
  import opened Chunked
  import opened Filter
  import opened Delivery
  import opened Layout
  import opened Reader
  import opened ReadBack
  import opened TornFooter
  import W = Writer
  import S = SessionWriter

  /** Bytes on disk that are whole units and a prefix of the next are a cut of the kept batches' units. */
  lemma CutOfTheKept(lib: Library, chunked: bool, kept: seq<seq<Event>>, base: seq<byte>, bytes: seq<byte>,
      written: seq<W.Unit>, pending: seq<W.Unit>)
    requires LawfulZstd(lib) && AllSealable(lib, kept) && written + pending == S.UnitsOf(lib, chunked, kept)
    requires W.OnDisk(bytes, base, written, pending)
    ensures BatchesEncode(lib, kept) && |written| <= |kept|
    ensures var all := CatUnits(lib, chunked, kept);
            var k := |bytes| - |base|;
            var done := |CatUnits(lib, chunked, kept[..|written|])|;
            W.TotalBytes(written) == done && done <= k <= |all| && bytes == base + all[..k]
  {
    hide S.UnitsOf, W.TotalEvents, CatUnits, LawfulZstd, Frames, StatsOf, AllSealable;
    var n := |written|;
    S.UnitsSpellTheBatches(lib, chunked, kept);
    S.UnitsOfPrefix(lib, chunked, kept, n);
    assert S.UnitsOf(lib, chunked, kept)[..n] == written;
    PrefixSealable(lib, kept, n);
    S.UnitsSpellTheBatches(lib, chunked, kept[..n]);
    CatBytesAppend(written, pending);
    CutOfPending(bytes, base, written, pending);
  }

  lemma PrefixSealable(lib: Library, bs: seq<seq<Event>>, n: nat)
    requires AllSealable(lib, bs) && n <= |bs|
    ensures AllSealable(lib, bs[..n])
  {
  }

  /** In every reachable state, whatever the disk did, the file is the base followed by a cut of
      the kept batches' units, in sealing order; the cut is at or behind the cursor. */
  lemma FileIsACutOfTheKept(w: S.SessionWriter)
    requires w.Valid()
    ensures BatchesEncode(w.lib, S.Kept(w.fates))
    ensures var all := CatUnits(w.lib, w.kind.Chunked?, S.Kept(w.fates));
            var k := |w.out.file.bytes| - |w.out.base|;
            var done := |CatUnits(w.lib, w.kind.Chunked?, S.Kept(w.fates)[..|w.out.written|])|;
            && |w.out.written| <= |S.Kept(w.fates)|
            && w.out.cursor == |w.out.base| + done
            && done <= k <= |all| && w.out.file.bytes == w.out.base + all[..k]
  {
    hide W.Placed, W.OnDisk, W.TotalBytes, S.UnitsOf, S.Kept, S.LostEvents, S.SealedEvents, W.TotalEvents, CatUnits,
         Lawful, LawfulZstd, Frames, StatsOf, AllSealable;
    CutOfTheKept(w.lib, w.kind.Chunked?, S.Kept(w.fates), w.out.base, w.out.file.bytes, w.out.written, w.out.pending);
  }

  lemma {:induction false} CatBytesAppend(a: seq<W.Unit>, b: seq<W.Unit>)
    ensures W.CatBytes(a + b) == W.CatBytes(a) + W.CatBytes(b)
    decreases |b|
  {
    if b == [] {
      assert a + b == a && W.CatBytes(a) + [] == W.CatBytes(a);
    } else {
      var init, last := b[..|b| - 1], b[|b| - 1].bytes;
      CatBytesAppend(a, init);
      assert (a + b)[..|a + b| - 1] == a + init;
      assert (W.CatBytes(a) + W.CatBytes(init)) + last == W.CatBytes(a) + (W.CatBytes(init) + last);
    }
  }

  lemma FrontIsAPrefix(us: seq<W.Unit>)
    ensures W.FrontBytes(us) <= W.CatBytes(us)
  {
    if us != [] {
      CatBytesAppend([us[0]], us[1..]);
      assert us == [us[0]] + us[1..];
      assert [us[0]][..0] == [];
    }
  }

  lemma CutOfPending(bytes: seq<byte>, base: seq<byte>, written: seq<W.Unit>, pending: seq<W.Unit>)
    requires W.OnDisk(bytes, base, written, pending)
    ensures var k := |bytes| - |base|;
            var all := W.CatBytes(written) + W.CatBytes(pending);
            |W.CatBytes(written)| <= k <= |all| && bytes == base + all[..k]
  {
    hide W.CatBytes, W.FrontBytes, W.TotalBytes;
    FrontIsAPrefix(pending);
    var n := |base| + W.TotalBytes(written);
    var tail := bytes[n..];
    assert tail <= W.CatBytes(pending);
    assert bytes == bytes[..n] + tail;
    assert (W.CatBytes(written) + W.CatBytes(pending))[..|bytes| - |base|] == W.CatBytes(written) + tail;
  }

  /** Reading a chunk file that holds the written units and at most a prefix of the next. */
  lemma ChunkedCutReadsBack(lib: Library, kept: seq<seq<Event>>, bytes: seq<byte>, written: seq<W.Unit>,
      pending: seq<W.Unit>, c: Consumer, s: SinkState)
    requires Lawful(lib) && LawfulZstd(lib) && AllSealable(lib, kept) && written + pending == S.UnitsOf(lib, true, kept)
    requires W.OnDisk(bytes, HEAD_MAGIC, written, pending)
    requires !ReadFooterSpec(lib, bytes).Footer? && ScanEnd(lib, bytes) >= |HEAD_MAGIC| + W.TotalBytes(written)
    ensures |written| <= |kept|
    ensures var done := Flatten(kept[..|written|]);
            var r := ReadChunkedSpec(lib, bytes, c, s);
            && (exists more :: r.sink == PushAll(c, s, done + more))
            && (|bytes| == |HEAD_MAGIC| + W.TotalBytes(written) ==> r == ReadState(PushAll(c, s, done), []))
  {
    hide W.OnDisk, W.TotalBytes, S.UnitsOf, CatUnits, CompleteUnits, Lawful, LawfulZstd, Flatten, ReadChunkedSpec,
         ReadFooterSpec, PushAll, AllSealable, BatchesEncode;
    CutOfTheKept(lib, true, kept, HEAD_MAGIC, bytes, written, pending);
    ChunkFileCutReadsBack(lib, kept, |written|, bytes, c, s);
  }

  lemma ChunkFileCutReadsBack(lib: Library, kept: seq<seq<Event>>, m: nat, bytes: seq<byte>, c: Consumer, s: SinkState)
    requires Lawful(lib) && LawfulZstd(lib) && AllSealable(lib, kept) && BatchesEncode(lib, kept) && m <= |kept|
    requires var all := CatUnits(lib, true, kept);
             && |CatUnits(lib, true, kept[..m])| <= |bytes| - |HEAD_MAGIC| <= |all|
             && bytes == HEAD_MAGIC + all[..|bytes| - |HEAD_MAGIC|]
    requires !ReadFooterSpec(lib, bytes).Footer?
    requires ScanEnd(lib, bytes) >= |HEAD_MAGIC| + |CatUnits(lib, true, kept[..m])|
    ensures var done := Flatten(kept[..m]);
            var r := ReadChunkedSpec(lib, bytes, c, s);
            && (exists more :: r.sink == PushAll(c, s, done + more))
            && (|bytes| == |HEAD_MAGIC| + |CatUnits(lib, true, kept[..m])| ==> r == ReadState(PushAll(c, s, done), []))
  {
    hide CatUnits, CompleteUnits, Lawful, LawfulZstd, Flatten, ReadChunkedSpec, ReadFooterSpec, PushAll, AllSealable,
         BatchesEncode, ScanEnd;
    var k, end := |bytes|, ScanEnd(lib, bytes);
    assert ChunkFile(lib, kept)[..k] == bytes;
    CutChunkFileReadsBack(lib, kept, k, c, s);
    CompleteAtBoundary(lib, true, kept, m, end - |HEAD_MAGIC|);
    FromLaterBatches(kept, m, CompleteUnits(lib, true, kept, end - |HEAD_MAGIC|), c, s,
        ReadChunkedSpec(lib, bytes, c, s).sink);
  }

  /** What starts with the events of the first `n` batches starts with those of the first `m`. */
  lemma FromLaterBatches(bs: seq<seq<Event>>, m: nat, n: nat, c: Consumer, s: SinkState, sink: SinkState)
    requires m <= n <= |bs| && exists more :: sink == PushAll(c, s, Flatten(bs[..n]) + more)
    ensures exists more :: sink == PushAll(c, s, Flatten(bs[..m]) + more)
  {
    hide Flatten, PushAll;
    var more :| sink == PushAll(c, s, Flatten(bs[..n]) + more);
    assert bs[..n] == bs[..m] + bs[m..n];
    FlattenAppend(bs[..m], bs[m..n]);
    assert Flatten(bs[..n]) + more == Flatten(bs[..m]) + (Flatten(bs[m..n]) + more);
  }

  /** Reading a chunked session in any state of its writer: the events of every unit on disk come
      first, in acceptance order; with the stray tail cut they are all there is, and nothing is
      reported. The hypothesis fails only for bytes that happen to end like a footer: one the reader accepts,
      or one it refuses whose offset lies before the cursor. */
  lemma AnyChunkedStateReadsBack(w: S.SessionWriter, c: Consumer, s: SinkState)
    requires w.Valid() && w.kind.Chunked? && w.out.base == HEAD_MAGIC
    requires !ReadFooterSpec(w.lib, w.out.file.bytes).Footer? && ScanEnd(w.lib, w.out.file.bytes) >= w.out.cursor
    ensures var done := Flatten(S.Kept(w.fates)[..|w.out.written|]);
            var r := ReadChunkedSpec(w.lib, w.out.file.bytes, c, s);
            && |w.out.written| <= |S.Kept(w.fates)|
            && (exists more :: r.sink == PushAll(c, s, done + more))
            && (|w.out.file.bytes| == w.out.cursor ==> r == ReadState(PushAll(c, s, done), []))
  {
    hide W.Placed, W.OnDisk, W.TotalBytes, S.UnitsOf, S.Kept, S.LostEvents, S.SealedEvents, Lawful, LawfulZstd, Flatten,
         ReadChunkedSpec, ReadFooterSpec, PushAll, Frames, StatsOf, AllSealable;
    ChunkedCutReadsBack(w.lib, S.Kept(w.fates), w.out.file.bytes, w.out.written, w.out.pending, c, s);
  }

  lemma TornFooterFollowsTheChunks(lib: Library, kept: seq<seq<Event>>, bytes: seq<byte>, written: seq<W.Unit>)
    returns (part: seq<byte>)
    requires LawfulZstd(lib) && AllSealable(lib, kept) && written == S.UnitsOf(lib, true, kept)
    requires |HEAD_MAGIC| + W.TotalBytes(written) <= U64_MAX
    requires S.Appended(HEAD_MAGIC + W.CatBytes(written), bytes,
                        FooterBytes(lib, |HEAD_MAGIC| + W.TotalBytes(written), W.Placed(written, |HEAD_MAGIC|)), false)
    ensures BatchesEncode(lib, kept) && |ChunkFile(lib, kept)| == |HEAD_MAGIC| + W.TotalBytes(written)
    ensures bytes == ChunkFile(lib, kept) + part
            && part <= FooterBytes(lib, |ChunkFile(lib, kept)|, IndexOf(lib, kept, |HEAD_MAGIC|))
  {
    hide LawfulZstd, CatUnits, W.CatBytes, W.TotalBytes, W.Placed, S.UnitsOf, IndexOf, AllSealable, FooterBytes;
    S.UnitsSpellTheBatches(lib, true, kept);
    S.PlacedIsTheIndex(lib, kept, |HEAD_MAGIC|);
    var footer := FooterBytes(lib, |HEAD_MAGIC| + W.TotalBytes(written), W.Placed(written, |HEAD_MAGIC|));
    var k :| 0 <= k <= |footer| && bytes == HEAD_MAGIC + W.CatBytes(written) + footer[..k];
    part := footer[..k];
  }

  /** However `finalize` went, a chunk file without a recognizable footer gives every written event first, in order:
      all there is and no report when the scan ends with the units; a torn footer it reaches is reported. */
  lemma AfterFinalizeReadsBack(lib: Library, kept: seq<seq<Event>>, bytes: seq<byte>, written: seq<W.Unit>,
      pending: seq<W.Unit>, c: Consumer, s: SinkState)
    requires Lawful(lib) && LawfulZstd(lib) && AllSealable(lib, kept) && written + pending == S.UnitsOf(lib, true, kept)
    requires S.Unfinished(lib, bytes, HEAD_MAGIC, written, pending)
    requires !ReadFooterSpec(lib, bytes).Footer? && ScanEnd(lib, bytes) >= |HEAD_MAGIC| + W.TotalBytes(written)
    ensures |written| <= |kept|
    ensures var done := Flatten(kept[..|written|]);
            var r := ReadChunkedSpec(lib, bytes, c, s);
            && (exists more :: r.sink == PushAll(c, s, done + more))
            && (|bytes| == |HEAD_MAGIC| + W.TotalBytes(written) ==> r == ReadState(PushAll(c, s, done), []))
            && (ScanEnd(lib, bytes) > |HEAD_MAGIC| + W.TotalBytes(written) && pending == [] ==> r.problems != [])
            && (ScanEnd(lib, bytes) == |HEAD_MAGIC| + W.TotalBytes(written) && pending == [] ==>
                  r == ReadState(PushAll(c, s, done), []))
  {
    hide Lawful, LawfulZstd, W.CatBytes, W.TotalBytes, W.Placed, W.OnDisk, S.UnitsOf, S.Appended, AllSealable,
         FooterBytes, Flatten, ReadChunkedSpec, ReadFooterSpec, PushAll;
    if W.OnDisk(bytes, HEAD_MAGIC, written, pending) {
      ChunkedCutReadsBack(lib, kept, bytes, written, pending, c, s);
      if pending == [] {
        W.NothingPendingNothingStray(bytes, HEAD_MAGIC, written);
        S.CursorIsTheEnd(HEAD_MAGIC, written);
      }
    } else {
      assert written + [] == written;
      UnitCount(lib, kept);
      assert kept[..|written|] == kept;
      AfterATornFooter(lib, kept, bytes, written, c, s);
    }
  }

  lemma AfterATornFooter(lib: Library, kept: seq<seq<Event>>, bytes: seq<byte>, written: seq<W.Unit>, c: Consumer,
      s: SinkState)
    requires Lawful(lib) && LawfulZstd(lib) && AllSealable(lib, kept) && written == S.UnitsOf(lib, true, kept)
    requires |HEAD_MAGIC| + W.TotalBytes(written) <= U64_MAX
    requires S.Appended(HEAD_MAGIC + W.CatBytes(written), bytes,
                        FooterBytes(lib, |HEAD_MAGIC| + W.TotalBytes(written), W.Placed(written, |HEAD_MAGIC|)), false)
    requires !ReadFooterSpec(lib, bytes).Footer? && ScanEnd(lib, bytes) >= |HEAD_MAGIC| + W.TotalBytes(written)
    ensures var r := ReadChunkedSpec(lib, bytes, c, s);
            && (exists more :: r.sink == PushAll(c, s, Flatten(kept) + more))
            && (ScanEnd(lib, bytes) == |HEAD_MAGIC| + W.TotalBytes(written) ==>
                 r == ReadState(PushAll(c, s, Flatten(kept)), []))
            && (ScanEnd(lib, bytes) > |HEAD_MAGIC| + W.TotalBytes(written) ==> r.problems != [])
  {
    hide Lawful, LawfulZstd, W.CatBytes, W.TotalBytes, W.Placed, S.UnitsOf, S.Appended, IndexOf, AllSealable,
         FooterBytes, Flatten, ReadChunkedSpec, ReadFooterSpec, PushAll, ChunkFile, BatchesEncode;
    var part := TornFooterFollowsTheChunks(lib, kept, bytes, written);
    TornFooterReadsBack(lib, kept, part, c, s);
  }

  lemma UnitCount(lib: Library, kept: seq<seq<Event>>)
    requires LawfulZstd(lib) && AllSealable(lib, kept)
    ensures |S.UnitsOf(lib, true, kept)| == |kept|
  {
  }

  /** The same for a legacy session, whatever whole frames the file already held when it was opened: they come first. */
  lemma AnyLegacyStateReadsBack(w: S.SessionWriter, earlier: seq<seq<Event>>, c: Consumer, s: SinkState)
    requires w.Valid() && w.kind.Legacy? && BatchesEncode(w.lib, earlier)
             && w.out.base == CatUnits(w.lib, false, earlier)
    ensures var done := Flatten(earlier + S.Kept(w.fates)[..|w.out.written|]);
            var r := ReadLegacySpec(w.lib, w.out.file.bytes, 0, c, ReadState(s, []));
            && |w.out.written| <= |S.Kept(w.fates)|
            && (exists more :: r.sink == PushAll(c, s, done + more))
            && (|w.out.file.bytes| == w.out.cursor ==> r == ReadState(PushAll(c, s, done), []))
  {
    hide W.Placed, W.OnDisk, S.UnitsOf, S.Kept, S.LostEvents, S.SealedEvents, CatUnits, CompleteUnits, Lawful,
         LawfulZstd, Flatten, ReadLegacySpec, PushAll, Frames, StatsOf, AllSealable;
    var kept := S.Kept(w.fates);
    FileIsACutOfTheKept(w);
    LegacyCutReadsBack(w.lib, earlier, kept, |w.out.written|, w.out.file.bytes, c, s);
  }

  lemma LegacyCutReadsBack(lib: Library, earlier: seq<seq<Event>>, kept: seq<seq<Event>>, m: nat, bytes: seq<byte>,
      c: Consumer, s: SinkState)
    requires Lawful(lib) && LawfulZstd(lib) && BatchesEncode(lib, earlier) && BatchesEncode(lib, kept) && m <= |kept|
    requires var base, all := CatUnits(lib, false, earlier), CatUnits(lib, false, kept);
             && |CatUnits(lib, false, kept[..m])| <= |bytes| - |base| <= |all|
             && bytes == base + all[..|bytes| - |base|]
    ensures var base, done := CatUnits(lib, false, earlier), Flatten(earlier + kept[..m]);
            var r := ReadLegacySpec(lib, bytes, 0, c, ReadState(s, []));
            && (exists more :: r.sink == PushAll(c, s, done + more))
            && (|bytes| == |base| + |CatUnits(lib, false, kept[..m])| ==> r == ReadState(PushAll(c, s, done), []))
  {
    hide CatUnits, CompleteUnits, Lawful, LawfulZstd, Flatten, ReadLegacySpec, PushAll;
    var both, mm := earlier + kept, |earlier| + m;
    assert both[..mm] == earlier + kept[..m];
    LegacyUnitsAppend(lib, earlier, kept);
    LegacyUnitsAppend(lib, earlier, kept[..m]);
    assert (CatUnits(lib, false, earlier) + CatUnits(lib, false, kept))[..|bytes|] == bytes;
    LegacyFileCutReadsBack(lib, both, mm, |bytes|, c, s);
  }

  lemma LegacyUnitsAppend(lib: Library, a: seq<seq<Event>>, b: seq<seq<Event>>)
    requires BatchesEncode(lib, a) && BatchesEncode(lib, b)
    ensures BatchesEncode(lib, a + b)
    ensures CatUnits(lib, false, a + b) == CatUnits(lib, false, a) + CatUnits(lib, false, b)
  {
    hide CatUnits, Frames;
    assert (a + b)[..|a|] == a && (a + b)[|a|..] == b;
    CatUnitsSplits(lib, false, a + b, |a|);
  }

  lemma LegacyFileCutReadsBack(lib: Library, bs: seq<seq<Event>>, m: nat, k: nat, c: Consumer, s: SinkState)
    requires Lawful(lib) && LawfulZstd(lib) && BatchesEncode(lib, bs) && m <= |bs|
    requires |CatUnits(lib, false, bs[..m])| <= k <= |CatUnits(lib, false, bs)|
    ensures var r := ReadLegacySpec(lib, CatUnits(lib, false, bs)[..k], 0, c, ReadState(s, []));
            && (exists more :: r.sink == PushAll(c, s, Flatten(bs[..m]) + more))
            && (k == |CatUnits(lib, false, bs[..m])| ==> r == ReadState(PushAll(c, s, Flatten(bs[..m])), []))
  {
    hide CatUnits, CompleteUnits, Lawful, LawfulZstd, Flatten, ReadLegacySpec, PushAll, BatchesEncode;
    CutLegacyFileReadsBack(lib, bs, k, c, s);
    CompleteAtBoundary(lib, false, bs, m, k);
    FromLaterBatches(bs, m, CompleteUnits(lib, false, bs, k), c, s,
        ReadLegacySpec(lib, CatUnits(lib, false, bs)[..k], 0, c, ReadState(s, [])).sink);
  }

  // ----- a whole session -----

  lemma SealedBytes(lib: Library, bs: seq<seq<Event>>)
    requires LawfulZstd(lib) && AllSealable(lib, bs)
    requires |HEAD_MAGIC| + W.TotalBytes(S.UnitsOf(lib, true, bs)) <= U64_MAX
    ensures var us := S.UnitsOf(lib, true, bs);
            var at := |HEAD_MAGIC| + W.TotalBytes(us);
            && BatchesEncode(lib, bs) && at == |ChunkFile(lib, bs)|
            && HEAD_MAGIC + W.CatBytes(us) + FooterBytes(lib, at, W.Placed(us, |HEAD_MAGIC|)) == SealedFile(lib, bs)
  {
    hide LawfulZstd, CatUnits, W.CatBytes, W.TotalBytes, W.Placed, S.UnitsOf, IndexOf, AllSealable, FooterBytes;
    S.UnitsSpellTheBatches(lib, true, bs);
    S.PlacedIsTheIndex(lib, bs, |HEAD_MAGIC|);
  }

  lemma SealedFileIsChunked(lib: Library, bs: seq<seq<Event>>)
    requires LawfulZstd(lib) && AllSealable(lib, bs) && |ChunkFile(lib, bs)| <= U64_MAX
    ensures DetectFormat(SealedFile(lib, bs)) == Format.Chunked
  {
    hide LawfulZstd, CatUnits, IndexOf, FooterBytes, AllSealable;
    var f := SealedFile(lib, bs);
    assert f[..4] == HEAD_MAGIC;
    assert f[..3] == f[..4][..3] && f[3] == f[..4][3];
  }

  lemma FramesAreLegacy(lib: Library, bs: seq<seq<Event>>)
    requires LawfulZstd(lib) && BatchesEncode(lib, bs)
    ensures DetectFormat(CatUnits(lib, false, bs)) == Format.Legacy
  {
    if bs != [] {
      var f, all := UnitBytes(lib, false, bs[0]), CatUnits(lib, false, bs);
      assert FrameHasChecksum(f);
      assert all[0] == f[..4][0] && all[..3][0] == all[0];
      assert HEAD_MAGIC[..3][0] == 0x53;
    }
  }

  /** A finalized session reads back as the sealed batches, whatever the format, filter and callback. */
  lemma FinishedFileReadsBack(lib: Library, kind: S.Kind, bs: seq<seq<Event>>, bytes: seq<byte>, c: Consumer)
    requires Lawful(lib) && LawfulZstd(lib) && AllSealable(lib, bs)
    requires var base := if kind.Chunked? then HEAD_MAGIC else [];
             var us := S.UnitsOf(lib, kind.Chunked?, bs);
             && |base| + W.TotalBytes(us) <= U64_MAX
             && bytes == base + W.CatBytes(us)
                + if kind.Chunked? then FooterBytes(lib, |base| + W.TotalBytes(us), W.Placed(us, |base|)) else []
    ensures var t := PushAll(c, FRESH_SINK, Flatten(bs));
            var meta := Metadata(Some(|Flatten(bs)|), None);
            var r := ForEachSpec(lib, true, bytes, Some(meta), c);
            r.Read? && r.problems == [] && SameDelivery(r.sink, t)
  {
    hide Lawful, LawfulZstd, CatUnits, W.CatBytes, W.TotalBytes, W.Placed, S.UnitsOf, IndexOf, AllSealable, FooterBytes,
         ReadChunkedSpec, ReadLegacySpec, PushAll, Flatten, SealedFile, CompleteUnits, ChunkFile;
    PushAllDeliversAPrefix(c, FRESH_SINK, Flatten(bs));
    if kind.Chunked? {
      SealedBytes(lib, bs);
      SealedFileIsChunked(lib, bs);
      SealedFileReadsBack(lib, bs, c, FRESH_SINK);
    } else {
      S.UnitsSpellTheBatches(lib, false, bs);
      var all := CatUnits(lib, false, bs);
      assert bytes == [] + all + [] == all && all[..|all|] == all && bs[..|bs|] == bs;
      FramesAreLegacy(lib, bs);
      CompleteAtBoundary(lib, false, bs, |bs|, |all|);
      CutLegacyFileReadsBack(lib, bs, |all|, c, FRESH_SINK);
    }
  }

  /** Offer every event to the writer, stopping at the first that is not accepted. */
  method WriteAll(w: S.SessionWriter, evs: seq<Event>) returns (ok: bool)
    requires w.Valid() && w.log == [] && w.fates == []
    modifies w, w.batch, w.out, w.out.file
    ensures w.Valid() && (w.batch == old(w.batch) || fresh(w.batch))
    ensures w.out.file.reliable && S.Works(w.encoder) && S.HasRoom(w.lib, |w.out.base|, evs) ==> ok
    ensures ok ==> w.log == evs && (forall j :: 0 <= j < |w.fates| ==> w.fates[j].kept) && AllEncodable(w.lib, evs)
  {
    hide Lawful, LawfulZstd, W.CatBytes, W.TotalBytes, W.TotalEvents, W.Placed, S.UnitsOf, S.Kept, S.SealedEvents,
         S.LostEvents, W.OnDisk, Frames, StatsOf, S.BatchLimit, S.HasRoom;
    ok := true;
    for i := 0 to |evs|
      invariant w.Valid() && (w.batch == old(w.batch) || fresh(w.batch))
      invariant w.log == evs[..i] && forall j :: 0 <= j < |w.fates| ==> w.fates[j].kept
      invariant AllEncodable(w.lib, evs[..i])
    {
      if S.HasRoom(w.lib, |w.out.base|, evs) {
        RoomForPrefix(w.lib, |w.out.base|, evs, i + 1);
      }
      assert evs[..i + 1] == evs[..i] + [evs[i]];
      var accepted := w.WriteEvent(evs[i]);
      if !accepted.Accepted? {
        return false;
      }
    }
    assert evs[..|evs|] == evs;
  }

  lemma RoomForPrefix(lib: Library, base: nat, evs: seq<Event>, n: nat)
    requires S.HasRoom(lib, base, evs) && n <= |evs|
    ensures S.HasRoom(lib, base, evs[..n])
  {
    hide Frames;
    assert evs == evs[..n] + evs[n..];
    S.SplitEncodable(lib, evs[..n], evs[n..]);
    S.SizeBoundAdds(lib, evs[..n], evs[n..]);
  }

  /** A new session file: empty, or behind the head magic. */
  method NewFile(chunked: bool, reliable: bool) returns (ok: bool, file: W.EventFile)
    ensures fresh(file) && file.reliable == reliable && (ok ==> file.bytes == Head(chunked))
    ensures reliable ==> ok
  {
    ok := true;
    file := new W.EventFile([], reliable);
    if chunked {
      ok := S.AppendTo(file, HEAD_MAGIC);
      if ok {
        S.WholeAppend([], file.bytes, HEAD_MAGIC);
      }
    }
  }

  function Head(chunked: bool): (r: seq<byte>) { if chunked then HEAD_MAGIC else [] }

  /** Record a session and read it back. When nothing was refused, the reader hands over exactly
      the recorded events - through any filter, up to any stop - and reports nothing. On a reliable
      disk with a working encoder nothing is refused, whatever the events and the chunk settings,
      as long as the session fits 64-bit positions. */
  method RecordAndRead(lib: Library, kind: S.Kind, evs: seq<Event>, c: Consumer, reliable: bool,
      encoder: nat -> S.EncoderAnswer)
    returns (complete: bool, r: ReadOutcome)
    requires Lawful(lib)
    ensures reliable && S.Works(encoder) && S.HasRoom(lib, |Head(kind.Chunked?)|, evs) ==> complete
    ensures complete ==> r.Read? && r.problems == [] && SameDelivery(r.sink, PushAll(c, FRESH_SINK, evs))
    ensures complete && (forall h :: !c.breaks(h)) ==> r.sink.out == FilterSeq(c.filter, evs)
    ensures complete ==> AllEncodable(lib, evs)
  {
    hide Lawful, LawfulZstd, W.CatBytes, W.TotalBytes, W.TotalEvents, W.Placed, S.UnitsOf, S.Kept, S.SealedEvents,
         S.LostEvents, FooterBytes, ForEachSpec, PushAll, Flatten, W.OnDisk, Frames, StatsOf, S.BatchLimit, FilterSeq,
         S.HasRoom;
    complete := false;
    r := Failed(NewerFormat(0));
    var created, file := NewFile(kind.Chunked?, reliable);
    if !created {
      return;
    }
    var w := new S.SessionWriter(lib, kind, file, W.MAX_PENDING_BYTES, encoder);
    var all := WriteAll(w, evs);
    if !all {
      return;
    }
    var meta;
    complete, meta := w.Finalize();
    if !complete {
      return;
    }
    ghost var kept := S.Kept(w.fates);
    S.NothingLostKeepsEverything(w.fates);
    S.NoEvents();
    assert S.SealedEvents(w.fates) + [] == S.SealedEvents(w.fates);
    assert w.out.written + [] == w.out.written;
    FinishedFileReadsBack(lib, kind, kept, file.bytes, c);
    r := ForEachEvent(lib, true, file.bytes, Some(meta), c);
    if forall h :: !c.breaks(h) {
      PushAllDeliversMatches(c, FRESH_SINK, evs);
      assert [] + FilterSeq(c.filter, evs) == FilterSeq(c.filter, evs);
    }
  }
}
