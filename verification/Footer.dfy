/** The chunk index written behind a sealed chunked file, and its validation. */
module Footer {
  import opened Bytes
  import opened Events
  import opened Externals

  const HEAD_MAGIC: seq<byte> := [0x53, 0x4D, 0x7A, 0x01]
  const FOOTER_MAGIC: u64 := 0x534D_7A46_4F4F_5400
  const ENTRY_SIZE: nat := 40
  const TRAILER_SIZE: nat := 20
  const MIN_VALID_FILE_LEN: nat := 28

  datatype ChunkIndexEntry = ChunkIndexEntry(
    offset: u64, compLen: u32, minTs: u64, maxTs: u64, sourceBitmap: u64, eventCount: u32)

  function EntryBytes(e: ChunkIndexEntry): (b: seq<byte>)
    ensures |b| == ENTRY_SIZE
  {
    ToLE(e.offset, 8) + ToLE(e.compLen, 4) + ToLE(e.minTs, 8) + ToLE(e.maxTs, 8)
    + ToLE(e.sourceBitmap, 8) + ToLE(e.eventCount, 4)
  }

  function EntriesBytes(es: seq<ChunkIndexEntry>): (b: seq<byte>)
    ensures |b| == ENTRY_SIZE * |es|
  {
    if es == [] then [] else EntriesBytes(es[..|es| - 1]) + EntryBytes(es[|es| - 1])
  }

  /** The count is cast to 32 bits before it is written. */
  function BodyBytes(es: seq<ChunkIndexEntry>): (b: seq<byte>)
    ensures |b| == 4 + ENTRY_SIZE * |es|
  {
    ToLE(|es|, 4) + EntriesBytes(es)
  }

  function Trailer(offset: u64, crc: u32): (b: seq<byte>)
    ensures |b| == TRAILER_SIZE
  {
    ToLE(offset, 8) + ToLE(crc, 4) + ToLE(FOOTER_MAGIC, 8)
  }

  function FooterBytes(lib: Library, offset: u64, es: seq<ChunkIndexEntry>): (r: seq<byte>)
  {
    BodyBytes(es) + Trailer(offset, lib.crc32(BodyBytes(es)))
  }

  /** The body as the writer builds it, entry by entry. */
  method BuildBody(es: seq<ChunkIndexEntry>) returns (body: seq<byte>)
    ensures body == BodyBytes(es)
  {
    hide ToLE;
    body := ToLE(|es|, 4);
    for i := 0 to |es|
      invariant body == ToLE(|es|, 4) + EntriesBytes(es[..i])
    {
      assert es[..i + 1][..i] == es[..i];
      body := body + ToLE(es[i].offset, 8);
      body := body + ToLE(es[i].compLen, 4);
      body := body + ToLE(es[i].minTs, 8);
      body := body + ToLE(es[i].maxTs, 8);
      body := body + ToLE(es[i].sourceBitmap, 8);
      body := body + ToLE(es[i].eventCount, 4);
    }
    assert es[..|es|] == es;
  }

  function ReadU64(b: seq<byte>, at: nat): (n: u64)
    requires at + 8 <= |b|
  {
    FromLE8Bound(b[at..at + 8]);
    FromLE(b[at..at + 8])
  }

  function ReadU32(b: seq<byte>, at: nat): (n: u32)
    requires at + 4 <= |b|
  {
    FromLE4Bound(b[at..at + 4]);
    FromLE(b[at..at + 4])
  }

  function ReadEntry(s: seq<byte>): (r: ChunkIndexEntry)
    requires |s| == ENTRY_SIZE
  {
    ChunkIndexEntry(ReadU64(s, 0), ReadU32(s, 8), ReadU64(s, 12), ReadU64(s, 20), ReadU64(s, 28), ReadU32(s, 36))
  }

  function ReadEntries(b: seq<byte>, n: nat): (es: seq<ChunkIndexEntry>)
    requires |b| >= ENTRY_SIZE * n
    ensures |es| == n
  {
    if n == 0 then []
    else ReadEntries(b, n - 1) + [ReadEntry(b[ENTRY_SIZE * (n - 1)..ENTRY_SIZE * n])]
  }

  datatype FooterResult = NoFooter | FooterCorrupt | Footer(entries: seq<ChunkIndexEntry>, offset: u64)

  function ReadFooterSpec(lib: Library, buf: seq<byte>): (r: FooterResult)
  {
    if |buf| < MIN_VALID_FILE_LEN then NoFooter
    else
      var trailerStart := |buf| - TRAILER_SIZE;
      var offset := ReadU64(buf, trailerStart);
      var crc := ReadU32(buf, trailerStart + 8);
      if ReadU64(buf, trailerStart + 12) != FOOTER_MAGIC then NoFooter
      else if offset < |HEAD_MAGIC| || offset >= trailerStart then FooterCorrupt
      else if trailerStart - offset < 4 then FooterCorrupt
      else
        var count := ReadU32(buf, offset);
        if 4 + count * ENTRY_SIZE != trailerStart - offset then FooterCorrupt
        else if lib.crc32(buf[offset..trailerStart]) != crc then FooterCorrupt
        else Footer(ReadEntries(buf[offset + 4..trailerStart], count), offset)
  }

  /** The reader's own order: trailer, range, size equation, checksum, entries. */
  method ReadFooter(lib: Library, buf: seq<byte>) returns (r: FooterResult)
    ensures r == ReadFooterSpec(lib, buf)
  {
    hide FromLE, ReadEntry;
    if |buf| < MIN_VALID_FILE_LEN {
      return NoFooter;
    }
    var trailerStart := |buf| - TRAILER_SIZE;
    var offset, crc, magic := ReadU64(buf, trailerStart), ReadU32(buf, trailerStart + 8),
        ReadU64(buf, trailerStart + 12);
    if magic != FOOTER_MAGIC {
      return NoFooter;
    }
    if offset < |HEAD_MAGIC| || offset >= trailerStart {
      return FooterCorrupt;
    }
    var bodyLen := trailerStart - offset;
    if bodyLen < 4 {
      return FooterCorrupt;
    }
    var count := ReadU32(buf, offset);
    if 4 + count * ENTRY_SIZE != bodyLen {
      return FooterCorrupt;
    }
    var body := buf[offset..trailerStart];
    if lib.crc32(body) != crc {
      return FooterCorrupt;
    }
    ghost var area := buf[offset + 4..trailerStart];
    assert area == body[4..];
    var entries, p := [], 4;
    for i := 0 to count
      invariant p == 4 + ENTRY_SIZE * i
      invariant entries == ReadEntries(area, i)
    {
      assert ENTRY_SIZE * (i + 1) <= |area|;
      assert body[p..p + ENTRY_SIZE] == area[ENTRY_SIZE * i..ENTRY_SIZE * (i + 1)];
      entries := entries + [ReadEntry(body[p..p + ENTRY_SIZE])];
      p := p + ENTRY_SIZE;
    }
    return Footer(entries, offset);
  }

  /** The offset field of a trailer with the right magic, unless it points into the magic, the trailer or beyond. */
  function ClaimedFooterOffset(buf: seq<byte>): (r: Option<nat>)
    ensures r.Some? ==> |HEAD_MAGIC| <= r.value < |buf|
  {
    if |buf| < TRAILER_SIZE then None
    else
      var trailerStart := |buf| - TRAILER_SIZE;
      if ReadU64(buf, trailerStart + 12) != FOOTER_MAGIC then None
      else
        var off := ReadU64(buf, trailerStart);
        if |HEAD_MAGIC| <= off < trailerStart then Some(off) else None
  }

  // ----- round trip -----

  lemma ReadBackU32(pre: seq<byte>, n: u32, post: seq<byte>)
    ensures ReadU32(pre + ToLE(n, 4) + post, |pre|) == n
  {
    var b := pre + ToLE(n, 4) + post;
    assert b[|pre|..|pre| + 4] == ToLE(n, 4);
    LE4(n);
  }

  lemma ReadEntryOfBytes(e: ChunkIndexEntry)
    ensures ReadEntry(EntryBytes(e)) == e
  {
    var s := EntryBytes(e);
    assert s[0..8] == ToLE(e.offset, 8);
    assert s[8..12] == ToLE(e.compLen, 4);
    assert s[12..20] == ToLE(e.minTs, 8);
    assert s[20..28] == ToLE(e.maxTs, 8);
    assert s[28..36] == ToLE(e.sourceBitmap, 8);
    assert s[36..40] == ToLE(e.eventCount, 4);
    LE8(e.offset); LE4(e.compLen); LE8(e.minTs); LE8(e.maxTs); LE8(e.sourceBitmap); LE4(e.eventCount);
  }

  lemma {:induction false} ReadEntriesOfBytes(es: seq<ChunkIndexEntry>, post: seq<byte>)
    ensures ReadEntries(EntriesBytes(es) + post, |es|) == es
  {
    if es != [] {
      var n := |es|;
      var init, last := es[..n - 1], EntryBytes(es[n - 1]);
      hide EntryBytes, ReadEntry;
      ReadEntriesOfBytes(init, last + post);
      assert EntriesBytes(es) + post == EntriesBytes(init) + (last + post);
      assert (EntriesBytes(es) + post)[ENTRY_SIZE * (n - 1)..ENTRY_SIZE * n] == last;
      ReadEntryOfBytes(es[n - 1]);
    }
  }

  lemma {:induction false} LEInverse(b: seq<byte>)
    ensures ToLE(FromLE(b), |b|) == b
  {
    if b != [] {
      LEInverse(b[1..]);
      assert FromLE(b) % 0x100 == b[0] && FromLE(b) / 0x100 == FromLE(b[1..]);
    }
  }

  lemma BytesOfReadEntry(s: seq<byte>)
    requires |s| == ENTRY_SIZE
    ensures EntryBytes(ReadEntry(s)) == s
  {
    LEInverse(s[0..8]); LEInverse(s[8..12]); LEInverse(s[12..20]);
    LEInverse(s[20..28]); LEInverse(s[28..36]); LEInverse(s[36..40]);
    assert s == s[0..8] + s[8..12] + s[12..20] + s[20..28] + s[28..36] + s[36..40];
  }

  lemma {:induction false} BytesOfReadEntries(b: seq<byte>, n: nat)
    requires |b| >= ENTRY_SIZE * n
    ensures EntriesBytes(ReadEntries(b, n)) == b[..ENTRY_SIZE * n]
  {
    hide EntryBytes, ReadEntry;
    if n != 0 {
      BytesOfReadEntries(b, n - 1);
      var es := ReadEntries(b, n);
      assert es[..n - 1] == ReadEntries(b, n - 1);
      BytesOfReadEntry(b[ENTRY_SIZE * (n - 1)..ENTRY_SIZE * n]);
      assert b[..ENTRY_SIZE * n] == b[..ENTRY_SIZE * (n - 1)] + b[ENTRY_SIZE * (n - 1)..ENTRY_SIZE * n];
    }
  }

  /** The trailer of a file that ends in a trailer, whatever comes before. */
  lemma TrailerReadsBack(pre: seq<byte>, offset: u64, crc: u32)
    ensures var buf := pre + Trailer(offset, crc);
            && ReadU64(buf, |pre|) == offset && ReadU32(buf, |pre| + 8) == crc
            && ReadU64(buf, |pre| + 12) == FOOTER_MAGIC
  {
    TrailerFields(offset, crc);
    SliceBehind(pre, Trailer(offset, crc), 0, 8);
    SliceBehind(pre, Trailer(offset, crc), 8, 12);
    SliceBehind(pre, Trailer(offset, crc), 12, 20);
    hide Trailer, FromLE;
  }

  lemma SliceBehind(pre: seq<byte>, t: seq<byte>, lo: nat, hi: nat)
    requires lo <= hi <= |t|
    ensures (pre + t)[|pre| + lo..|pre| + hi] == t[lo..hi]
  {
  }

  lemma TrailerFields(offset: u64, crc: u32)
    ensures var t := Trailer(offset, crc);
            FromLE(t[0..8]) == offset && FromLE(t[8..12]) == crc && FromLE(t[12..20]) == FOOTER_MAGIC
  {
    LE8(offset); LE4(crc); LE8(FOOTER_MAGIC);
    hide ToLE, FromLE;
    var t := Trailer(offset, crc);
    assert t[0..8] == ToLE(offset, 8) && t[8..12] == ToLE(crc, 4) && t[12..20] == ToLE(FOOTER_MAGIC, 8);
  }

  /** What the reader makes of any body between a prefix and a trailer naming it. */
  function JudgeBody(lib: Library, offset: u64, body: seq<byte>, crc: u32): (r: FooterResult)
  {
    if |body| < 4 then FooterCorrupt
    else
      var count := ReadU32(body, 0);
      if 4 + count * ENTRY_SIZE != |body| || lib.crc32(body) != crc then FooterCorrupt
      else Footer(ReadEntries(body[4..], count), offset)
  }

  /** The reader is the range checks on the trailer, then the judgement on the body it names. */
  lemma ReadFooterJudgesBody(lib: Library, buf: seq<byte>)
    requires |buf| >= MIN_VALID_FILE_LEN
    ensures var ts := |buf| - TRAILER_SIZE;
            var offset := ReadU64(buf, ts);
            ReadFooterSpec(lib, buf) ==
            if ReadU64(buf, ts + 12) != FOOTER_MAGIC then NoFooter
            else if |HEAD_MAGIC| <= offset < ts then JudgeBody(lib, offset, buf[offset..ts], ReadU32(buf, ts + 8))
            else FooterCorrupt
  {
    hide FromLE, ReadEntries;
    var ts := |buf| - TRAILER_SIZE;
    var offset := ReadU64(buf, ts);
    if |HEAD_MAGIC| <= offset && offset + 4 <= ts {
      var body := buf[offset..ts];
      assert buf[offset..offset + 4] == body[0..4];
      assert buf[offset + 4..ts] == body[4..];
    }
  }

  /** A footer reads back as written exactly when its entry count fits 32 bits: the
      writer casts the count, and the reader's size equation then refuses the file. */
  lemma FooterRoundTrip(lib: Library, pre: seq<byte>, es: seq<ChunkIndexEntry>)
    requires |HEAD_MAGIC| <= |pre| <= U64_MAX
    ensures ReadFooterSpec(lib, pre + FooterBytes(lib, |pre|, es)) ==
            if |es| < 0x1_0000_0000 then Footer(es, |pre|) else FooterCorrupt
  {
    hide ReadFooterSpec, BodyBytes, Trailer, JudgeBody, ReadU64, ReadU32;
    var body := BodyBytes(es);
    var crc := lib.crc32(body);
    var buf := pre + FooterBytes(lib, |pre|, es);
    assert buf == (pre + body) + Trailer(|pre|, crc);
    TrailerReadsBack(pre + body, |pre|, crc);
    ReadFooterJudgesBody(lib, buf);
    assert buf[|pre|..|pre| + |body|] == body;
    JudgeWrittenBody(lib, |pre|, es);
  }

  lemma JudgeWrittenBody(lib: Library, offset: u64, es: seq<ChunkIndexEntry>)
    ensures JudgeBody(lib, offset, BodyBytes(es), lib.crc32(BodyBytes(es))) ==
            if |es| < 0x1_0000_0000 then Footer(es, offset) else FooterCorrupt
  {
    hide ToLE, FromLE;
    var body := BodyBytes(es);
    assert body[0..4] == ToLE(|es|, 4);
    LE4(|es|);
    if |es| < 0x1_0000_0000 {
      assert body[4..] == EntriesBytes(es) + [];
      ReadEntriesOfBytes(es, []);
    }
  }

  /** An accepted body is the writer's body for the accepted entries. */
  lemma JudgedBodyIsWritten(lib: Library, offset: u64, body: seq<byte>, crc: u32)
    requires JudgeBody(lib, offset, body, crc).Footer?
    ensures var es := JudgeBody(lib, offset, body, crc).entries;
            |es| < 0x1_0000_0000 && body == BodyBytes(es) && crc == lib.crc32(BodyBytes(es))
  {
    var es := JudgeBody(lib, offset, body, crc).entries;
    BytesOfReadEntries(body[4..], |es|);
    assert body[4..][..ENTRY_SIZE * |es|] == body[4..];
    LEInverse(body[0..4]);
    assert body == body[0..4] + body[4..];
  }

  /** The reader accepts exactly what the writer can write. */
  lemma AcceptedFootersAreWrittenFooters(lib: Library, buf: seq<byte>, es: seq<ChunkIndexEntry>, offset: u64)
    ensures ReadFooterSpec(lib, buf) == Footer(es, offset) <==>
            && |HEAD_MAGIC| <= offset <= |buf| && |es| < 0x1_0000_0000
            && buf == buf[..offset] + FooterBytes(lib, offset, es)
  {
    if ReadFooterSpec(lib, buf) == Footer(es, offset) {
      AcceptedIsWritten(lib, buf);
    } else if |HEAD_MAGIC| <= offset <= |buf| && |es| < 0x1_0000_0000
              && buf == buf[..offset] + FooterBytes(lib, offset, es) {
      FooterRoundTrip(lib, buf[..offset], es);
    }
  }

  lemma AcceptedIsWritten(lib: Library, buf: seq<byte>)
    requires ReadFooterSpec(lib, buf).Footer?
    ensures var Footer(es, offset) := ReadFooterSpec(lib, buf);
            && |HEAD_MAGIC| <= offset <= |buf| && |es| < 0x1_0000_0000
            && buf == buf[..offset] + FooterBytes(lib, offset, es)
  {
    hide FromLE, ToLE, ReadEntries, EntriesBytes, JudgeBody;
    ReadFooterJudgesBody(lib, buf);
    var offset := ReadFooterSpec(lib, buf).offset;
    var ts := |buf| - TRAILER_SIZE;
    var crc := ReadU32(buf, ts + 8);
    JudgedBodyIsWritten(lib, ReadU64(buf, ts), buf[ReadU64(buf, ts)..ts], crc);
    LEInverse(buf[ts..ts + 8]);
    LEInverse(buf[ts + 8..ts + 8 + 4]);
    LEInverse(buf[ts + 12..ts + 12 + 8]);
    assert buf[ts..] == Trailer(offset, crc);
    assert buf == buf[..offset] + (buf[offset..ts] + buf[ts..]);
  }
}
