/** What a session file is made of: sealable batches, the units they become, and the index entries of chunks. */
module Layout {
  import opened Bytes
  import opened Events
  import opened Externals
  import opened Codec
  import opened Footer
  import opened Chunked
  import opened Filter

  /** The batches the writer seals: never empty, and at most one maximal frame in size. */
  ghost predicate Sealable(lib: Library, b: seq<Event>)
  {
    b != [] && AllEncodable(lib, b) && |Frames(lib, b)| <= MAX_FRAME_BYTES + 4
  }

  ghost predicate AllSealable(lib: Library, bs: seq<seq<Event>>)
  {
    forall i :: 0 <= i < |bs| ==> Sealable(lib, bs[i])
  }

  /** A sealed chunk always fits the bound the recovery scan accepts, and every field of its index entry fits its
      width. */
  lemma SealableFits(lib: Library, b: seq<Event>)
    requires LawfulZstd(lib) && Sealable(lib, b)
    ensures ChunkFits(lib, b) && |b| < 0x1_0000_0000
  {
    assert |lib.compress(Frames(lib, b))| <= CompressBound(|Frames(lib, b)|);
  }

  lemma AllSealableFit(lib: Library, bs: seq<seq<Event>>)
    requires LawfulZstd(lib) && AllSealable(lib, bs)
    ensures AllChunksFit(lib, bs)
    ensures BatchesEncode(lib, bs)
  {
    forall i | 0 <= i < |bs|
      ensures ChunkFits(lib, bs[i])
    {
      SealableFits(lib, bs[i]);
    }
  }

  ghost function EntryOf(lib: Library, b: seq<Event>, at: u64): (e: ChunkIndexEntry)
    requires LawfulZstd(lib) && Sealable(lib, b)
    ensures Summarizes(e, b)
  {
    SealableFits(lib, b);
    var s := StatsOf(b);
    ChunkIndexEntry(at, |lib.compress(Frames(lib, b))|, s.minTs, s.maxTs, s.sourceBitmap, |b|)
  }

  /** The index of chunks laid down one after the other from `at`. */
  ghost function IndexOf(lib: Library, bs: seq<seq<Event>>, at: nat): (es: seq<ChunkIndexEntry>)
    requires LawfulZstd(lib) && AllSealable(lib, bs)
    requires at + |CatUnits(lib, true, bs)| <= U64_MAX
    ensures |es| == |bs|
  {
    if bs == [] then []
    else [EntryOf(lib, bs[0], at)] + IndexOf(lib, bs[1..], at + |UnitBytes(lib, true, bs[0])|)
  }

  lemma {:induction false} IndexOfAppend(lib: Library, bs: seq<seq<Event>>, b: seq<Event>, at: nat)
    requires LawfulZstd(lib) && AllSealable(lib, bs) && Sealable(lib, b)
    requires at + |CatUnits(lib, true, bs)| + |UnitBytes(lib, true, b)| <= U64_MAX
    ensures CatUnits(lib, true, bs + [b]) == CatUnits(lib, true, bs) + UnitBytes(lib, true, b)
    ensures IndexOf(lib, bs + [b], at) == IndexOf(lib, bs, at) + [EntryOf(lib, b, at + |CatUnits(lib, true, bs)|)]
    decreases |bs|
  {
    hide UnitBytes, LawfulZstd, EntryOf, Sealable;
    AllSealableFit(lib, bs);
    AllSealableFit(lib, [b]);
    if bs == [] {
      assert bs + [b] == [b];
      assert [b][1..] == [];
    } else {
      AllSealableFit(lib, bs[1..]);
      IndexOfAppend(lib, bs[1..], b, at + |UnitBytes(lib, true, bs[0])|);
      assert (bs + [b])[1..] == bs[1..] + [b];
    }
  }

  ghost function SealedFile(lib: Library, bs: seq<seq<Event>>): (r: seq<byte>)
    requires LawfulZstd(lib) && AllSealable(lib, bs)
    requires |HEAD_MAGIC| + |CatUnits(lib, true, bs)| <= U64_MAX
  {
    var chunks := ChunkFile(lib, bs);
    chunks + FooterBytes(lib, |chunks|, IndexOf(lib, bs, |HEAD_MAGIC|))
  }

  lemma {:induction false} FlattenAppend<T>(a: seq<seq<T>>, b: seq<seq<T>>)
    ensures Flatten(a + b) == Flatten(a) + Flatten(b)
  {
    if a == [] {
      assert a + b == b && Flatten(a) + Flatten(b) == Flatten(b);
    } else {
      var ab := a + b;
      assert ab != [] && ab[0] == a[0] && ab[1..] == a[1..] + b;
      FlattenAppend(a[1..], b);
      assert a[0] + (Flatten(a[1..]) + Flatten(b)) == (a[0] + Flatten(a[1..])) + Flatten(b);
    }
  }
}
