/** Bytes as they stand in a file. */
module WireFormat {
  import opened Bytes
  import opened Events
  import opened Externals
  import opened Codec
  import opened Footer
  import opened Chunked
  import opened Reader
  import Ring

  /** Numbers are written with their low byte first. */
  lemma LowByteFirst(n: u32)
    ensures ToLE(n, 4) == [n % 0x100, n / 0x100 % 0x100, n / 0x1_0000 % 0x100, n / 0x100_0000]
  {
    assert ToLE(n / 0x100_0000, 1) == [n / 0x100_0000 % 0x100] + ToLE(n / 0x1_0000_0000, 0);
    assert ToLE(n / 0x1_0000, 2) == [n / 0x1_0000 % 0x100] + ToLE(n / 0x100_0000, 1);
    assert ToLE(n / 0x100, 3) == [n / 0x100 % 0x100] + ToLE(n / 0x1_0000, 2);
  }

  /** A frame is its length in four bytes, then the body. */
  lemma FrameStandsLikeThis(body: seq<byte>)
    requires |body| < 0x1_0000_0000
    ensures |Frame(body)| == 4 + |body| && Frame(body)[4..] == body
    ensures Frame(body)[..4] == [|body| % 0x100, |body| / 0x100 % 0x100, |body| / 0x1_0000 % 0x100, |body| / 0x100_0000]
  {
    hide ToLE;
    LowByteFirst(|body|);
  }

  /** A chunk is the length of its compressed frame in four bytes, then the frame. */
  lemma ChunkStandsLikeThis(lib: Library, b: seq<Event>)
    requires AllEncodable(lib, b) && |lib.compress(Frames(lib, b))| < 0x1_0000_0000
    ensures var c, u := lib.compress(Frames(lib, b)), UnitBytes(lib, true, b);
            && u[4..] == c
            && u[..4] == [|c| % 0x100, |c| / 0x100 % 0x100, |c| / 0x1_0000 % 0x100, |c| / 0x100_0000]
  {
    hide ToLE, Frames;
    LowByteFirst(|lib.compress(Frames(lib, b))|);
  }

  /** The head magic is `SMz` and version 1; other versions are refused by their number, other heads are legacy. */
  lemma FormatsByHead(v: byte, rest: seq<byte>)
    ensures HEAD_MAGIC == [0x53, 0x4D, 0x7A, 1]
    ensures DetectFormat([0x53, 0x4D, 0x7A, v] + rest) == if v == 1 then Format.Chunked else Unsupported(v)
    ensures DetectFormat([0x28, 0xB5, 0x2F, 0xFD] + rest) == Legacy
    ensures DetectFormat([0x53, 0x4D, 0x7A]) == Legacy
  {
    var head := [0x53, 0x4D, 0x7A, v] + rest;
    assert head[..3] == HEAD_MAGIC[..3];
    assert ([0x28, 0xB5, 0x2F, 0xFD] + rest)[..3][0] == 0x28;
  }

  /** An index entry, byte by byte: offset, length, earliest and latest time, sources, count. */
  lemma EntryStandsLikeThis()
    ensures EntryBytes(ChunkIndexEntry(4, 0x0201, 7, 9, 0x0600, 3)) ==
            [4, 0, 0, 0, 0, 0, 0, 0] + [1, 2, 0, 0] + [7, 0, 0, 0, 0, 0, 0, 0] + [9, 0, 0, 0, 0, 0, 0, 0]
            + [0, 6, 0, 0, 0, 0, 0, 0] + [3, 0, 0, 0]
  {
    hide ToLE;
    SmallNumbers();
    LargerNumbers();
    ShortNumbers();
  }

  /** The trailer: offset, checksum, and the magic that ends every sealed file. */
  lemma TrailerStandsLikeThis()
    ensures Trailer(0x0504, 0x0403_0201) ==
            [4, 5, 0, 0, 0, 0, 0, 0] + [1, 2, 3, 4] + [0, 0x54, 0x4F, 0x4F, 0x46, 0x7A, 0x4D, 0x53]
  {
    hide ToLE;
    LargerNumbers();
    MagicNumber();
    LowByteFirst(0x0403_0201);
  }

  /** The footer: how many chunks, their entries in order, the trailer over the checksum of both. */
  lemma FooterStandsLikeThis(lib: Library, offset: u64, a: ChunkIndexEntry, b: ChunkIndexEntry)
    ensures var body := [2, 0, 0, 0] + (EntryBytes(a) + EntryBytes(b));
            FooterBytes(lib, offset, [a, b]) == body + Trailer(offset, lib.crc32(body))
  {
    hide ToLE, EntryBytes, Trailer;
    LowByteFirst(2);
    assert [a, b][..1] == [a] && [a][..0] == [];
    assert EntriesBytes([a]) == EntryBytes(a);
    assert EntriesBytes([a, b]) == EntryBytes(a) + EntryBytes(b);
  }

  lemma ShortNumbers()
    ensures ToLE(3, 4) == [3, 0, 0, 0] && ToLE(0x0201, 4) == [1, 2, 0, 0]
  {
    LowByteFirst(3);
    LowByteFirst(0x0201);
  }

  /** Eight bytes are the low four and then the high four. */
  lemma LowHalfFirst(low: u32, high: u32)
    ensures ToLE(high * 0x1_0000_0000 + low, 8) == ToLE(low, 4) + ToLE(high, 4)
  {
    hide ToLE;
    LowByteFirst(low);
    var n := high * 0x1_0000_0000 + low;
    var n3 := high * 0x100 + low / 0x100_0000;
    var n2 := high * 0x1_0000 + low / 0x1_0000;
    var n1 := high * 0x100_0000 + low / 0x100;
    ByteFirst(low % 0x100, n1, 7);
    ByteFirst(low / 0x100 % 0x100, n2, 6);
    ByteFirst(low / 0x1_0000 % 0x100, n3, 5);
    ByteFirst(low / 0x100_0000, high, 4);
    assert n == low % 0x100 + 0x100 * n1;
    assert n1 == low / 0x100 % 0x100 + 0x100 * n2;
    assert n2 == low / 0x1_0000 % 0x100 + 0x100 * n3;
  }

  lemma ByteFirst(b: byte, rest: nat, width: nat)
    ensures ToLE(b + 0x100 * rest, width + 1) == [b] + ToLE(rest, width)
  {
    assert (b + 0x100 * rest) % 0x100 == b && (b + 0x100 * rest) / 0x100 == rest;
  }

  lemma SmallNumbers()
    ensures ToLE(4, 8) == [4, 0, 0, 0, 0, 0, 0, 0] && ToLE(7, 8) == [7, 0, 0, 0, 0, 0, 0, 0]
    ensures ToLE(9, 8) == [9, 0, 0, 0, 0, 0, 0, 0]
  {
    hide ToLE;
    LowHalfFirst(4, 0);
    LowHalfFirst(7, 0);
    LowHalfFirst(9, 0);
    LowByteFirst(4);
    LowByteFirst(7);
    LowByteFirst(9);
    LowByteFirst(0);
  }

  lemma LargerNumbers()
    ensures ToLE(0x0600, 8) == [0, 6, 0, 0, 0, 0, 0, 0] && ToLE(0x0504, 8) == [4, 5, 0, 0, 0, 0, 0, 0]
  {
    hide ToLE;
    LowHalfFirst(0x0600, 0);
    LowHalfFirst(0x0504, 0);
    LowByteFirst(0x0600);
    LowByteFirst(0x0504);
    LowByteFirst(0);
  }

  lemma MagicNumber()
    ensures ToLE(FOOTER_MAGIC, 8) == [0, 0x54, 0x4F, 0x4F, 0x46, 0x7A, 0x4D, 0x53]
  {
    hide ToLE;
    LowHalfFirst(0x4F4F_5400, 0x534D_7A46);
    LowByteFirst(0x4F4F_5400);
    LowByteFirst(0x534D_7A46);
  }

  // ----- limits -----

  /** Bodies of up to 16 MiB are framed; a larger one is refused with its length, at most 2^32 - 1. */
  lemma FramesAreLimited(lib: Library, e: Event)
    ensures lib.encode(e).None? ==> EncodeSpec(lib, e).Refused?
    ensures lib.encode(e).Some? ==>
              var n := |lib.encode(e).value|;
              EncodeSpec(lib, e) ==
              if n <= 16_777_216 then Encoded(Frame(lib.encode(e).value))
              else Refused(FrameTooLarge(if n <= 0xFFFF_FFFF then n else 0xFFFF_FFFF))
  {
  }

  /** A header over 16 MiB is an error right behind it, whatever follows; up to that a missing rest is a truncation. */
  lemma ReadsAreLimited(lib: Library, n: u32, rest: seq<byte>)
    ensures n > 16_777_216 ==> ReadSpec(lib, ToLE(n, 4) + rest) == Bad(4, FrameTooLarge(n))
    ensures n <= 16_777_216 && |rest| < n ==> ReadSpec(lib, ToLE(n, 4) + rest) == Bad(4 + |rest|, Truncated)
  {
    hide ToLE, FromLE;
    LE4(n);
    assert (ToLE(n, 4) + rest)[..4] == ToLE(n, 4);
  }

  /** No chunk is empty or longer than 17 MiB. */
  lemma ChunksAreLimited(lib: Library, pre: seq<byte>, n: u32, rest: seq<byte>, need: bool)
    requires n == 0 || n > 17_825_792
    ensures TryChunk(lib, pre + ToLE(n, 4) + rest, |pre|, |pre + ToLE(n, 4) + rest|, need).None?
  {
    hide ToLE, FromLE, DecodeChunkSpec;
    ReadBackU32(pre, n, rest);
  }

  // ----- the ring -----

  /** A record in the ring: its length with padding, its kind, its time, the payload, zeros up to the next multiple of
      16. */
  lemma RecordStandsLikeThis()
    ensures Ring.RoundAlign(Ring.HEADER_BYTES + 3) == 32
    ensures Ring.FrameBytes(Ring.RecordOf(5, 0x0504, [7, 8, 9])) ==
            ([32, 0, 0, 0] + [5, 0, 0, 0] + [4, 5, 0, 0, 0, 0, 0, 0])
            + ([7, 8, 9] + [0, 0, 0, 0, 0, 0, 0, 0, 0, 0, 0, 0, 0])
  {
    hide ToLE;
    LargerNumbers();
    LowByteFirst(32);
    LowByteFirst(5);
  }
}
