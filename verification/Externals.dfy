/** The libraries the store is built on - CBOR, zstd and crc32 - as function values, and
    the laws the store relies on. Everything about the store is proved for every
    `Library` that obeys `Lawful`, and `LawfulLibraryExists` shows that some library does. */
module Externals {
  import opened Bytes
  import opened Events

  const ZSTD_MAGIC: seq<byte> := [0x28, 0xB5, 0x2F, 0xFD]

  /** Output of a decoder over one zstd frame: what it produced, and whether it ended without an error. */
  datatype Decoded = Decoded(data: seq<byte>, ok: bool)

  datatype Library = Library(
    /** CBOR encoding of an event; `None` when the serializer refuses. */
    encode: Event -> Option<seq<byte>>,
    decode: seq<byte> -> Option<Event>,
    /** One zstd frame for the data; the encoder is set up to add a checksum. */
    compress: seq<byte> -> seq<byte>,
    /** A zstd decoder in single-frame mode: bytes after the first frame are not looked at. */
    decompress: seq<byte> -> Decoded,
    /** Compressed size of the frame that starts the bytes; `None` when it is cut or malformed. */
    frameSize: seq<byte> -> Option<nat>,
    crc32: seq<byte> -> u32)

  /** Whether a zstd frame starting the bytes carries a content checksum (bit 2 of Frame_Header_Descriptor). */
  predicate FrameHasChecksum(frame: seq<byte>)
  {
    |frame| > 4 && frame[..4] == ZSTD_MAGIC && TestBit(frame[4], 2)
  }

  /** Upper bound on zstd's output, with room for frame and block headers. */
  function CompressBound(n: nat): (r: nat) { n + n / 200 + 1024 }

  ghost predicate LawfulCbor(lib: Library)
  {
    forall e: Event :: lib.encode(e).Some? ==> lib.decode(lib.encode(e).value) == Some(e)
  }

  ghost predicate LawfulZstd(lib: Library)
  {
    && (forall d: seq<byte> :: lib.decompress(lib.compress(d)) == Decoded(d, true))
    && (forall d: seq<byte> :: FrameHasChecksum(lib.compress(d)))
    && (forall d: seq<byte> :: |lib.compress(d)| <= CompressBound(|d|))
    && (forall d: seq<byte>, rest: seq<byte> ::
          lib.frameSize(lib.compress(d) + rest) == Some(|lib.compress(d)|))
    && (forall d: seq<byte>, k: nat | k < |lib.compress(d)| ::
          lib.frameSize(lib.compress(d)[..k]) == None)
  }

  ghost predicate Lawful(lib: Library)
  {
    LawfulCbor(lib) && LawfulZstd(lib)
  }
}
