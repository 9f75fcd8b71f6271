/** A concrete session whose metadata accounts for none of its events: the last seal gets no encoder. */
module UncountedEvents {
  import opened Events
  import opened Externals
  import opened Codec
  import Filter
  import Footer
  import Layout
  import Reader
  import StoredLibrary
  import W = Writer
  import S = SessionWriter

  /** One small event on a working disk, and no encoder when the session ends: the event was accepted,
      yet the metadata says that nothing was written and nothing was dropped. */
  method LastSealGetsNoEncoder(lib: Library, e: Event) returns (accepted: bool, ok: bool, meta: Reader.Metadata)
    requires Lawful(lib) && Encodable(lib, e) && |Frame(lib.encode(e).value)| < W.LEGACY_FRAME_BYTES
    ensures accepted && !ok && meta == Reader.Metadata(Some(0), None)
  {
    hide Lawful, LawfulZstd, Frame, Frames, W.OnDisk, W.Placed, W.CatBytes, W.TotalBytes, W.TotalEvents, S.UnitsOf,
         S.Kept, S.SealedEvents, S.LostEvents, S.HasRoom, S.Works, S.Appended, S.Unfinished, AllEncodable,
         Filter.StatsOf, Layout.AllSealable;
    S.NothingFramed(lib);
    var file := new W.EventFile([], true);
    var w := new S.SessionWriter(lib, S.Legacy, file, W.MAX_PENDING_BYTES, _ => S.EncoderAnswer(false, true));
    var r := w.WriteEvent(e);
    accepted := r.Accepted?;
    ok, meta := w.Finalize();
  }

  /** A chunk setting that seals every event, and no encoder: the call fails, and the writer still holds the event. */
  method HeldDespiteTheError(lib: Library, e: Event) returns (refused: bool, held: nat)
    requires Lawful(lib) && Encodable(lib, e)
    ensures refused && held == 1
  {
    hide Lawful, LawfulZstd, Frame, Frames, W.OnDisk, W.Placed, W.CatBytes, W.TotalBytes, W.TotalEvents, S.UnitsOf,
         S.Kept, S.SealedEvents, S.LostEvents, S.HasRoom, S.Works, S.Appended, S.Unfinished, AllEncodable,
         Filter.StatsOf, Layout.AllSealable;
    S.NothingFramed(lib);
    var cfg := S.ChunkConfig(1, W.LEGACY_FRAME_BYTES, 0);
    var file := new W.EventFile(Footer.HEAD_MAGIC, true);
    var w := new S.SessionWriter(lib, S.Chunked(cfg), file, W.MAX_PENDING_BYTES, _ => S.EncoderAnswer(false, true));
    var r := w.WriteEvent(e);
    refused, held := r.NotKept?, w.batch.eventCount;
  }

  function OneEvent(): (r: Event) { Event(0, 0, MetalHook, CbCompleted(1, 2, 3)) }

  /** Such a library and event exist. */
  lemma OneEventIsSmall()
    ensures var lib := StoredLibrary.Stored();
            Lawful(lib) && Encodable(lib, OneEvent()) && |Frame(lib.encode(OneEvent()).value)| < W.LEGACY_FRAME_BYTES
  {
    hide Lawful;
    StoredLibrary.LawfulLibraryExists();
  }
}
