/** A library that obeys the laws: it stores data uncompressed and encodes one kind of event. It shows the laws
    can be met together. */
module StoredLibrary {
  import opened Bytes
  import opened Events
  import opened Externals

  // ----- frames of stored blocks -----

  /** Blocks of 255 bytes, then a shorter last one, each behind its length. */
  function Store(d: seq<byte>): (r: seq<byte>)
  {
    if |d| < 255 then [|d|] + d else [255] + d[..255] + Store(d[255..])
  }

  datatype Parsed = Parsed(data: seq<byte>, used: nat)

  function Unstore(s: seq<byte>): (r: Option<Parsed>)
  {
    if s == [] || |s| < 1 + (s[0] as int) then None
    else if s[0] < 255 then Some(Parsed(s[1..1 + (s[0] as int)], 1 + (s[0] as int)))
    else
      match Unstore(s[256..])
      case Some(p) => Some(Parsed(s[1..256] + p.data, 256 + p.used))
      case None => None
  }

  const HEADER: seq<byte> := ZSTD_MAGIC + [4]

  function Compress(d: seq<byte>): (r: seq<byte>) { HEADER + Store(d) }

  function Open(s: seq<byte>): (r: Option<Parsed>)
  {
    if |s| < 5 || s[..5] != HEADER then None else Unstore(s[5..])
  }

  function Decompress(s: seq<byte>): (r: Decoded)
  {
    match Open(s)
    case Some(p) => if 5 + p.used == |s| then Decoded(p.data, true) else Decoded(p.data, false)
    case None => Decoded([], false)
  }

  function FrameSize(s: seq<byte>): (r: Option<nat>)
  {
    match Open(s) case Some(p) => Some(5 + p.used) case None => None
  }

  lemma {:induction false} UnstoreStore(d: seq<byte>, rest: seq<byte>)
    ensures Unstore(Store(d) + rest) == Some(Parsed(d, |Store(d)|))
    decreases |d|
  {
    var s := Store(d) + rest;
    if |d| >= 255 {
      UnstoreStore(d[255..], rest);
      assert s[256..] == Store(d[255..]) + rest && s[1..256] == d[..255];
      assert d[..255] + d[255..] == d;
    } else {
      assert s[1..1 + |d|] == d;
    }
  }

  lemma {:induction false} CutStoreFails(d: seq<byte>, k: nat)
    requires k < |Store(d)|
    ensures Unstore(Store(d)[..k]).None?
    decreases |d|
  {
    var s := Store(d)[..k];
    if k >= 256 && |d| >= 255 {
      assert s[256..] == Store(d[255..])[..k - 256];
      CutStoreFails(d[255..], k - 256);
    } else if k > 0 {
      assert s[0] == Store(d)[0];
    }
  }

  lemma {:induction false} StoreIsSmall(d: seq<byte>)
    ensures |Store(d)| <= |d| + |d| / 200 + 1
    decreases |d|
  {
    if |d| >= 255 {
      StoreIsSmall(d[255..]);
    }
  }

  lemma OpenCompress(d: seq<byte>, rest: seq<byte>)
    ensures Open(Compress(d) + rest) == Some(Parsed(d, |Store(d)|))
  {
    hide Store, Unstore;
    var s := Compress(d) + rest;
    UnstoreStore(d, rest);
    assert s[..5] == HEADER && s[5..] == Store(d) + rest;
  }

  lemma OpenCut(d: seq<byte>, k: nat)
    requires k < |Compress(d)|
    ensures Open(Compress(d)[..k]).None?
  {
    hide Store, Unstore;
    if k >= 5 {
      assert Compress(d)[..k][5..] == Store(d)[..k - 5];
      CutStoreFails(d, k - 5);
    }
  }

  // ----- one kind of event -----

  function SourceAt(k: nat): (r: Source)
  {
    if k == 0 then SrcMark else if k == 1 then System else if k == 2 then IoReport else if k == 3 then Vm
    else if k == 4 then Proc else if k == 5 then OsLog else if k == 6 then Thermal else if k == 7 then MachExc
    else if k == 8 then CrashReport else if k == 9 then MetalHook else PythonSidecar
  }

  function Encode(e: Event): (r: Option<seq<byte>>)
  {
    match e.payload
    case CbCompleted(cb, queue, t) =>
      Some([SourceIndex(e.source)] + ToLE(e.ts, 8) + ToLE(e.seqNo, 8) + ToLE(cb, 8) + ToLE(queue, 8) + ToLE(t, 8))
    case _ => None
  }

  function Word(b: seq<byte>): (r: u64)
    requires |b| == 8
  {
    FromLE(b) % 0x1_0000_0000_0000_0000
  }

  function Decode(b: seq<byte>): (r: Option<Event>)
  {
    if |b| != 41 then None
    else Some(Event(Word(b[1..9]), Word(b[9..17]), SourceAt(b[0]),
        CbCompleted(Word(b[17..25]), Word(b[25..33]), Word(b[33..41]))))
  }

  lemma WordRoundTrip(n: u64)
    ensures Word(ToLE(n, 8)) == n
  {
    LE8(n);
  }

  lemma DecodeEncode(e: Event)
    requires Encode(e).Some?
    ensures Decode(Encode(e).value) == Some(e)
  {
    var (cb, queue, t) := (e.payload.cb, e.payload.queue, e.payload.inFlightNs);
    var b := Encode(e).value;
    assert b[1..9] == ToLE(e.ts, 8) && b[9..17] == ToLE(e.seqNo, 8) && b[17..25] == ToLE(cb, 8);
    assert b[25..33] == ToLE(queue, 8) && b[33..41] == ToLE(t, 8);
    WordRoundTrip(e.ts);
    WordRoundTrip(e.seqNo);
    WordRoundTrip(cb);
    WordRoundTrip(queue);
    WordRoundTrip(t);
  }

  function Stored(): (r: Library)
  {
    Library(Encode, Decode, Compress, Decompress, FrameSize, _ => 0)
  }

  lemma StoredZstd()
    ensures LawfulZstd(Stored())
  {
    hide Compress, Open;
    var lib := Stored();
    forall d: seq<byte>
      ensures lib.decompress(lib.compress(d)) == Decoded(d, true) && FrameHasChecksum(lib.compress(d))
      ensures |lib.compress(d)| <= CompressBound(|d|)
    {
      CompressHolds(d);
    }
    forall d: seq<byte>, rest: seq<byte>
      ensures lib.frameSize(lib.compress(d) + rest) == Some(|lib.compress(d)|)
    {
      CompressHolds(d);
      OpenCompress(d, rest);
    }
    forall d: seq<byte>, k: nat | k < |lib.compress(d)|
      ensures lib.frameSize(lib.compress(d)[..k]) == None
    {
      OpenCut(d, k);
    }
  }

  lemma CompressHolds(d: seq<byte>)
    ensures |Compress(d)| == 5 + |Store(d)| && |Compress(d)| <= CompressBound(|d|)
    ensures Decompress(Compress(d)) == Decoded(d, true)
    ensures FrameHasChecksum(Compress(d))
  {
    hide Store, Open;
    StoreIsSmall(d);
    OpenCompress(d, []);
    assert Compress(d) + [] == Compress(d);
    assert Compress(d)[..4] == ZSTD_MAGIC && Compress(d)[4] == 4;
    assert TestBit(4, 2);
  }

  /** The laws are consistent: a library obeys them all, and encodes some event. */
  lemma LawfulLibraryExists()
    ensures Lawful(Stored())
    ensures exists e: Event :: Stored().encode(e).Some?
  {
    hide Encode, Decode;
    StoredZstd();
    forall e: Event | Encode(e).Some?
      ensures Decode(Encode(e).value) == Some(e)
    {
      DecodeEncode(e);
    }
    SomeEvent();
  }

  lemma SomeEvent()
    ensures Stored().encode(Event(0, 0, MetalHook, CbCompleted(1, 2, 3))).Some?
  {
  }
}
