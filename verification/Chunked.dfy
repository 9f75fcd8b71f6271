/** Sealed chunks, and the scan that recovers them from a file without a usable footer. */
module Chunked {
  import opened Bytes
  import opened Events
  import opened Externals
  import opened Codec
  import opened Footer

  const MAX_CHUNK_BYTES: nat := 17 * 1024 * 1024

  function DecodeChunkSpec(lib: Library, bytes: seq<byte>): (r: Option<seq<Event>>)
  {
    var d := lib.decompress(bytes);
    if !d.ok then None
    else
      var p := ParseSpec(lib, d.data, 0);
      if p.problem.None? then Some(p.events) else None
  }

  /** All or nothing: every event, with no byte left over and none missing. */
  method DecodeChunk(lib: Library, bytes: seq<byte>) returns (r: Option<seq<Event>>)
    ensures r == DecodeChunkSpec(lib, bytes)
  {
    hide ReadSpec, ParseSpec;
    var d := lib.decompress(bytes);
    if !d.ok {
      return None;
    }
    var cur := new ByteReader(d.data);
    var out := [];
    assert d.data[0..] == d.data;
    ghost var whole := ParseSpec(lib, d.data, 0);
    while true
      invariant cur.Valid() && cur.data == d.data
      invariant fresh(cur)
      invariant var rest := ParseSpec(lib, d.data[cur.pos..], cur.pos);
                rest.(events := out + rest.events) == whole
      decreases |d.data| - cur.pos
    {
      ghost var p := cur.pos;
      ParseUnfolds(lib, d.data[p..], p);
      var res := ReadFrame(lib, cur);
      match res {
        case CleanEnd =>
          assert out + [] == out;
          return Some(out);
        case Bad(_, _) => return None;
        case Got(e, n) =>
          assert d.data[p..][n..] == d.data[cur.pos..];
          ghost var rest := ParseSpec(lib, d.data[cur.pos..], cur.pos).events;
          assert out + ([e] + rest) == (out + [e]) + rest;
          out := out + [e];
      }
    }
  }

  /** What a chunk that starts at `offset` holds and where the next would start; none when it leaves `end` or is
      broken. */
  function TryChunk(lib: Library, buf: seq<byte>, offset: nat, end: nat,
      needChecksum: bool): (r: Option<(seq<Event>, nat)>)
    requires end <= |buf|
    ensures r.Some? ==> offset + 4 < r.value.1 <= end
  {
    if offset + 4 > |buf| then None
    else
      var compLen := ReadU32(buf, offset);
      var bodyEnd := offset + 4 + compLen;
      if compLen == 0 || compLen > MAX_CHUNK_BYTES || bodyEnd > end then None
      else
        var body := buf[offset + 4..bodyEnd];
        if |body| < 4 || body[..4] != ZSTD_MAGIC || (needChecksum && !FrameHasChecksum(body)) then None
        else match DecodeChunkSpec(lib, body)
          case None => None
          case Some(evs) => Some((evs, bodyEnd))
  }

  datatype Damage = Skipped(from: nat, to: nat) | LastBytes(count: nat)

  datatype Scan = Scan(events: seq<Event>, damage: seq<Damage>)

  /** The first checksummed chunk at or after `p`. */
  function FindResync(lib: Library, buf: seq<byte>, p: nat, end: nat): (r: Option<nat>)
    requires end <= |buf|
    ensures r.Some? ==> p <= r.value < end && TryChunk(lib, buf, r.value, end, true).Some?
    ensures forall q :: p <= q < (if r.Some? then r.value else end) ==> TryChunk(lib, buf, q, end, true).None?
    decreases end - p
  {
    if p >= end then None
    else if TryChunk(lib, buf, p, end, true).Some? then Some(p)
    else FindResync(lib, buf, p + 1, end)
  }

  function ScanSpec(lib: Library, buf: seq<byte>, cursor: nat, end: nat): (r: Scan)
    requires end <= |buf|
    decreases end - cursor
  {
    if cursor >= end then Scan([], [])
    else match TryChunk(lib, buf, cursor, end, false)
      case Some((evs, next)) =>
        var rest := ScanSpec(lib, buf, next, end);
        rest.(events := evs + rest.events)
      case None =>
        match FindResync(lib, buf, cursor + 1, end)
        case Some(p) =>
          var rest := ScanSpec(lib, buf, p, end);
          rest.(damage := [Skipped(cursor, p)] + rest.damage)
        case None => Scan([], [LastBytes(end - cursor)])
  }

  lemma ScanTakesAChunk(lib: Library, buf: seq<byte>, cursor: nat, end: nat)
    requires cursor < end <= |buf| && TryChunk(lib, buf, cursor, end, false).Some?
    ensures var (evs, next) := TryChunk(lib, buf, cursor, end, false).value;
            var rest := ScanSpec(lib, buf, next, end);
            ScanSpec(lib, buf, cursor, end) == rest.(events := evs + rest.events)
  {
    hide TryChunk, FindResync;
  }

  lemma ScanResyncs(lib: Library, buf: seq<byte>, cursor: nat, end: nat)
    requires cursor < end <= |buf| && TryChunk(lib, buf, cursor, end, false).None?
    ensures match FindResync(lib, buf, cursor + 1, end)
            case Some(p) =>
              var rest := ScanSpec(lib, buf, p, end);
              ScanSpec(lib, buf, cursor, end) == rest.(damage := [Skipped(cursor, p)] + rest.damage)
            case None => ScanSpec(lib, buf, cursor, end) == Scan([], [LastBytes(end - cursor)])
  {
    hide TryChunk, FindResync;
  }

  lemma ScanEnds(lib: Library, buf: seq<byte>, cursor: nat, end: nat)
    requires end <= cursor && end <= |buf|
    ensures ScanSpec(lib, buf, cursor, end) == Scan([], [])
  {
  }

  // ----- a scan that ends before the file does -----

  lemma TryIgnoresWhatFollows(lib: Library, buf: seq<byte>, offset: nat, end: nat, needChecksum: bool)
    requires end <= |buf|
    ensures TryChunk(lib, buf, offset, end, needChecksum) == TryChunk(lib, buf[..end], offset, end, needChecksum)
  {
    hide DecodeChunkSpec, FromLE;
    if offset + 4 <= end {
      assert buf[offset..offset + 4] == buf[..end][offset..offset + 4];
      var bodyEnd := offset + 4 + ReadU32(buf, offset);
      if bodyEnd <= end {
        assert buf[offset + 4..bodyEnd] == buf[..end][offset + 4..bodyEnd];
      }
    }
  }

  lemma {:induction false} ResyncIgnoresWhatFollows(lib: Library, buf: seq<byte>, p: nat, end: nat)
    requires end <= |buf|
    ensures FindResync(lib, buf, p, end) == FindResync(lib, buf[..end], p, end)
    decreases end - p
  {
    hide TryChunk;
    if p < end {
      TryIgnoresWhatFollows(lib, buf, p, end, true);
      ResyncIgnoresWhatFollows(lib, buf, p + 1, end);
    }
  }

  /** The scan depends on the bytes before its end alone. */
  lemma {:induction false} ScanIgnoresWhatFollows(lib: Library, buf: seq<byte>, cursor: nat, end: nat)
    requires end <= |buf|
    ensures ScanSpec(lib, buf, cursor, end) == ScanSpec(lib, buf[..end], cursor, end)
    decreases end - cursor
  {
    hide TryChunk, FindResync;
    if cursor < end {
      TryIgnoresWhatFollows(lib, buf, cursor, end, false);
      ResyncIgnoresWhatFollows(lib, buf, cursor + 1, end);
      match TryChunk(lib, buf, cursor, end, false) {
        case Some((_, next)) => ScanIgnoresWhatFollows(lib, buf, next, end);
        case None =>
          match FindResync(lib, buf, cursor + 1, end) {
            case Some(p) => ScanIgnoresWhatFollows(lib, buf, p, end);
            case None =>
          }
      }
    }
  }

  function Ahead(out: seq<Event>, damage: seq<Damage>, rest: Scan): (r: Scan)
  {
    Scan(out + rest.events, damage + rest.damage)
  }

  method ScanChunksChecked(lib: Library, buf: seq<byte>, end0: nat) returns (out: seq<Event>, damage: seq<Damage>)
    ensures Scan(out, damage) == ScanSpec(lib, buf, |HEAD_MAGIC|, Min(end0, |buf|))
  {
    hide TryChunk, FindResync, ScanSpec;
    var end: nat := Min(end0, |buf|);
    out, damage := [], [];
    var cursor := |HEAD_MAGIC|;
    ghost var whole := ScanSpec(lib, buf, cursor, end);
    while cursor < end
      invariant Ahead(out, damage, ScanSpec(lib, buf, cursor, end)) == whole
      decreases end - cursor
    {
      match TryChunk(lib, buf, cursor, end, false) {
        case Some((evs, next)) =>
          ScanTakesAChunk(lib, buf, cursor, end);
          ghost var rest := ScanSpec(lib, buf, next, end);
          assert out + (evs + rest.events) == (out + evs) + rest.events;
          out := out + evs;
          cursor := next;
        case None =>
          ScanResyncs(lib, buf, cursor, end);
          match FindResync(lib, buf, cursor + 1, end) {
            case Some(p) =>
              ghost var rest := ScanSpec(lib, buf, p, end);
              assert damage + ([Skipped(cursor, p)] + rest.damage) == (damage + [Skipped(cursor, p)]) + rest.damage;
              damage := damage + [Skipped(cursor, p)];
              cursor := p;
            case None =>
              damage := damage + [LastBytes(end - cursor)];
              return;
          }
      }
    }
    ScanEnds(lib, buf, cursor, end);
  }

  // ----- what the writer lays down -----

  ghost predicate ChunkFits(lib: Library, batch: seq<Event>)
  {
    AllEncodable(lib, batch) && |lib.compress(Frames(lib, batch))| <= MAX_CHUNK_BYTES
  }

  /** A sealed unit: a zstd frame, length-prefixed in a chunked file. */
  function UnitBytes(lib: Library, chunked: bool, batch: seq<Event>): (b: seq<byte>)
    requires AllEncodable(lib, batch)
    ensures |b| == |lib.compress(Frames(lib, batch))| + if chunked then 4 else 0
  {
    var c := lib.compress(Frames(lib, batch));
    if chunked then ToLE(|c|, 4) + c else c
  }

  ghost predicate AllChunksFit(lib: Library, batches: seq<seq<Event>>)
  {
    forall i :: 0 <= i < |batches| ==> ChunkFits(lib, batches[i])
  }

  ghost predicate BatchesEncode(lib: Library, batches: seq<seq<Event>>)
  {
    forall i :: 0 <= i < |batches| ==> AllEncodable(lib, batches[i])
  }

  ghost function CatUnits(lib: Library, chunked: bool, batches: seq<seq<Event>>): (r: seq<byte>)
    requires BatchesEncode(lib, batches)
  {
    if batches == [] then [] else UnitBytes(lib, chunked, batches[0]) + CatUnits(lib, chunked, batches[1..])
  }

  function Flatten<T>(xss: seq<seq<T>>): (r: seq<T>)
  {
    if xss == [] then [] else xss[0] + Flatten(xss[1..])
  }

  lemma DecodeWrittenChunk(lib: Library, batch: seq<Event>)
    requires Lawful(lib) && AllEncodable(lib, batch)
    ensures DecodeChunkSpec(lib, lib.compress(Frames(lib, batch))) == Some(batch)
  {
    var data := Frames(lib, batch);
    assert lib.decompress(lib.compress(data)) == Decoded(data, true);
    ParseAfterFrames(lib, batch, [], 0);
    assert data + [] == data && batch + [] == batch;
  }

  /** A whole chunk is found wherever it stands, with or without the checksum demand. */
  lemma TryWrittenChunk(lib: Library, buf: seq<byte>, at: nat, batch: seq<Event>, end: nat, need: bool)
    requires Lawful(lib) && ChunkFits(lib, batch)
    requires at + |UnitBytes(lib, true, batch)| <= end <= |buf|
    requires buf[at..at + |UnitBytes(lib, true, batch)|] == UnitBytes(lib, true, batch)
    ensures TryChunk(lib, buf, at, end, need) == Some((batch, at + |UnitBytes(lib, true, batch)|))
  {
    hide DecodeChunkSpec, ToLE, FromLE, Frames;
    var chunk := UnitBytes(lib, true, batch);
    var c := lib.compress(Frames(lib, batch));
    assert FrameHasChecksum(c);
    assert buf[at..at + 4] == chunk[..4] == ToLE(|c|, 4);
    LE4(|c|);
    assert buf[at + 4..at + 4 + |c|] == chunk[4..] == c;
    DecodeWrittenChunk(lib, batch);
  }

  /** The first unit of a run, and the rest of the run behind it. */
  lemma FirstUnitInPlace(lib: Library, buf: seq<byte>, at: nat, batches: seq<seq<Event>>)
    requires BatchesEncode(lib, batches) && batches != []
    requires at + |CatUnits(lib, true, batches)| <= |buf|
             && buf[at..at + |CatUnits(lib, true, batches)|] == CatUnits(lib, true, batches)
    ensures BatchesEncode(lib, batches[1..])
    ensures var n, m := |UnitBytes(lib, true, batches[0])|, |CatUnits(lib, true, batches[1..])|;
            && n + m == |CatUnits(lib, true, batches)|
            && buf[at..at + n] == UnitBytes(lib, true, batches[0])
            && buf[at + n..at + n + m] == CatUnits(lib, true, batches[1..])
  {
    hide UnitBytes;
    SliceSplits(buf, at, UnitBytes(lib, true, batches[0]), CatUnits(lib, true, batches[1..]));
  }

  lemma SliceSplits(buf: seq<byte>, at: nat, a: seq<byte>, b: seq<byte>)
    requires at + |a| + |b| <= |buf| && buf[at..at + |a| + |b|] == a + b
    ensures buf[at..at + |a|] == a && buf[at + |a|..at + |a| + |b|] == b
  {
    var whole := buf[at..at + |a| + |b|];
    assert whole[..|a|] == buf[at..at + |a|];
    assert whole[|a|..] == buf[at + |a|..at + |a| + |b|];
  }

  lemma NoEventsMore(s: Scan)
    ensures s.(events := Flatten([]) + s.events) == s
  {
    assert Flatten<Event>([]) + s.events == s.events;
  }

  /** Scanning whole chunks gives their events in order, then whatever the scan makes of the rest. */
  lemma {:induction false} ScanWrittenChunks(lib: Library, buf: seq<byte>, at: nat, batches: seq<seq<Event>>, end: nat)
    requires Lawful(lib) && AllChunksFit(lib, batches)
    requires at + |CatUnits(lib, true, batches)| <= end <= |buf|
    requires buf[at..at + |CatUnits(lib, true, batches)|] == CatUnits(lib, true, batches)
    ensures var tail := ScanSpec(lib, buf, at + |CatUnits(lib, true, batches)|, end);
            ScanSpec(lib, buf, at, end) == tail.(events := Flatten(batches) + tail.events)
    decreases |batches|
  {
    hide TryChunk, UnitBytes, ScanSpec, Lawful;
    if batches == [] {
      NoEventsMore(ScanSpec(lib, buf, at, end));
    } else {
      FirstUnitInPlace(lib, buf, at, batches);
      var next := at + |UnitBytes(lib, true, batches[0])|;
      TryWrittenChunk(lib, buf, at, batches[0], end, false);
      ScanTakesAChunk(lib, buf, at, end);
      ScanWrittenChunks(lib, buf, next, batches[1..], end);
      var tail := ScanSpec(lib, buf, next + |CatUnits(lib, true, batches[1..])|, end);
      assert batches[0] + (Flatten(batches[1..]) + tail.events) == Flatten(batches) + tail.events;
    }
  }

  // ----- a file cut at any byte -----

  ghost function ChunkFile(lib: Library, batches: seq<seq<Event>>): (r: seq<byte>)
    requires BatchesEncode(lib, batches)
  {
    HEAD_MAGIC + CatUnits(lib, true, batches)
  }

  /** How many units lie wholly within the first `k` bytes. */
  ghost function CompleteUnits(lib: Library, chunked: bool, batches: seq<seq<Event>>, k: nat): (n: nat)
    requires BatchesEncode(lib, batches)
    ensures n <= |batches|
  {
    if batches == [] || k < |UnitBytes(lib, chunked, batches[0])| then 0
    else 1 + CompleteUnits(lib, chunked, batches[1..], k - |UnitBytes(lib, chunked, batches[0])|)
  }

  /** The first `n` units are a prefix of all of them. */
  lemma {:induction false} CatUnitsSplits(lib: Library, chunked: bool, batches: seq<seq<Event>>, n: nat)
    requires BatchesEncode(lib, batches) && n <= |batches|
    ensures CatUnits(lib, chunked, batches) == CatUnits(lib, chunked, batches[..n])
            + CatUnits(lib, chunked, batches[n..])
    decreases n
  {
    hide UnitBytes;
    if n == 0 {
      assert batches[0..] == batches;
    } else {
      CatUnitsSplits(lib, chunked, batches[1..], n - 1);
      assert batches[..n][1..] == batches[1..][..n - 1];
      assert batches[1..][n - 1..] == batches[n..];
    }
  }

  lemma {:induction false} CompleteUnitsFitTheCut(lib: Library, chunked: bool, batches: seq<seq<Event>>, k: nat)
    requires BatchesEncode(lib, batches) && k <= |CatUnits(lib, chunked, batches)|
    ensures var n := CompleteUnits(lib, chunked, batches, k);
            var done := |CatUnits(lib, chunked, batches[..n])|;
            done <= k && (done < k ==> n < |batches| && k - done < |UnitBytes(lib, chunked, batches[n])|)
  {
    hide UnitBytes;
    if batches != [] && k >= |UnitBytes(lib, chunked, batches[0])| {
      CompleteUnitsFitTheCut(lib, chunked, batches[1..], k - |UnitBytes(lib, chunked, batches[0])|);
      var n := CompleteUnits(lib, chunked, batches, k);
      assert batches[..n][1..] == batches[1..][..n - 1];
    }
  }

  /** Units cut anywhere are the complete ones, then a strict prefix of the next. */
  lemma CutArea(lib: Library, chunked: bool, batches: seq<seq<Event>>, k: nat) returns (part: seq<byte>)
    requires BatchesEncode(lib, batches) && k <= |CatUnits(lib, chunked, batches)|
    ensures var n := CompleteUnits(lib, chunked, batches, k);
            && CatUnits(lib, chunked, batches)[..k] == CatUnits(lib, chunked, batches[..n]) + part
            && (part != [] ==>
                  n < |batches| && part <= UnitBytes(lib, chunked, batches[n])
                      && |part| < |UnitBytes(lib, chunked, batches[n])|)
  {
    hide UnitBytes, CompleteUnits;
    var n := CompleteUnits(lib, chunked, batches, k);
    CompleteUnitsFitTheCut(lib, chunked, batches, k);
    CatUnitsSplits(lib, chunked, batches, n);
    var m := k - |CatUnits(lib, chunked, batches[..n])|;
    part := CatUnits(lib, chunked, batches[n..])[..m];
    if m > 0 {
      assert batches[n..][0] == batches[n];
    }
  }

  /** A chunk cut short is not taken for a chunk. */
  lemma CutChunkIsRefused(lib: Library, pre: seq<byte>, part: seq<byte>, batch: seq<Event>)
    requires Lawful(lib) && ChunkFits(lib, batch)
    requires part <= UnitBytes(lib, true, batch) && |part| < |UnitBytes(lib, true, batch)|
    ensures TryChunk(lib, pre + part, |pre|, |pre + part|, false).None?
  {
    hide DecodeChunkSpec, ToLE, FromLE, Frames;
    if |part| >= 4 {
      var c := lib.compress(Frames(lib, batch));
      assert part[..4] == UnitBytes(lib, true, batch)[..4] == ToLE(|c|, 4);
      assert pre + part == pre + ToLE(|c|, 4) + part[4..];
      ReadBackU32(pre, |c|, part[4..]);
    }
  }

  /** A chunk file cut at any byte: the scan gives every event of every complete chunk first,
      and reports damage exactly when the cut is not on a chunk boundary. */
  lemma ScanOfACutFile(lib: Library, batches: seq<seq<Event>>, k: nat)
    requires Lawful(lib) && AllChunksFit(lib, batches)
    requires |HEAD_MAGIC| <= k <= |ChunkFile(lib, batches)|
    ensures var n := CompleteUnits(lib, true, batches, k - |HEAD_MAGIC|);
            var scan := ScanSpec(lib, ChunkFile(lib, batches)[..k], |HEAD_MAGIC|, k);
            && Flatten(batches[..n]) <= scan.events
            && (scan.damage == [] <==> k == |ChunkFile(lib, batches[..n])|)
            && (scan.damage == [] ==> scan.events == Flatten(batches[..n]))
  {
    hide TryChunk, FindResync, UnitBytes, CatUnits, CompleteUnits, Flatten;
    var buf := ChunkFile(lib, batches)[..k];
    var n := CompleteUnits(lib, true, batches, k - |HEAD_MAGIC|);
    var part := CutArea(lib, true, batches, k - |HEAD_MAGIC|);
    var whole := CatUnits(lib, true, batches[..n]);
    assert buf == HEAD_MAGIC + CatUnits(lib, true, batches)[..k - |HEAD_MAGIC|] == (HEAD_MAGIC + whole) + part;
    assert buf[|HEAD_MAGIC|..|HEAD_MAGIC + whole|] == whole;
    ScanWrittenChunks(lib, buf, |HEAD_MAGIC|, batches[..n], k);
    if part != [] {
      CutChunkIsRefused(lib, HEAD_MAGIC + whole, part, batches[n]);
    }
  }

  // ----- a file with damaged regions -----

  datatype Segment = Intact(batch: seq<Event>) | Junk(bytes: seq<byte>)

  ghost predicate SegmentsFit(lib: Library, segs: seq<Segment>)
  {
    && (forall i :: 0 <= i < |segs| ==> match segs[i] case Intact(b) => ChunkFits(lib, b) case Junk(b) => b != [])
    && (forall i :: 0 <= i < |segs| - 1 ==> !(segs[i].Junk? && segs[i + 1].Junk?))
  }

  ghost function SegmentBytes(lib: Library, s: Segment): (r: seq<byte>)
    requires s.Intact? ==> ChunkFits(lib, s.batch)
  {
    match s case Intact(b) => UnitBytes(lib, true, b) case Junk(b) => b
  }

  ghost function CatSegments(lib: Library, segs: seq<Segment>): (r: seq<byte>)
    requires SegmentsFit(lib, segs)
  {
    if segs == [] then [] else SegmentBytes(lib, segs[0]) + CatSegments(lib, segs[1..])
  }

  ghost function IntactEvents(segs: seq<Segment>): (r: seq<Event>)
  {
    if segs == [] then []
    else (match segs[0] case Intact(b) => b case Junk(_) => []) + IntactEvents(segs[1..])
  }

  /** One report per damaged region, naming exactly its bytes. */
  ghost function DamageOf(lib: Library, segs: seq<Segment>, at: nat): (r: seq<Damage>)
    requires SegmentsFit(lib, segs)
  {
    if segs == [] then []
    else match segs[0]
      case Intact(b) => DamageOf(lib, segs[1..], at + |UnitBytes(lib, true, b)|)
      case Junk(b) =>
        [if |segs| == 1 then LastBytes(|b|) else Skipped(at, at + |b|)] + DamageOf(lib, segs[1..], at + |b|)
  }

  /** No damaged region starts with what decodes as a chunk, and none holds a decodable chunk with a checksum further
      on; bytes without a checksum that happen to decode there are allowed. */
  ghost predicate NoFalseChunk(lib: Library, buf: seq<byte>, segs: seq<Segment>, at: nat)
    requires SegmentsFit(lib, segs)
  {
    segs == [] ||
    (&& (segs[0].Junk? ==>
           && TryChunk(lib, buf, at, |buf|, false).None?
           && forall p :: at < p < at + |segs[0].bytes| ==> TryChunk(lib, buf, p, |buf|, true).None?)
     && NoFalseChunk(lib, buf, segs[1..], at + |SegmentBytes(lib, segs[0])|))
  }

  lemma FindResyncSkipsJunk(lib: Library, buf: seq<byte>, p: nat, q: nat, end: nat)
    requires p <= q <= end <= |buf|
    requires forall i :: p <= i < q ==> TryChunk(lib, buf, i, end, true).None?
    requires q < end ==> TryChunk(lib, buf, q, end, true).Some?
    ensures FindResync(lib, buf, p, end) == if q < end then Some(q) else None
  {
    hide TryChunk;
  }

  lemma ScanSkipsJunk(lib: Library, buf: seq<byte>, p: nat, q: nat)
    requires p < q <= |buf|
    requires TryChunk(lib, buf, p, |buf|, false).None?
    requires forall i :: p < i < q ==> TryChunk(lib, buf, i, |buf|, true).None?
    requires q < |buf| ==> TryChunk(lib, buf, q, |buf|, true).Some?
    ensures ScanSpec(lib, buf, p, |buf|) ==
            if q == |buf| then Scan([], [LastBytes(q - p)])
            else var rest := ScanSpec(lib, buf, q, |buf|); rest.(damage := [Skipped(p, q)] + rest.damage)
  {
    hide TryChunk, FindResync;
    FindResyncSkipsJunk(lib, buf, p + 1, q, |buf|);
  }

  lemma FirstSegmentInPlace(lib: Library, buf: seq<byte>, at: nat, segs: seq<Segment>)
    requires SegmentsFit(lib, segs) && segs != [] && at <= |buf| && buf[at..] == CatSegments(lib, segs)
    ensures SegmentsFit(lib, segs[1..])
    ensures var next := at + |SegmentBytes(lib, segs[0])|;
            next <= |buf| && buf[at..next] == SegmentBytes(lib, segs[0]) && buf[next..] == CatSegments(lib, segs[1..])
  {
    hide SegmentBytes;
    var n := |SegmentBytes(lib, segs[0])|;
    assert buf[at..][n..] == buf[at + n..] && buf[at..][..n] == buf[at..at + n];
  }

  /** Whatever the damage, when no false chunk is taken for a true one every intact chunk is
      recovered, in order, and each damaged region is reported once. */
  lemma {:induction false} ScanRecoversEveryIntactChunk(lib: Library, buf: seq<byte>, at: nat, segs: seq<Segment>)
    requires Lawful(lib) && SegmentsFit(lib, segs)
    requires at <= |buf| && buf[at..] == CatSegments(lib, segs)
    requires NoFalseChunk(lib, buf, segs, at)
    ensures ScanSpec(lib, buf, at, |buf|) == Scan(IntactEvents(segs), DamageOf(lib, segs, at))
    decreases |segs|
  {
    hide TryChunk, UnitBytes, FindResync, Lawful, ScanSpec, CatSegments;
    if segs == [] {
      assert buf[at..] == [] by {
        NoSegments(lib);
      }
      ScanEnds(lib, buf, at, |buf|);
    } else {
      FirstSegmentInPlace(lib, buf, at, segs);
      var next, more := at + |SegmentBytes(lib, segs[0])|, segs[1..];
      ScanRecoversEveryIntactChunk(lib, buf, next, more);
      match segs[0] {
        case Intact(b) =>
          TryWrittenChunk(lib, buf, at, b, |buf|, false);
          ScanTakesAChunk(lib, buf, at, |buf|);
        case Junk(b) =>
          JunkThenChunk(lib, buf, next, more);
          ScanSkipsJunk(lib, buf, at, next);
      }
    }
  }

  lemma NoSegments(lib: Library)
    ensures CatSegments(lib, []) == []
  {
  }

  lemma JunkThenChunk(lib: Library, buf: seq<byte>, at: nat, segs: seq<Segment>)
    requires Lawful(lib) && SegmentsFit(lib, segs) && (segs != [] ==> segs[0].Intact?)
    requires at <= |buf| && buf[at..] == CatSegments(lib, segs)
    ensures segs == [] <==> at == |buf|
    ensures at < |buf| ==> TryChunk(lib, buf, at, |buf|, true).Some?
  {
    hide TryChunk, Lawful, UnitBytes;
    if segs == [] {
      assert buf[at..] == [];
    } else {
      ChunkAtFront(lib, buf, at, segs);
    }
  }

  lemma ChunkAtFront(lib: Library, buf: seq<byte>, at: nat, segs: seq<Segment>)
    requires Lawful(lib) && SegmentsFit(lib, segs) && segs != [] && segs[0].Intact?
    requires at <= |buf| && buf[at..] == CatSegments(lib, segs)
    ensures at < |buf| && TryChunk(lib, buf, at, |buf|, true).Some?
  {
    hide TryChunk, UnitBytes;
    var chunk := UnitBytes(lib, true, segs[0].batch);
    assert buf[at..at + |chunk|] == buf[at..][..|chunk|] == chunk;
    TryWrittenChunk(lib, buf, at, segs[0].batch, |buf|, true);
  }
}
