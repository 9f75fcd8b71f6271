/** Length-prefixed event frames: `u32_le(length) || cbor`. */
module Codec {
  import opened Bytes
  import opened Events
  import opened Externals

  const MAX_FRAME_BYTES: nat := 16 * 1024 * 1024

  datatype CodecError = CborEncode | CborDecode | FrameTooLarge(len: u32) | Truncated

  datatype EncodeResult = Encoded(bytes: seq<byte>) | Refused(error: CodecError)

  function Frame(body: seq<byte>): (r: seq<byte>) { ToLE(|body|, 4) + body }

  function EncodeSpec(lib: Library, e: Event): (r: EncodeResult)
  {
    match lib.encode(e)
    case None => Refused(CborEncode)
    case Some(body) =>
      if |body| > MAX_FRAME_BYTES then Refused(FrameTooLarge(Min(|body|, 0xFFFF_FFFF)))
      else Encoded(Frame(body))
  }

  predicate Encodable(lib: Library, e: Event)
  {
    lib.encode(e).Some? && |lib.encode(e).value| <= MAX_FRAME_BYTES
  }

  predicate AllEncodable(lib: Library, evs: seq<Event>)
  {
    forall i :: 0 <= i < |evs| ==> Encodable(lib, evs[i])
  }

  /** The frames of `evs`, one after the other. */
  function Frames(lib: Library, evs: seq<Event>): (b: seq<byte>)
    requires AllEncodable(lib, evs)
    ensures |b| >= 4 * |evs|
  {
    if evs == [] then []
    else Frames(lib, evs[..|evs| - 1]) + Frame(lib.encode(evs[|evs| - 1]).value)
  }

  /** The source fills a buffer behind four zero bytes, then patches the length in. */
  method EncodeFrame(lib: Library, e: Event) returns (r: EncodeResult)
    ensures r == EncodeSpec(lib, e)
    ensures r.Encoded? <==> Encodable(lib, e)
  {
    var buf: seq<byte> := [0, 0, 0, 0];
    match lib.encode(e) {
      case None => return Refused(CborEncode);
      case Some(cbor) => buf := buf + cbor;
    }
    var body := |buf| - 4;
    if body > MAX_FRAME_BYTES {
      return Refused(FrameTooLarge(Min(body, 0xFFFF_FFFF)));
    }
    var prefix := ToLE(body, 4);
    var i := 0;
    while i < 4
      invariant 0 <= i <= 4
      invariant |buf| == body + 4
      invariant buf[..i] == prefix[..i] && buf[4..] == lib.encode(e).value
    {
      buf := buf[i := prefix[i]];
      i := i + 1;
    }
    assert buf == buf[..4] + buf[4..];
    return Encoded(buf);
  }

  /** What one read at the start of `data` yields: nothing at a clean end, an event and
      the bytes it took, or an error and how many bytes were consumed before it. */
  datatype ReadResult = CleanEnd | Got(event: Event, used: nat) | Bad(used: nat, error: CodecError)

  function ReadSpec(lib: Library, data: seq<byte>): (r: ReadResult)
    ensures r.Got? ==> 4 <= r.used <= |data|
    ensures r.Bad? ==> r.used <= |data|
  {
    if data == [] then CleanEnd
    else if |data| < 4 then Bad(|data|, Truncated)
    else
      FromLE4Bound(data[..4]);
      var len := FromLE(data[..4]);
      if len > MAX_FRAME_BYTES then Bad(4, FrameTooLarge(len))
      else if |data| < 4 + len then Bad(|data|, Truncated)
      else match lib.decode(data[4..4 + len])
        case None => Bad(4 + len, CborDecode)
        case Some(e) => Got(e, 4 + len)
  }

  /** A reader that may return fewer bytes than asked for, as `std::io::Read` allows. */
  class ByteReader {
    const data: seq<byte>
    var pos: nat

    ghost predicate Valid() reads this { pos <= |data| }

    constructor (data: seq<byte>)
      ensures Valid() && pos == 0 && this.data == data
    {
      this.data := data;
      pos := 0;
    }

    method Read(want: nat) returns (chunk: seq<byte>)
      requires Valid()
      modifies this
      ensures Valid() && pos == old(pos) + |chunk| && chunk == data[old(pos)..pos]
      ensures |chunk| <= want
      ensures chunk == [] ==> want == 0 || pos == |data|
    {
      if want == 0 || pos == |data| {
        return [];
      }
      var n: nat :| 1 <= n <= want && n <= |data| - pos;
      chunk := data[pos..pos + n];
      pos := pos + n;
    }

    /** `read_exact`: loops over short reads; false when the data ends first. */
    method ReadExact(want: nat) returns (ok: bool, got: seq<byte>)
      requires Valid()
      modifies this
      ensures Valid() && pos == old(pos) + |got| && got == data[old(pos)..pos]
      ensures ok <==> old(pos) + want <= |data|
      ensures ok ==> |got| == want
      ensures !ok ==> pos == |data|
    {
      got := [];
      while |got| < want
        invariant Valid() && |got| <= want
        invariant pos == old(pos) + |got| && got == data[old(pos)..pos]
        decreases want - |got|
      {
        var chunk := Read(want - |got|);
        if chunk == [] {
          return false, got;
        }
        got := got + chunk;
      }
      return true, got;
    }
  }

  /** Short reads never change what a frame reads as. */
  method ReadFrame(lib: Library, r: ByteReader) returns (res: ReadResult)
    requires r.Valid()
    modifies r
    ensures r.Valid()
    ensures res == ReadSpec(lib, r.data[old(r.pos)..])
    ensures r.pos == old(r.pos) + (match res case CleanEnd => 0 case Got(_, n) => n case Bad(n, _) => n)
  {
    ghost var rest := r.data[r.pos..];
    var header := r.Read(4);
    if header == [] {
      return CleanEnd;
    }
    while |header| < 4
      invariant r.Valid() && 1 <= |header| <= 4
      invariant r.pos == old(r.pos) + |header| && header == rest[..|header|]
      decreases 4 - |header|
    {
      var more := r.Read(4 - |header|);
      if more == [] {
        return Bad(|header|, Truncated);
      }
      header := header + more;
    }
    FromLE4Bound(header);
    var len := FromLE(header);
    if len > MAX_FRAME_BYTES {
      return Bad(4, FrameTooLarge(len));
    }
    var ok, payload := r.ReadExact(len);
    if !ok {
      return Bad(4 + |payload|, Truncated);
    }
    assert payload == rest[4..4 + len];
    match lib.decode(payload) {
      case None => return Bad(4 + len, CborDecode);
      case Some(e) => return Got(e, 4 + len);
    }
  }

  /** Reading back an encoded event gives that event, and leaves what follows untouched. */
  lemma ReadAfterEncode(lib: Library, e: Event, rest: seq<byte>)
    requires LawfulCbor(lib) && Encodable(lib, e)
    ensures ReadSpec(lib, Frame(lib.encode(e).value) + rest) == Got(e, |Frame(lib.encode(e).value)|)
  {
    var body := lib.encode(e).value;
    var data := Frame(body) + rest;
    LE4(|body|);
    assert data[..4] == ToLE(|body|, 4);
    assert data[4..4 + |body|] == body;
  }

  lemma {:induction false} FramesAppend(lib: Library, a: seq<Event>, b: seq<Event>)
    requires AllEncodable(lib, a) && AllEncodable(lib, b)
    ensures AllEncodable(lib, a + b)
    ensures Frames(lib, a + b) == Frames(lib, a) + Frames(lib, b)
    decreases |b|
  {
    if b == [] {
      assert a + b == a;
    } else {
      var last := |b| - 1;
      FramesAppend(lib, a, b[..last]);
      assert (a + b)[..|a + b| - 1] == a + b[..last];
    }
  }

  datatype Problem = Problem(at: nat, error: CodecError)

  /** Events read before the first failure, and that failure with its byte position. */
  datatype Parsed = Parsed(events: seq<Event>, problem: Option<Problem>)

  /** Reading frame after frame with `ReadFrame` until the end or the first error;
      `base` is the position of `data[0]`. This is the reference every other reader is compared to. */
  function ParseSpec(lib: Library, data: seq<byte>, base: nat): (p: Parsed)
    decreases |data|
  {
    match ReadSpec(lib, data)
    case CleanEnd => Parsed([], None)
    case Bad(n, err) => Parsed([], Some(Problem(base + n, err)))
    case Got(e, n) =>
      var rest := ParseSpec(lib, data[n..], base + n);
      rest.(events := [e] + rest.events)
  }

  /** One step of `ParseSpec`. */
  lemma ParseUnfolds(lib: Library, data: seq<byte>, base: nat)
    ensures ParseSpec(lib, data, base) ==
            match ReadSpec(lib, data)
            case CleanEnd => Parsed([], None)
            case Bad(n, err) => Parsed([], Some(Problem(base + n, err)))
            case Got(e, n) =>
              var rest := ParseSpec(lib, data[n..], base + n);
              rest.(events := [e] + rest.events)
  {
    hide ReadSpec;
  }

  lemma ParseAfterFrame(lib: Library, e: Event, rest: seq<byte>, base: nat)
    requires LawfulCbor(lib) && Encodable(lib, e)
    ensures var f := Frame(lib.encode(e).value);
            var tail := ParseSpec(lib, rest, base + |f|);
            ParseSpec(lib, f + rest, base) == tail.(events := [e] + tail.events)
  {
    var f := Frame(lib.encode(e).value);
    ReadAfterEncode(lib, e, rest);
    assert (f + rest)[|f|..] == rest;
  }

  /** Encoding a batch and reading it back frame by frame gives the batch, then whatever follows it. */
  lemma {:induction false} ParseAfterFrames(lib: Library, evs: seq<Event>, rest: seq<byte>, base: nat)
    requires LawfulCbor(lib) && AllEncodable(lib, evs)
    ensures var tail := ParseSpec(lib, rest, base + |Frames(lib, evs)|);
            ParseSpec(lib, Frames(lib, evs) + rest, base) == tail.(events := evs + tail.events)
    decreases |evs|
  {
    hide ParseSpec;
    if evs == [] {
      assert Frames(lib, evs) + rest == rest;
    } else {
      var init, e := evs[..|evs| - 1], evs[|evs| - 1];
      var f := Frame(lib.encode(e).value);
      assert Frames(lib, evs) + rest == Frames(lib, init) + (f + rest);
      ParseAfterFrames(lib, init, f + rest, base);
      ParseAfterFrame(lib, e, rest, base + |Frames(lib, init)|);
      assert evs == init + [e];
    }
  }
}
