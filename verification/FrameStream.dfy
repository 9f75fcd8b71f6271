/** The streaming frame parser: one unit's data, fed in pieces cut anywhere. */
module FrameStream {
  import opened Bytes
  import opened Events
  import opened Externals
  import opened Codec
  import opened Delivery

  // ----- cutting a buffer into frames -----

  /** What `split_frames` returns describes the buffer: consecutive complete frames, the
      bytes they span, and an impossible header right behind them, if there is one. */
  ghost predicate IsSplit(buf: seq<byte>, frames: seq<(nat, nat)>, consumed: nat, bad: Option<Problem>)
  {
    && consumed <= |buf|
    && (forall i :: 0 <= i < |frames| ==> FrameAt(buf, frames, consumed, i))
    && (frames == [] ==> consumed == 0)
    && (frames != [] ==> frames[0].0 == 0)
    && (bad.None? ==> ReadsShort(buf[consumed..]))
    && (bad.Some? ==> |buf| - consumed >= 4 && FromLE(buf[consumed..consumed + 4]) > MAX_FRAME_BYTES
                      && 0 <= FromLE(buf[consumed..consumed + 4]) < 0x1_0000_0000
                      && bad.value == Problem(consumed + 4, FrameTooLarge(FromLE(buf[consumed..consumed + 4]))))
  }

  ghost predicate FrameAt(buf: seq<byte>, frames: seq<(nat, nat)>, consumed: nat, i: nat)
    requires i < |frames|
  {
    var (start, len) := frames[i];
    && start + 4 + len <= |buf| && len <= MAX_FRAME_BYTES && FromLE(buf[start..start + 4]) == len
    && start + 4 + len == (if i + 1 < |frames| then frames[i + 1].0 else consumed)
  }

  /** Neither a complete frame nor an impossible header. */
  ghost predicate ReadsShort(buf: seq<byte>)
  {
    |buf| < 4 || (FromLE(buf[..4]) <= MAX_FRAME_BYTES && |buf| < 4 + FromLE(buf[..4]))
  }

  method SplitFrames(buf: seq<byte>) returns (frames: seq<(nat, nat)>, consumed: nat, bad: Option<Problem>)
    ensures IsSplit(buf, frames, consumed, bad)
  {
    hide FromLE;
    frames, consumed := [], 0;
    while consumed + 4 <= |buf|
      invariant consumed <= |buf|
      invariant forall i :: 0 <= i < |frames| ==> FrameAt(buf, frames, consumed, i)
      invariant frames == [] ==> consumed == 0
      invariant frames != [] ==> frames[0].0 == 0
      decreases |buf| - consumed
    {
      FromLE4Bound(buf[consumed..consumed + 4]);
      var len := FromLE(buf[consumed..consumed + 4]);
      assert buf[consumed..][..4] == buf[consumed..consumed + 4];
      if len > MAX_FRAME_BYTES {
        return frames, consumed, Some(Problem(consumed + 4, FrameTooLarge(len)));
      }
      var end := consumed + 4 + len;
      if end > |buf| {
        return frames, consumed, None;
      }
      ghost var before := frames;
      frames := frames + [(consumed, len)];
      forall i | 0 <= i < |frames|
        ensures FrameAt(buf, frames, end, i)
      {
        assert i < |before| ==> FrameAt(buf, before, consumed, i);
      }
      consumed := end;
    }
    bad := None;
  }

  // ----- decoding the frames, possibly on several threads -----

  function DecodeOne(lib: Library, buf: seq<byte>, f: (nat, nat)): (r: Option<Event>)
  {
    if f.0 + 4 + f.1 <= |buf| then lib.decode(buf[f.0 + 4..f.0 + 4 + f.1]) else None
  }

  function DecodeFrames(lib: Library, buf: seq<byte>, frames: seq<(nat, nat)>): (r: seq<Option<Event>>)
    ensures |r| == |frames|
    ensures forall i :: 0 <= i < |frames| ==> r[i] == DecodeOne(lib, buf, frames[i])
  {
    if frames == [] then []
    else [DecodeOne(lib, buf, frames[0])] + DecodeFrames(lib, buf, frames[1..])
  }

  /** Slices of `per` frames, each decoded on its own, results joined in order. */
  function DecodeInSlices(lib: Library, buf: seq<byte>, frames: seq<(nat, nat)>, per: nat): (r: seq<Option<Event>>)
    requires per > 0
    decreases |frames|
  {
    if |frames| <= per then DecodeFrames(lib, buf, frames)
    else DecodeFrames(lib, buf, frames[..per]) + DecodeInSlices(lib, buf, frames[per..], per)
  }

  /** However the frames are spread over threads, the joined result is the sequential one. */
  lemma {:induction false} SlicedDecodingIsSequential(lib: Library, buf: seq<byte>, frames: seq<(nat, nat)>, per: nat)
    requires per > 0
    ensures DecodeInSlices(lib, buf, frames, per) == DecodeFrames(lib, buf, frames)
    decreases |frames|
  {
    if |frames| > per {
      SlicedDecodingIsSequential(lib, buf, frames[per..], per);
    }
  }

  // ----- the parser's state as a value -----

  datatype ParserState = ParserState(carry: seq<byte>, base: nat, failed: bool)

  /** The events of the complete frames, the bytes left over and where they stand, and a final problem if one was
      met. */
  datatype Drained = Drained(events: seq<Event>, carry: seq<byte>, base: nat, problem: Option<Problem>)

  function Drain(lib: Library, carry: seq<byte>, base: nat): (r: Drained)
    decreases |carry|
  {
    match ReadSpec(lib, carry)
    case Got(e, n) =>
      var d := Drain(lib, carry[n..], base + n);
      d.(events := [e] + d.events)
    case CleanEnd => Drained([], [], base, None)
    case Bad(n, err) =>
      if err == Truncated then Drained([], carry, base, None)
      else Drained([], [], base, Some(Problem(base + n, err)))
  }

  datatype Fed = Fed(events: seq<Event>, next: ParserState, problem: Option<Problem>)

  function FeedSpec(lib: Library, st: ParserState, piece: seq<byte>): (r: Fed)
  {
    if st.failed then Fed([], st, None)
    else
      var d := Drain(lib, st.carry + piece, st.base);
      Fed(d.events,
          if d.problem.Some? then ParserState([], st.base, true) else ParserState(d.carry, d.base, false),
          d.problem)
  }

  function FinishSpec(st: ParserState): (r: Option<Problem>)
  {
    if !st.failed && st.carry != [] then Some(Problem(st.base + |st.carry|, Truncated)) else None
  }

  /** Feeding every piece, then finishing. */
  function RunPieces(lib: Library, st: ParserState, pieces: seq<seq<byte>>): (r: Parsed)
    decreases |pieces|
  {
    if pieces == [] then Parsed([], FinishSpec(st))
    else
      var d := FeedSpec(lib, st, pieces[0]);
      var rest := RunPieces(lib, d.next, pieces[1..]);
      Parsed(d.events + rest.events, if d.problem.Some? then d.problem else rest.problem)
  }

  function Join(pieces: seq<seq<byte>>): (r: seq<byte>)
  {
    if pieces == [] then [] else pieces[0] + Join(pieces[1..])
  }

  lemma ReadSpecExtends(lib: Library, data: seq<byte>, more: seq<byte>)
    ensures match ReadSpec(lib, data)
            case Got(e, n) => ReadSpec(lib, data + more) == Got(e, n)
            case Bad(n, err) => if err == Truncated then n == |data| > 0 else ReadSpec(lib, data + more) == Bad(n, err)
            case CleanEnd => data == []
  {
    hide FromLE;
    if |data| >= 4 {
      assert (data + more)[..4] == data[..4];
      var len := FromLE(data[..4]);
      FromLE4Bound(data[..4]);
      if 4 + len <= |data| {
        assert (data + more)[4..4 + len] == data[4..4 + len];
      }
    }
  }

  function Prepend(evs: seq<Event>, p: Parsed): (r: Parsed) { p.(events := evs + p.events) }

  /** Draining loses nothing: what was not consumed, followed by any later bytes, still parses to the rest. */
  lemma {:induction false} DrainThenParse(lib: Library, carry: seq<byte>, base: nat, more: seq<byte>)
    ensures var d := Drain(lib, carry, base);
            ParseSpec(lib, carry + more, base) ==
            Prepend(d.events, if d.problem.Some? then Parsed([], d.problem) else ParseSpec(lib, d.carry + more, d.base))
    decreases |carry|
  {
    hide ReadSpec, ParseSpec;
    ReadSpecExtends(lib, carry, more);
    ParseUnfolds(lib, carry + more, base);
    match ReadSpec(lib, carry) {
      case Got(e, n) =>
        DrainThenParse(lib, carry[n..], base + n, more);
        assert (carry + more)[n..] == carry[n..] + more;
      case CleanEnd =>
      case Bad(n, err) =>
    }
  }

  /** What draining leaves over is at most one frame cut short. */
  lemma {:induction false} DrainLeavesAtMostACutFrame(lib: Library, carry: seq<byte>, base: nat)
    ensures var d := Drain(lib, carry, base);
            d.problem.None? ==>
                  ParseSpec(lib, d.carry, d.base) == Parsed([], FinishSpec(ParserState(d.carry, d.base, false)))
    decreases |carry|
  {
    hide ReadSpec, ParseSpec;
    ReadSpecExtends(lib, carry, []);
    match ReadSpec(lib, carry) {
      case Got(e, n) => DrainLeavesAtMostACutFrame(lib, carry[n..], base + n);
      case CleanEnd => ParseUnfolds(lib, carry, base);
      case Bad(n, err) => ParseUnfolds(lib, carry, base);
    }
  }

  /** What is still to come out of a parser that has met `problem`, or none yet, once `more` is fed. */
  function StillToCome(lib: Library, st: ParserState, problem: Option<Problem>, more: seq<byte>): (r: Parsed)
  {
    if problem.Some? then Parsed([], problem) else ParseSpec(lib, st.carry + more, st.base)
  }

  /** The parser is failed exactly when it has met its problem, and otherwise holds at most one cut frame. */
  ghost predicate InStep(lib: Library, st: ParserState, problem: Option<Problem>)
  {
    && (st.failed <==> problem.Some?)
    && (!st.failed ==> ParseSpec(lib, st.carry, st.base) == Parsed([], FinishSpec(st)))
  }

  function FirstProblem(a: Option<Problem>, b: Option<Problem>): (r: Option<Problem>) { if a.Some? then a else b }

  /** One piece moves its events from "still to come" to "delivered", and nothing else changes. */
  lemma FeedMovesEvents(lib: Library, st: ParserState, problem: Option<Problem>, piece: seq<byte>, more: seq<byte>)
    requires InStep(lib, st, problem)
    ensures var d := FeedSpec(lib, st, piece);
            var problem' := FirstProblem(problem, d.problem);
            && InStep(lib, d.next, problem')
            && StillToCome(lib, st, problem, piece + more)
               == Prepend(d.events, StillToCome(lib, d.next, problem', more))
  {
    hide ParseSpec, Drain;
    if !st.failed {
      assert st.carry + (piece + more) == (st.carry + piece) + more;
      DrainThenParse(lib, st.carry + piece, st.base, more);
      DrainLeavesAtMostACutFrame(lib, st.carry + piece, st.base);
    }
  }

  /** Streaming equals batch from any point of a run. */
  lemma {:induction false} RunPiecesIsStillToCome(lib: Library, st: ParserState, problem: Option<Problem>,
      pieces: seq<seq<byte>>)
    requires InStep(lib, st, problem)
    ensures var run := RunPieces(lib, st, pieces);
            Parsed(run.events, FirstProblem(problem, run.problem)) == StillToCome(lib, st, problem, Join(pieces))
    decreases |pieces|
  {
    hide ParseSpec, Drain;
    if pieces == [] {
      assert st.carry + Join(pieces) == st.carry;
    } else {
      var d := FeedSpec(lib, st, pieces[0]);
      FeedMovesEvents(lib, st, problem, pieces[0], Join(pieces[1..]));
      RunPiecesIsStillToCome(lib, d.next, FirstProblem(problem, d.problem), pieces[1..]);
    }
  }

  /** Streaming equals batch: whatever the pieces a unit's data is cut into, the events and the
      one problem, with its byte position, are those of reading the joined data frame by frame. */
  lemma StreamingEqualsBatch(lib: Library, pieces: seq<seq<byte>>)
    ensures RunPieces(lib, ParserState([], 0, false), pieces) == ParseSpec(lib, Join(pieces), 0)
  {
    RunPiecesIsStillToCome(lib, ParserState([], 0, false), None, pieces);
    assert [] + Join(pieces) == Join(pieces);
  }

  // ----- the parser object -----

  /** Where frame `i` starts; behind the last one, where the remainder starts. */
  function StartOf(frames: seq<(nat, nat)>, consumed: nat, i: nat): (r: nat)
  {
    if i < |frames| then frames[i].0 else consumed
  }

  lemma SplitStartsAtZero(buf: seq<byte>, frames: seq<(nat, nat)>, consumed: nat, bad: Option<Problem>)
    requires IsSplit(buf, frames, consumed, bad)
    ensures StartOf(frames, consumed, 0) == 0 && consumed <= |buf|
  {
  }

  /** One frame of the split, seen by the reader. */
  lemma ReadSplitFrame(lib: Library, buf: seq<byte>, frames: seq<(nat, nat)>, consumed: nat, bad: Option<Problem>,
      i: nat)
    requires IsSplit(buf, frames, consumed, bad) && i < |frames|
    ensures var (start, len) := frames[i];
            && start + 4 + len <= |buf| && start + 4 + len == StartOf(frames, consumed, i + 1)
            && ReadSpec(lib, buf[start..]) ==
               (match DecodeOne(lib, buf, frames[i])
                case Some(e) => Got(e, 4 + len)
                case None => Bad(4 + len, CborDecode))
  {
    hide FromLE;
    assert FrameAt(buf, frames, consumed, i);
    var (start, len) := frames[i];
    var rest := buf[start..];
    assert rest[..4] == buf[start..start + 4];
    assert rest[4..4 + len] == buf[start + 4..start + 4 + len];
  }

  lemma DrainUnfolds(lib: Library, carry: seq<byte>, base: nat)
    ensures Drain(lib, carry, base) ==
            match ReadSpec(lib, carry)
            case Got(e, n) =>
              var d := Drain(lib, carry[n..], base + n);
              d.(events := [e] + d.events)
            case CleanEnd => Drained([], [], base, None)
            case Bad(n, err) =>
              if err == Truncated then Drained([], carry, base, None)
              else Drained([], [], base, Some(Problem(base + n, err)))
  {
    hide ReadSpec;
  }

  /** Draining frame by frame follows the split. */
  lemma DrainFollowsSplit(lib: Library, buf: seq<byte>, base: nat, frames: seq<(nat, nat)>, consumed: nat,
      bad: Option<Problem>, i: nat)
    requires IsSplit(buf, frames, consumed, bad) && i < |frames|
    ensures StartOf(frames, consumed, i) <= |buf| && StartOf(frames, consumed, i + 1) <= |buf|
    ensures var p, q := StartOf(frames, consumed, i), StartOf(frames, consumed, i + 1);
            Drain(lib, buf[p..], base + p) ==
            match DecodeOne(lib, buf, frames[i])
            case Some(e) =>
              var d := Drain(lib, buf[q..], base + q);
              d.(events := [e] + d.events)
            case None => Drained([], [], base + p, Some(Problem(base + (p + 4 + frames[i].1), CborDecode)))
  {
    hide ReadSpec, Drain, DecodeOne;
    ReadSplitFrame(lib, buf, frames, consumed, bad, i);
    var p, q := StartOf(frames, consumed, i), StartOf(frames, consumed, i + 1);
    assert buf[p..][q - p..] == buf[q..];
    DrainUnfolds(lib, buf[p..], base + p);
  }

  lemma DrainBehindSplit(lib: Library, buf: seq<byte>, base: nat, frames: seq<(nat, nat)>, consumed: nat,
      bad: Option<Problem>)
    requires IsSplit(buf, frames, consumed, bad)
    ensures Drain(lib, buf[consumed..], base + consumed) ==
            if bad.Some? then Drained([], [], base + consumed, Some(Problem(base + bad.value.at, bad.value.error)))
            else Drained([], buf[consumed..], base + consumed, None)
  {
    hide FromLE, Drain, FrameAt;
    var rest := buf[consumed..];
    if |rest| >= 4 {
      FromLE4Bound(rest[..4]);
      assert rest[..4] == buf[consumed..consumed + 4];
    }
    DrainUnfolds(lib, rest, base + consumed);
  }

  /** The events before the first frame that does not decode. */
  function GoodPrefix(decoded: seq<Option<Event>>): (r: seq<Event>)
  {
    if decoded == [] || decoded[0].None? then [] else [decoded[0].value] + GoodPrefix(decoded[1..])
  }

  /** The index of the first frame that does not decode; the number of frames when all do. */
  function FirstBad(decoded: seq<Option<Event>>): (i: nat)
    ensures i <= |decoded|
    ensures i < |decoded| ==> decoded[i].None?
  {
    if decoded == [] || decoded[0].None? then 0 else 1 + FirstBad(decoded[1..])
  }

  /** Draining is: decode every frame of the split, keep those before the first bad one, and
      stop at whichever comes first - the bad frame, the impossible header, or the cut frame. */
  lemma {:induction false} DrainIsSplitThenDecode(
    lib: Library, buf: seq<byte>, base: nat, frames: seq<(nat, nat)>, consumed: nat, bad: Option<Problem>,
    decoded: seq<Option<Event>>, i: nat)
    requires IsSplit(buf, frames, consumed, bad) && i <= |frames| == |decoded|
    requires forall k :: 0 <= k < |frames| ==> decoded[k] == DecodeOne(lib, buf, frames[k])
    ensures StartOf(frames, consumed, i) <= |buf|
    ensures var p := StartOf(frames, consumed, i);
            var f := i + FirstBad(decoded[i..]);
            var d := Drain(lib, buf[p..], base + p);
            && d.events == GoodPrefix(decoded[i..])
            && d.problem == (if f < |frames| then Some(Problem(base + (frames[f].0 + 4 + frames[f].1), CborDecode))
                             else if bad.Some? then Some(Problem(base + bad.value.at, bad.value.error)) else None)
            && (d.problem.None? ==> d.carry == buf[consumed..] && d.base == base + consumed)
    decreases |frames| - i
  {
    hide Drain, DecodeOne, IsSplit;
    if i == |frames| {
      DrainBehindSplit(lib, buf, base, frames, consumed, bad);
      SplitStartsAtZero(buf, frames, consumed, bad);
    } else {
      DrainFollowsSplit(lib, buf, base, frames, consumed, bad, i);
      assert decoded[i..][1..] == decoded[i + 1..];
      if decoded[i].Some? {
        DrainIsSplitThenDecode(lib, buf, base, frames, consumed, bad, decoded, i + 1);
      }
    }
  }

  lemma DrainOfTheWhole(
    lib: Library, buf: seq<byte>, base: nat, frames: seq<(nat, nat)>, consumed: nat, bad: Option<Problem>,
    decoded: seq<Option<Event>>)
    requires IsSplit(buf, frames, consumed, bad) && |frames| == |decoded|
    requires forall k :: 0 <= k < |frames| ==> decoded[k] == DecodeOne(lib, buf, frames[k])
    ensures consumed <= |buf|
    ensures var f := FirstBad(decoded);
            var d := Drain(lib, buf, base);
            && d.events == GoodPrefix(decoded)
            && d.problem == (if f < |frames| then Some(Problem(base + (frames[f].0 + 4 + frames[f].1), CborDecode))
                             else if bad.Some? then Some(Problem(base + bad.value.at, bad.value.error)) else None)
            && (d.problem.None? ==> d.carry == buf[consumed..] && d.base == base + consumed)
  {
    hide Drain, DecodeOne, GoodPrefix, FirstBad;
    DrainIsSplitThenDecode(lib, buf, base, frames, consumed, bad, decoded, 0);
    SplitStartsAtZero(buf, frames, consumed, bad);
    assert buf[0..] == buf && decoded[0..] == decoded;
  }

  /** Hand over the decoded events one by one, up to the first bad frame or the sink's stop. */
  method PushDecoded(decoded: seq<Option<Event>>, sink: Sink) returns (bad: Option<nat>)
    requires !sink.stopped
    modifies sink
    ensures sink.State() == PushAll(sink.consumer, old(sink.State()), GoodPrefix(decoded))
    ensures bad == if sink.stopped || FirstBad(decoded) == |decoded| then None else Some(FirstBad(decoded))
  {
    hide PushSpec;
    var i := 0;
    while i < |decoded|
      invariant 0 <= i <= |decoded| && !sink.stopped
      invariant PushAll(sink.consumer, sink.State(), GoodPrefix(decoded[i..]))
                == PushAll(sink.consumer, old(sink.State()), GoodPrefix(decoded))
      invariant i + FirstBad(decoded[i..]) == FirstBad(decoded)
    {
      assert decoded[i..][1..] == decoded[i + 1..];
      match decoded[i] {
        case Some(e) =>
          sink.Push(e);
          if sink.stopped {
            PushAllAfterStop(sink.consumer, sink.State(), GoodPrefix(decoded[i + 1..]));
            return None;
          }
        case None => return Some(i);
      }
      i := i + 1;
    }
    bad := None;
  }

  class FrameParser {
    /** Added to positions in reports: where in the file the parsed unit begins. */
    const at: nat
    var carry: seq<byte>
    var base: nat
    var failed: bool

    constructor (at: nat)
      ensures this.at == at && State() == ParserState([], 0, false)
    {
      this.at := at;
      carry, base, failed := [], 0, false;
    }

    function State(): (r: ParserState)
      reads this
    {
      ParserState(carry, base, failed)
    }

    /** The whole effect of one piece: nothing once failed or stopped; else the events of the
        complete frames go to the sink, and unless the sink stops on the way the parser moves on as `FeedSpec` says. */
    method Feed(lib: Library, data: seq<byte>, sink: Sink) returns (problem: Option<Problem>)
      modifies this, sink
      ensures var d := FeedSpec(lib, old(State()), data);
              if old(sink.stopped) then problem.None? && State() == old(State()) && sink.State() == old(sink.State())
              else
                && sink.State() == PushAll(sink.consumer, old(sink.State()), d.events)
                && if sink.stopped
                   then problem.None? && State() == ParserState(old(carry) + data, old(base), false)
                   else problem == d.problem && State() == d.next
    {
      hide Drain, PushSpec, IsSplit, GoodPrefix, FirstBad, DecodeOne;
      if failed || sink.stopped {
        return None;
      }
      carry := carry + data;
      var buf := carry;
      var frames, consumed, impossible := SplitFrames(buf);
      var decoded := DecodeFrames(lib, buf, frames);
      DrainOfTheWhole(lib, buf, base, frames, consumed, impossible, decoded);
      var bad := PushDecoded(decoded, sink);
      if bad.Some? {
        problem := Fail(frames[bad.value].0 + 4 + frames[bad.value].1, CborDecode);
        return;
      }
      if sink.stopped {
        return None;
      }
      if impossible.Some? {
        problem := Fail(impossible.value.at, impossible.value.error);
        return;
      }
      carry := buf[consumed..];
      base := base + consumed;
      problem := None;
    }

    method Fail(posInCarry: nat, error: CodecError) returns (problem: Option<Problem>)
      modifies this
      ensures problem == Some(Problem(old(base) + posInCarry, error))
      ensures failed && carry == [] && base == old(base)
    {
      problem := Some(Problem(base + posInCarry, error));
      failed := true;
      carry := [];
    }

    /** Nothing more will come: bytes still held belong to a frame that misses its rest. */
    method Finish() returns (problem: Option<Problem>)
      ensures problem == FinishSpec(State())
    {
      if !failed && carry != [] {
        return Some(Problem(base + |carry|, Truncated));
      }
      return None;
    }
  }
}
