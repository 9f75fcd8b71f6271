/** The shared-memory ring: one writer, one reader that may run between any two of the
    writer's accesses. Head and tail count bytes since the ring was created. */
module Ring {
  import opened Arithmetic
  import opened Bytes
  import opened Events

  const FRAME_ALIGN: nat := 16
  const HEADER_BYTES: nat := 16
  const KIND_PAD: u32 := 0

  datatype Frame = Frame(kind: u32, ts: u64, body: seq<byte>)

  function FrameLen(f: Frame): (r: nat) { HEADER_BYTES + |f.body| }

  function HeaderBytes(len: nat, kind: u32, ts: u64): (b: seq<byte>)
    ensures |b| == HEADER_BYTES
  {
    ToLE(len, 4) + ToLE(kind, 4) + ToLE(ts, 8)
  }

  function FrameBytes(f: Frame): (b: seq<byte>)
    ensures |b| == FrameLen(f)
  {
    HeaderBytes(FrameLen(f), f.kind, f.ts) + f.body
  }

  function RoundAlign(n: nat): (r: nat)
    ensures n <= r < n + FRAME_ALIGN && r % FRAME_ALIGN == 0
  {
    (n + (FRAME_ALIGN - 1)) / FRAME_ALIGN * FRAME_ALIGN
  }

  function Zeros(n: nat): (b: seq<byte>)
    ensures |b| == n
    ensures forall i :: 0 <= i < n ==> b[i] == 0
  {
    if n == 0 then [] else Zeros(n - 1) + [0]
  }

  /** The record a payload becomes: padded with zeros to the frame alignment. */
  function RecordOf(kind: u32, ts: u64, payload: seq<byte>): (r: Frame)
  {
    Frame(kind, ts, payload + Zeros(RoundAlign(HEADER_BYTES + |payload|) - HEADER_BYTES - |payload|))
  }

  /** The records among frames: everything but padding. */
  function Records(q: seq<Frame>): (r: seq<Frame>)
  {
    if q == [] then [] else (if q[0].kind == KIND_PAD then [] else [q[0]]) + Records(q[1..])
  }

  lemma {:induction false} RecordsAppend(q: seq<Frame>, f: Frame)
    ensures Records(q + [f]) == Records(q) + if f.kind == KIND_PAD then [] else [f]
  {
    if q != [] {
      RecordsAppend(q[1..], f);
      assert (q + [f])[1..] == q[1..] + [f];
    }
  }

  // ----- what the bytes between tail and head hold -----

  /** The frames `q` lie one after the other from position `t` to position `h`, none crossing the buffer's end. */
  ghost predicate Holds(d: seq<byte>, t: nat, q: seq<Frame>, h: nat)
    requires |d| > 0
    decreases |q|
  {
    if q == [] then t == h
    else FrameIsAt(d, t, q[0]) && Holds(d, t + FrameLen(q[0]), q[1..], h)
  }

  ghost predicate FrameIsAt(d: seq<byte>, t: nat, f: Frame)
    requires |d| > 0
  {
    var off, n := t % |d|, FrameLen(f);
    off + n <= |d| && n % FRAME_ALIGN == 0 && d[off..off + n] == FrameBytes(f)
  }

  lemma {:induction false} HoldsSpan(d: seq<byte>, t: nat, q: seq<Frame>, h: nat)
    requires |d| > 0 && Holds(d, t, q, h)
    ensures t <= h && (q == [] <==> t == h)
    ensures q != [] ==> t + FrameLen(q[0]) <= h
    decreases |q|
  {
    hide FrameIsAt;
    if q != [] {
      HoldsSpan(d, t + FrameLen(q[0]), q[1..], h);
    }
  }

  lemma FramesAreAligned(d: seq<byte>, t: nat, f: Frame)
    requires |d| > 0 && FrameIsAt(d, t, f)
    ensures t % FRAME_ALIGN == 0 ==> (t + FrameLen(f)) % FRAME_ALIGN == 0
  {
    hide FrameBytes;
    AlignedSum(t, FrameLen(f));
  }

  lemma AlignedSum(a: nat, b: nat)
    requires b % FRAME_ALIGN == 0
    ensures a % FRAME_ALIGN == 0 ==> (a + b) % FRAME_ALIGN == 0
  {
  }

  /** A frame published at `h` joins the queue at its end. */
  lemma {:induction false} HoldsAppend(d: seq<byte>, t: nat, q: seq<Frame>, h: nat, f: Frame)
    requires |d| > 0 && Holds(d, t, q, h) && FrameIsAt(d, h, f)
    ensures Holds(d, t, q + [f], h + FrameLen(f))
    decreases |q|
  {
    hide FrameIsAt;
    if q == [] {
      assert ([f])[1..] == [];
    } else {
      HoldsAppend(d, t + FrameLen(q[0]), q[1..], h, f);
      assert (q + [f])[1..] == q[1..] + [f];
    }
  }

  /** Bytes between tail and head are not among the places `off..off + n`. */
  ghost predicate Outside(c: nat, t: nat, h: nat, off: nat, n: nat)
    requires c > 0
  {
    forall i {:trigger i % c} :: t <= i < h ==> !(off <= i % c < off + n)
  }

  lemma FreeSpaceIsOutside(c: nat, t: nat, h: nat, n: nat)
    requires c > 0 && t <= h && h - t + n <= c && h % c + n <= c
    ensures Outside(c, t, h, h % c, n)
  {
    forall i | t <= i < h
      ensures !(h % c <= i % c < h % c + n)
    {
      if h % c <= i % c < h % c + n {
        var k := i % c - h % c;
        StepMod(h, k, c);
        DistinctPlaces(i, h + k, c);
      }
    }
  }

  lemma FrameSurvives(d: seq<byte>, e: seq<byte>, t: nat, f: Frame, h: nat, off: nat, n: nat)
    requires |d| == |e| > 0 && FrameIsAt(d, t, f) && t + FrameLen(f) <= h && Outside(|d|, t, h, off, n)
    requires forall j :: 0 <= j < |d| && !(off <= j < off + n) ==> e[j] == d[j]
    ensures FrameIsAt(e, t, f)
  {
    hide FrameBytes;
    var p, m := t % |d|, FrameLen(f);
    forall j | p <= j < p + m
      ensures e[j] == d[j]
    {
      StepMod(t, j - p, |d|);
      assert (t + (j - p)) % |d| == j;
    }
    assert e[p..p + m] == d[p..p + m];
  }

  /** Writing elsewhere leaves every queued frame as it was. */
  lemma {:induction false} HoldsSurvives(d: seq<byte>, e: seq<byte>, t: nat, q: seq<Frame>, h: nat, off: nat, n: nat)
    requires |d| == |e| > 0 && Holds(d, t, q, h) && Outside(|d|, t, h, off, n)
    requires forall j :: 0 <= j < |d| && !(off <= j < off + n) ==> e[j] == d[j]
    ensures Holds(e, t, q, h)
    decreases |q|
  {
    hide FrameIsAt;
    if q != [] {
      HoldsSpan(d, t, q, h);
      FrameSurvives(d, e, t, q[0], h, off, n);
      OutsideTail(|d|, t, t + FrameLen(q[0]), h, off, n);
      HoldsSurvives(d, e, t + FrameLen(q[0]), q[1..], h, off, n);
    }
  }

  lemma OutsideTail(c: nat, t: nat, u: nat, h: nat, off: nat, n: nat)
    requires c > 0 && t <= u && Outside(c, t, h, off, n)
    ensures Outside(c, u, h, off, n)
  {
  }

  // ----- what the reader sees at its tail -----

  function ReadHeader(d: seq<byte>, off: nat): (r: (nat, nat, nat))
    requires off + HEADER_BYTES <= |d|
  {
    (FromLE(d[off..off + 4]), FromLE(d[off + 4..off + 8]), FromLE(d[off + 8..off + 16]))
  }

  lemma HeaderReadsBack(d: seq<byte>, off: nat, f: Frame)
    requires off + FrameLen(f) <= |d| && d[off..off + FrameLen(f)] == FrameBytes(f) && FrameLen(f) < 0x1_0000_0000
    ensures ReadHeader(d, off) == (FrameLen(f), f.kind, f.ts)
    ensures d[off + HEADER_BYTES..off + FrameLen(f)] == f.body
  {
    hide ToLE, FromLE, FrameBytes;
    FieldsOfFrame(f);
    var b, n := FrameBytes(f), FrameLen(f);
    SubSlice(d, off, b, 0, 4);
    SubSlice(d, off, b, 4, 8);
    SubSlice(d, off, b, 8, 16);
    SubSlice(d, off, b, 16, n);
    LE4(n); LE4(f.kind); LE8(f.ts);
  }

  lemma FieldsOfFrame(f: Frame)
    ensures var b, n := FrameBytes(f), FrameLen(f);
            b[0..4] == ToLE(n, 4) && b[4..8] == ToLE(f.kind, 4) && b[8..16] == ToLE(f.ts, 8) && b[16..n] == f.body
  {
    hide ToLE;
  }

  lemma SubSlice(d: seq<byte>, off: nat, b: seq<byte>, lo: nat, hi: nat)
    requires off + |b| <= |d| && d[off..off + |b|] == b && lo <= hi <= |b|
    ensures d[off + lo..off + hi] == b[lo..hi]
  {
    forall i | 0 <= i < hi - lo
      ensures d[off + lo..off + hi][i] == b[lo..hi][i]
    {
      assert d[off..off + |b|][lo + i] == b[lo + i];
    }
  }

  /** What the reader finds at a tail behind the head. */
  lemma FrontFrame(d: seq<byte>, t: nat, q: seq<Frame>, h: nat)
    requires 0 < |d| < 0x1_0000_0000 && Holds(d, t, q, h) && t != h
    ensures q != [] && FrameIsAt(d, t, q[0]) && t + FrameLen(q[0]) <= h && Holds(d, t + FrameLen(q[0]), q[1..], h)
    ensures FrameLen(q[0]) % FRAME_ALIGN == 0
    ensures t % |d| + FrameLen(q[0]) <= |d|
    ensures ReadHeader(d, t % |d|) == (FrameLen(q[0]), q[0].kind, q[0].ts)
    ensures d[t % |d| + HEADER_BYTES..t % |d| + FrameLen(q[0])] == q[0].body
  {
    hide FrameBytes, ReadHeader;
    HoldsSpan(d, t, q, h);
    HeaderReadsBack(d, t % |d|, q[0]);
  }

  class RingBuffer {
    const data: array<byte>
    var head: nat
    var tail: nat
    var dropped: nat
    /** False in a forked child, which must never write. */
    var writable: bool
    /** The frames between tail and head, padding included. */
    ghost var queue: seq<Frame>
    /** The records the reader has been handed. */
    ghost var delivered: seq<Frame>

    ghost predicate Valid()
      reads this, data
    {
      && 0 < data.Length < 0x1_0000_0000 && data.Length % FRAME_ALIGN == 0
      && tail <= head <= tail + data.Length && head % FRAME_ALIGN == 0
      && Holds(data[..], tail, queue, head)
    }

    /** Every record ever accepted, in order: those delivered, then those still in the ring. */
    ghost function History(): (r: seq<Frame>)
      reads this
    {
      delivered + Records(queue)
    }

    constructor (capacity: nat)
      requires 0 < capacity < 0x1_0000_0000 && capacity % FRAME_ALIGN == 0
      ensures Valid() && fresh(data) && data.Length == capacity
      ensures head == tail == dropped == 0 && History() == [] && writable
    {
      data := new byte[capacity](_ => 0);
      head, tail, dropped, writable := 0, 0, 0, true;
      queue, delivered := [], [];
    }

    // ----- the reader -----

    /** The next record, padding skipped; none when caught up. The reader's plausibility
        checks never fail on bytes this writer published. */
    method Next() returns (r: Option<Frame>)
      requires Valid()
      modifies this`tail, this`queue, this`delivered
      ensures Valid() && old(tail) <= tail
      ensures r.None? <==> Records(old(queue)) == []
      ensures r.None? ==> tail == head && delivered == old(delivered) && Records(queue) == []
      ensures r.Some? ==> Records(old(queue)) == [r.value] + Records(queue) && delivered == old(delivered) + [r.value]
    {
      hide Holds, ReadHeader, FrameIsAt;
      while tail != head
        invariant Valid() && old(tail) <= tail
        invariant Records(queue) == Records(old(queue)) && delivered == old(delivered)
        decreases head - tail
      {
        FrontFrame(data[..], tail, queue, head);
        ghost var f := queue[0];
        var offset := tail % data.Length;
        assert offset + HEADER_BYTES <= data.Length;
        var (len, kind, ts) := ReadHeader(data[..], offset);
        assert len >= HEADER_BYTES && offset + len <= data.Length && tail + len <= head;
        var body := data[offset + HEADER_BYTES..offset + len];
        tail := tail + len;
        queue := queue[1..];
        if kind != KIND_PAD {
          delivered := delivered + [f];
          return Some(Frame(kind, ts, body));
        }
      }
      HoldsSpan(data[..], tail, queue, head);
      r := None;
    }

    /** The reader runs for as long as it likes. */
    method ReaderRuns()
      requires Valid()
      modifies this`tail, this`queue, this`delivered
      ensures Valid() && old(tail) <= tail && History() == old(History())
    {
      hide Records, Holds;
      var steps: nat := *;
      while steps > 0
        invariant Valid() && old(tail) <= tail && History() == old(History())
      {
        ghost var d, q := delivered, queue;
        var r := Next();
        assert r.Some? ==> d + ([r.value] + Records(queue)) == (d + [r.value]) + Records(queue);
        steps := steps - 1;
      }
    }

    // ----- the writer -----

    /** `memcpy` into free space: only those bytes change, and no queued frame does. */
    method CopyIn(at: nat, bytes: seq<byte>, ghost lo: nat, ghost n: nat)
      requires Valid() && lo <= at && at + |bytes| <= lo + n <= data.Length
      requires Outside(data.Length, tail, head, lo, n)
      modifies data
      ensures Valid()
      ensures data[at..at + |bytes|] == bytes
      ensures forall j :: 0 <= j < data.Length && !(at <= j < at + |bytes|) ==> data[j] == old(data[j])
    {
      hide Holds, Outside;
      ghost var before := data[..];
      for i := 0 to |bytes|
        invariant forall j :: 0 <= j < i ==> data[at + j] == bytes[j]
        invariant forall j :: 0 <= j < data.Length && !(at <= j < at + i) ==> data[j] == before[j]
      {
        data[at + i] := bytes[i];
      }
      HoldsSurvives(before, data[..], tail, queue, head, lo, n);
    }

    /** Release the frame at the head: it joins the queue. */
    method Publish(len: nat, ghost f: Frame)
      requires Valid() && len == FrameLen(f) && head + len <= tail + data.Length && FrameIsAt(data[..], head, f)
      modifies this`head, this`queue
      ensures Valid() && head == old(head) + len && queue == old(queue) + [f]
    {
      hide Holds, FrameIsAt;
      HoldsAppend(data[..], tail, queue, head, f);
      FramesAreAligned(data[..], head, f);
      head := head + len;
      queue := queue + [f];
    }

    /** Room for a frame of `n` bytes, counting the padding a wrap costs. */
    predicate HasRoom(n: nat)
      reads this, data
    {
      var toEnd := data.Length - if data.Length > 0 then head % data.Length else 0;
      (if n <= toEnd then n else toEnd + n) <= data.Length - (head - tail)
    }

    /** Header, payload, zero fill, into free space; the reader may run between any two of these. */
    method StageFrame(off: nat, header: seq<byte>, payload: seq<byte>, fill: seq<byte>)
      requires Valid() && off + |header| + |payload| + |fill| <= data.Length
      requires Outside(data.Length, tail, head, off, |header| + |payload| + |fill|)
      modifies this`tail, this`queue, this`delivered, data
      ensures Valid() && old(tail) <= tail && History() == old(History())
      ensures data[off..off + |header| + |payload| + |fill|] == header + (payload + fill)
    {
      hide Holds, Outside, Records;
      ghost var n, t0 := |header| + |payload| + |fill|, tail;
      var p := off + |header|;
      CopyIn(off, header, off, n);
      ReaderRuns();
      OutsideTail(data.Length, t0, tail, head, off, n);
      CopyIn(p, payload, off, n);
      ReaderRuns();
      OutsideTail(data.Length, t0, tail, head, off, n);
      CopyIn(p + |payload|, fill, off, n);
      ReaderRuns();
      FrameInPlace(data[..], off, header, payload, fill);
    }

    /** Write one frame at the head, which has contiguous room for it, and publish it. */
    method PutFrame(kind: u32, ts: u64, payload: seq<byte>)
      requires Valid() && kind != KIND_PAD
      requires var n := RoundAlign(HEADER_BYTES + |payload|);
               head % data.Length + n <= data.Length && head - tail + n <= data.Length
      modifies this`head, this`tail, this`queue, this`delivered, data
      ensures Valid() && old(tail) <= tail && old(head) <= head
      ensures History() == old(History()) + [RecordOf(kind, ts, payload)]
    {
      hide Holds, FrameIsAt, FrameBytes, RoundAlign, Records, Outside, HeaderBytes, RecordOf, Zeros;
      ghost var f := RecordOf(kind, ts, payload);
      var n := RoundAlign(HEADER_BYTES + |payload|);
      FreeSpaceIsOutside(data.Length, tail, head, n);
      StageFrame(head % data.Length, HeaderBytes(n, kind, ts), payload, Zeros(n - HEADER_BYTES - |payload|));
      FrameIsPut(data[..], head, kind, ts, payload);
      RecordsAppend(queue, f);
      assert f.kind == kind by { RecordKind(kind, ts, payload); }
      assert delivered + (Records(queue) + [f]) == (delivered + Records(queue)) + [f];
      Publish(n, f);
    }

    /** Pad to the end of the buffer: a header alone, over whatever bytes are there. */
    method PutPad(ts: u64)
      requires Valid()
      requires head % data.Length != 0 && head - tail + (data.Length - head % data.Length) <= data.Length
      modifies this`head, this`tail, this`queue, this`delivered, data
      ensures Valid() && old(tail) <= tail && History() == old(History())
      ensures head == old(head) + (data.Length - old(head) % data.Length) && head % data.Length == 0
    {
      hide Holds, FrameIsAt, FrameBytes, Records;
      var off := head % data.Length;
      var toEnd := data.Length - off;
      PadFits(head, data.Length);
      FreeSpaceIsOutside(data.Length, tail, head, toEnd);
      var header := HeaderBytes(toEnd, KIND_PAD, ts);
      CopyIn(off, header, off, toEnd);
      ReaderRuns();
      ghost var f := Frame(KIND_PAD, ts, data[off + HEADER_BYTES..data.Length]);
      PadIsPut(data[..], head, ts, f);
      RecordsAppend(queue, f);
      assert Records(queue) + [] == Records(queue);
      StepMod(head, toEnd, data.Length);
      Publish(toEnd, f);
    }

    /** The writer, with the lock held. Either exactly one record - the payload, zero padded -
        joins the history, or `dropped` grows by one. It recurses only once, behind a PAD. */
    method WriteFrameLocked(kind: u32, ts: u64, payload: seq<byte>)
      requires Valid() && kind != KIND_PAD
      modifies this`head, this`tail, this`queue, this`delivered, this`dropped, data
      ensures Valid() && old(tail) <= tail && old(head) <= head
      ensures (History() == old(History()) + [RecordOf(kind, ts, payload)] && dropped == old(dropped))
           || (History() == old(History()) && dropped == old(dropped) + 1)
      ensures old(HasRoom(RoundAlign(HEADER_BYTES + |payload|))) ==> dropped == old(dropped)
      ensures RoundAlign(HEADER_BYTES + |payload|) > data.Length ==> dropped == old(dropped) + 1 && head == old(head)
      decreases if head % data.Length == 0 then 0 else 1
    {
      hide Holds, RoundAlign, Records;
      var frameLen := RoundAlign(HEADER_BYTES + |payload|);
      var h := head;
      ReaderRuns();
      var t := tail;
      ReaderRuns();
      if frameLen > data.Length - (h - t) {
        dropped := dropped + 1;
        return;
      }
      var off := h % data.Length;
      var toEnd := data.Length - off;
      if frameLen > toEnd {
        // The source drops the frame when no PAD header fits here; one always does.
        PadFits(h, data.Length);
        assert toEnd >= HEADER_BYTES;
        PutPad(ts);
        WriteFrameLocked(kind, ts, payload);
        return;
      }
      PutFrame(kind, ts, payload);
    }

    method WriteFrame(kind: u32, ts: u64, payload: seq<byte>)
      requires Valid() && kind != KIND_PAD
      modifies this`head, this`tail, this`queue, this`delivered, this`dropped, data
      ensures Valid()
      ensures !writable ==>
                History() == old(History()) && dropped == old(dropped) && head == old(head) && data[..] == old(data[..])
      ensures writable ==>
                (History() == old(History()) + [RecordOf(kind, ts, payload)] && dropped == old(dropped))
                || (History() == old(History()) && dropped == old(dropped) + 1)
    {
      if writable {
        WriteFrameLocked(kind, ts, payload);
      }
    }
  }

  /** Offsets are multiples of the alignment, so a PAD header always fits before the end. */
  lemma PadFits(h: nat, c: nat)
    requires c > 0 && c % FRAME_ALIGN == 0 && h % FRAME_ALIGN == 0
    ensures c - h % c >= HEADER_BYTES && (c - h % c) % FRAME_ALIGN == 0
  {
    var k, m, q := c / FRAME_ALIGN, h / FRAME_ALIGN, h / c;
    assert h % c == h - c * q;
    assert c * q == FRAME_ALIGN * (k * q);
    assert c - h % c == FRAME_ALIGN * (k - m + k * q);
    ModUnique(c - h % c, FRAME_ALIGN, k - m + k * q, 0);
  }

  lemma PadIsPut(d: seq<byte>, h: nat, ts: u64, f: Frame)
    requires |d| > 0
    requires var off, toEnd := h % |d|, |d| - h % |d|;
             && toEnd >= HEADER_BYTES && toEnd % FRAME_ALIGN == 0
             && d[off..off + HEADER_BYTES] == HeaderBytes(toEnd, KIND_PAD, ts)
             && f == Frame(KIND_PAD, ts, d[off + HEADER_BYTES..|d|])
    ensures FrameIsAt(d, h, f) && FrameLen(f) == |d| - h % |d|
  {
    hide HeaderBytes;
    var off := h % |d|;
    assert d[off..|d|] == d[off..off + HEADER_BYTES] + d[off + HEADER_BYTES..|d|];
  }

  lemma RecordKind(kind: u32, ts: u64, payload: seq<byte>)
    ensures RecordOf(kind, ts, payload).kind == kind
  {
  }

  lemma FrameInPlace(d: seq<byte>, off: nat, header: seq<byte>, payload: seq<byte>, fill: seq<byte>)
    requires off + |header| + |payload| + |fill| <= |d|
    requires d[off..off + |header|] == header
    requires d[off + |header|..off + |header| + |payload|] == payload
    requires d[off + |header| + |payload|..off + |header| + |payload| + |fill|] == fill
    ensures d[off..off + |header| + |payload| + |fill|] == header + (payload + fill)
  {
  }

  lemma RecordSpelled(kind: u32, ts: u64, payload: seq<byte>)
    ensures var n := RoundAlign(HEADER_BYTES + |payload|);
            && FrameLen(RecordOf(kind, ts, payload)) == n && n % FRAME_ALIGN == 0
            && FrameBytes(RecordOf(kind, ts, payload))
               == HeaderBytes(n, kind, ts) + (payload + Zeros(n - HEADER_BYTES - |payload|))
  {
    hide HeaderBytes, Zeros, RoundAlign;
  }

  lemma FrameIsPut(d: seq<byte>, h: nat, kind: u32, ts: u64, payload: seq<byte>)
    requires |d| > 0
    requires var n := RoundAlign(HEADER_BYTES + |payload|);
             var off := h % |d|;
             && off + n <= |d|
             && d[off..off + n] == HeaderBytes(n, kind, ts) + (payload + Zeros(n - HEADER_BYTES - |payload|))
    ensures FrameIsAt(d, h, RecordOf(kind, ts, payload))
    ensures FrameLen(RecordOf(kind, ts, payload)) == RoundAlign(HEADER_BYTES + |payload|)
  {
    hide HeaderBytes, Zeros, RoundAlign, FrameBytes, RecordOf, FrameLen;
    RecordSpelled(kind, ts, payload);
  }
}
