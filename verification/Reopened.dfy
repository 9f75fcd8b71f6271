/** A legacy file that ended in damaged bytes when it was opened again: what was whole before comes first, the damage is
    reported, and the new frames follow. */
module Reopened {
  import opened Bytes
  import opened Events
  import opened Externals
  import opened Codec
  import opened Chunked
  import opened Filter
  import opened Delivery
  import opened Layout
  import opened Reader
  import opened ReadBack
  import opened Session
  import W = Writer
  import S = SessionWriter

  // ----- the hypothesis -----

  /** The reader takes what starts here for a frame; an unchecked one only at the start of the file. */
  predicate Trusted(buf: seq<byte>, at: nat)
    requires at <= |buf|
  {
    StartsWithMagic(buf[at..]) && (FrameHasChecksum(buf[at..]) || at == 0)
  }

  /** A frame that is not accepted and gives nothing. */
  predicate Refused(lib: Library, rest: seq<byte>)
  {
    FrameData(lib, rest).0 == [] && !(UsableFrameSize(lib, rest).Some? && FrameData(lib, rest).1)
  }

  /** Behind its first byte the damage shows no frame magic, and what starts at its first byte is not accepted as a
      frame. */
  ghost predicate NoFalseFrame(lib: Library, buf: seq<byte>, at: nat, torn: seq<byte>)
    requires at <= |buf|
  {
    && (forall x :: 0 < x < |torn| ==> !StartsWithMagic(torn[x..]))
    && (Trusted(buf, at) ==> Refused(lib, buf[at..]))
  }

  // ----- one pass over the damage -----

  /** No magic starts inside the damage, not even one that ends in the frame behind it. */
  lemma NoMagicInside(lib: Library, buf: seq<byte>, p: nat, q: nat, x: nat)
    requires p < x < q <= |buf| && NoFalseFrame(lib, buf, p, buf[p..q]) && (q < |buf| ==> FrameHasChecksum(buf[q..]))
    ensures !StartsWithMagic(buf[x..])
  {
    hide Trusted, Refused;
    if x + 4 <= q {
      assert buf[p..q][x - p..][..4] == buf[x..][..4];
    } else if q < |buf| && x + 4 <= |buf| {
      assert buf[q..][..4][0] == 0x28;
      assert buf[x..][..4][q - x] == buf[q];
    }
  }

  lemma NoFrameInside(lib: Library, buf: seq<byte>, p: nat, q: nat)
    requires p < q <= |buf| && NoFalseFrame(lib, buf, p, buf[p..q]) && (q < |buf| ==> FrameHasChecksum(buf[q..]))
    ensures FindChecksummed(buf, p + 1) == FindMagic(buf, p + 1) == if q < |buf| then Some(q) else None
  {
    hide NoFalseFrame;
    forall x | p < x < q
      ensures !StartsWithMagic(buf[x..]) && !FrameHasChecksum(buf[x..])
    {
      NoMagicInside(lib, buf, p, q, x);
    }
    assert q < |buf| ==> StartsWithMagic(buf[q..]);
  }

  lemma NothingDelivered(lib: Library, at: nat, c: Consumer, s: SinkState)
    ensures DeliverData(lib, [], at, c, s) == ReadState(s, [])
  {
    ParseUnfolds(lib, [], 0);
  }

  /** The damage draws one report and the reader goes on behind it. */
  lemma DamageStep(lib: Library, buf: seq<byte>, p: nat, q: nat, c: Consumer, s: ReadState)
    returns (report: ReadProblem)
    requires p < q <= |buf| && NoFalseFrame(lib, buf, p, buf[p..q]) && (q < |buf| ==> FrameHasChecksum(buf[q..]))
    requires !s.sink.stopped
    ensures LegacyStep(lib, buf, p, c, s) ==
            LegacyStepResult(s.(problems := s.problems + [report]), if q < |buf| then Some(q) else None)
    ensures report ==
            if !Trusted(buf, p) then (if q < |buf| then GapSkipped(p, q) else TailUnreadable(q - p))
            else if UsableFrameSize(lib, buf[p..]).Some? then FrameDamaged(p, FrameHasChecksum(buf[p..]))
            else FrameIncomplete(p, FrameHasChecksum(buf[p..]))
  {
    NoFrameInside(lib, buf, p, q);
    hide FrameData, UsableFrameSize, DeliverData, FrameHasChecksum, StartsWithMagic, FindChecksummed, FindMagic;
    NothingDelivered(lib, p, c, s.sink);
    assert s.problems + [] == s.problems;
    var problems := LegacyStep(lib, buf, p, c, s).state.problems;
    report := problems[|problems| - 1];
  }

  /** The one frame of a file from before checksums, damaged: at the start of the file the events decoded before the
      damage are kept and the damage is reported; nothing else in the file is a frame. */
  lemma OldFrameKeepsItsPrefix(lib: Library, buf: seq<byte>, c: Consumer, s: SinkState)
    requires StartsWithMagic(buf) && !FrameHasChecksum(buf) && !lib.decompress(buf).ok && lib.frameSize(buf).None?
    requires (forall x :: 0 < x < |buf| ==> !StartsWithMagic(buf[x..])) && !s.stopped
    ensures var r, p := ReadLegacySpec(lib, buf, 0, c, ReadState(s, [])), ParseSpec(lib, lib.decompress(buf).data, 0);
            && r.sink == PushAll(c, s, p.events)
            && (!r.sink.stopped ==>
                  r.problems == (if p.problem.Some? then [InFrame(0, p.problem.value)] else [])
                      + [FrameIncomplete(0, false)])
  {
    hide PushAll, ParseSpec, FrameHasChecksum, StartsWithMagic, FindChecksummed, FindMagic;
    assert buf[0..] == buf;
    NoMagicAhead(buf);
    NotEmpty(buf);
    var r := LegacyStep(lib, buf, 0, c, ReadState(s, []));
    assert r.next.None?;
  }

  lemma NotEmpty(buf: seq<byte>)
    requires StartsWithMagic(buf)
    ensures buf != []
  {
  }

  lemma NoMagicAhead(buf: seq<byte>)
    requires forall x :: 0 < x < |buf| ==> !StartsWithMagic(buf[x..])
    ensures FindMagic(buf, 1) == None
  {
    hide StartsWithMagic;
  }

  /** Even when nothing whole follows, the damage is reported. */
  lemma DamageIsReported(lib: Library, buf: seq<byte>, p: nat, torn: seq<byte>, c: Consumer, s: ReadState)
    requires p < |buf| && NoFalseFrame(lib, buf, p, torn) && !s.sink.stopped
    ensures |LegacyStep(lib, buf, p, c, s).state.problems| > |s.problems|
  {
    hide FrameData, UsableFrameSize, DeliverData, FrameHasChecksum, StartsWithMagic, FindChecksummed, FindMagic;
    NothingDelivered(lib, p, c, s.sink);
  }

  // ----- the whole read -----

  lemma ReadOnlyAdds(lib: Library, buf: seq<byte>, at: nat, c: Consumer, s: SinkState, evs: seq<Event>,
      ps: seq<ReadProblem>)
    ensures var r := ReadLegacySpec(lib, buf, at, c, ReadState(PushAll(c, s, evs), ps));
            (exists more :: r.sink == PushAll(c, s, evs + more)) && ps <= r.problems
  {
    hide ReadLegacySpec, PushAll;
    var t := ReadState(PushAll(c, s, evs), ps);
    LegacyReadOnlyAdds(lib, buf, at, c, t);
    var more :| ReadLegacySpec(lib, buf, at, c, t).sink == PushAll(c, t.sink, more);
    PushAllAppend(c, s, evs, more);
  }

  /** The frames that were whole when the file was opened come first, whatever follows them. */
  lemma EarlierFramesComeFirst(lib: Library, earlier: seq<seq<Event>>, buf: seq<byte>, c: Consumer, s: SinkState)
    requires Lawful(lib) && BatchesEncode(lib, earlier) && CatUnits(lib, false, earlier) <= buf
    ensures var p := |CatUnits(lib, false, earlier)|;
            var r := ReadLegacySpec(lib, buf, 0, c, ReadState(s, []));
            && r == ReadLegacySpec(lib, buf, p, c, ReadState(PushAll(c, s, Flatten(earlier)), []))
            && exists more :: r.sink == PushAll(c, s, Flatten(earlier) + more)
  {
    hide Lawful, CatUnits, ReadLegacySpec, PushAll, Flatten;
    var p := |CatUnits(lib, false, earlier)|;
    assert buf[0..0 + p] == CatUnits(lib, false, earlier);
    LegacyReadsWholeFrames(lib, buf, 0, earlier, c, ReadState(s, []));
    ReadOnlyAdds(lib, buf, p, c, s, Flatten(earlier), []);
  }

  lemma FirstUnitHasChecksum(lib: Library, buf: seq<byte>, q: nat, bs: seq<seq<Event>>)
    requires LawfulZstd(lib) && BatchesEncode(lib, bs) && bs != []
    requires q + |CatUnits(lib, false, bs)| <= |buf|
             && buf[q..q + |CatUnits(lib, false, bs)|] == CatUnits(lib, false, bs)
    ensures q < |buf| && FrameHasChecksum(buf[q..])
  {
    var f, n := UnitBytes(lib, false, bs[0]), |CatUnits(lib, false, bs)|;
    assert FrameHasChecksum(f);
    assert buf[q..][..4] == buf[q..q + n][..4] == f[..4];
    assert buf[q..][4] == buf[q..q + n][4] == f[4];
  }

  lemma PastTheDamage(lib: Library, buf: seq<byte>, p: nat, q: nat, c: Consumer, s: SinkState)
    returns (report: ReadProblem)
    requires p < q <= |buf| && NoFalseFrame(lib, buf, p, buf[p..q]) && (q < |buf| ==> FrameHasChecksum(buf[q..]))
    requires !s.stopped
    ensures ReadLegacySpec(lib, buf, p, c, ReadState(s, [])) == ReadLegacySpec(lib, buf, q, c, ReadState(s, [report]))
  {
    hide PushAll, LegacyStep, NoFalseFrame, FrameHasChecksum;
    report := DamageStep(lib, buf, p, q, c, ReadState(s, []));
    assert [] + [report] == [report];
  }

  /** Behind the earlier frames: one report for the damage, then the new frames' events, then what follows them. */
  lemma NewFramesFollow(lib: Library, buf: seq<byte>, p: nat, q: nat, bs: seq<seq<Event>>, c: Consumer, s: SinkState)
    returns (report: ReadProblem)
    requires Lawful(lib) && BatchesEncode(lib, bs) && p < q && !s.stopped
    requires q + |CatUnits(lib, false, bs)| <= |buf|
             && buf[q..q + |CatUnits(lib, false, bs)|] == CatUnits(lib, false, bs)
    requires NoFalseFrame(lib, buf, p, buf[p..q]) && (bs == [] ==> q == |buf|)
    ensures ReadLegacySpec(lib, buf, p, c, ReadState(s, []))
         == ReadLegacySpec(lib, buf, q + |CatUnits(lib, false, bs)|, c, ReadState(PushAll(c, s, Flatten(bs)), [report]))
  {
    assert LawfulZstd(lib);
    hide Lawful, LawfulZstd, CatUnits, PushAll, ReadLegacySpec, NoFalseFrame, FrameHasChecksum, BatchesEncode, Flatten;
    if bs == [] {
      NoNewFrames(lib, c, s);
    } else {
      FirstUnitHasChecksum(lib, buf, q, bs);
    }
    report := PastTheDamage(lib, buf, p, q, c, s);
    LegacyReadsWholeFrames(lib, buf, q, bs, c, ReadState(s, [report]));
  }

  lemma NoNewFrames(lib: Library, c: Consumer, s: SinkState)
    ensures CatUnits(lib, false, []) == [] && Flatten<Event>([]) == [] && PushAll(c, s, []) == s
  {
  }

  lemma ReportedAnyway(lib: Library, buf: seq<byte>, p: nat, torn: seq<byte>, c: Consumer, s: SinkState)
    requires p < |buf| && NoFalseFrame(lib, buf, p, torn) && !s.stopped
    ensures ReadLegacySpec(lib, buf, p, c, ReadState(s, [])).problems != []
  {
    hide LegacyStep, NoFalseFrame, PushAll;
    DamageIsReported(lib, buf, p, torn, c, ReadState(s, []));
    var r := LegacyStep(lib, buf, p, c, ReadState(s, []));
    if r.next.Some? {
      LegacyReadOnlyAdds(lib, buf, r.next.value, c, r.state);
    }
  }

  /** Two runs of frames around a damaged stretch, and a cut behind the second. */
  lemma DamagedFileReadsBack(lib: Library, earlier: seq<seq<Event>>, torn: seq<byte>, bs: seq<seq<Event>>,
      buf: seq<byte>, c: Consumer, s: SinkState)
    requires Lawful(lib) && BatchesEncode(lib, earlier) && BatchesEncode(lib, bs) && torn != []
    requires CatUnits(lib, false, earlier) + torn + CatUnits(lib, false, bs) <= buf
    requires NoFalseFrame(lib, buf, |CatUnits(lib, false, earlier)|, torn)
    ensures var done := Flatten(earlier) + Flatten(bs);
            var r := ReadLegacySpec(lib, buf, 0, c, ReadState(s, []));
            && (exists more :: r.sink == PushAll(c, s, done + more))
            && (!r.sink.stopped ==> r.problems != [])
            && (|buf| == |CatUnits(lib, false, earlier)| + |torn| + |CatUnits(lib, false, bs)| ==>
                  r.sink == PushAll(c, s, done) && |r.problems| <= 1)
  {
    hide Lawful, LawfulZstd, CatUnits, PushAll, NoFalseFrame, ReadLegacySpec, Flatten, BatchesEncode;
    var p, before := |CatUnits(lib, false, earlier)|, PushAll(c, s, Flatten(earlier));
    var q := p + |torn|;
    Slices(CatUnits(lib, false, earlier), torn, CatUnits(lib, false, bs), buf);
    EarlierFramesComeFirst(lib, earlier, buf, c, s);
    var r := ReadLegacySpec(lib, buf, p, c, ReadState(before, []));
    assert ReadLegacySpec(lib, buf, 0, c, ReadState(s, [])) == r;
    if before.stopped {
      StoppedBefore(lib, buf, p, c, s, Flatten(earlier), Flatten(bs));
      assert exists more :: r.sink == PushAll(c, s, (Flatten(earlier) + Flatten(bs)) + more);
    } else {
      BehindTheEarlier(lib, buf, p, torn, bs, c, s, Flatten(earlier));
    }
  }

  lemma BehindTheEarlier(lib: Library, buf: seq<byte>, p: nat, torn: seq<byte>, bs: seq<seq<Event>>, c: Consumer,
      s: SinkState, first: seq<Event>)
    requires Lawful(lib) && BatchesEncode(lib, bs) && torn != [] && !PushAll(c, s, first).stopped
    requires p + |torn| + |CatUnits(lib, false, bs)| <= |buf| && buf[p..p + |torn|] == torn
    requires buf[p + |torn|..p + |torn| + |CatUnits(lib, false, bs)|] == CatUnits(lib, false, bs)
    requires NoFalseFrame(lib, buf, p, torn)
    ensures var done := first + Flatten(bs);
            var r := ReadLegacySpec(lib, buf, p, c, ReadState(PushAll(c, s, first), []));
            && (exists more :: r.sink == PushAll(c, s, done + more))
            && r.problems != []
            && (|buf| == p + |torn| + |CatUnits(lib, false, bs)| ==> r.sink == PushAll(c, s, done) && |r.problems| == 1)
  {
    hide Lawful, CatUnits, PushAll, NoFalseFrame, ReadLegacySpec, Flatten, BatchesEncode;
    var q, before := p + |torn|, PushAll(c, s, first);
    NoNewFrames(lib, c, s);
    ReportedAnyway(lib, buf, p, torn, c, before);
    if bs != [] || q == |buf| {
      var report := NewFramesFollow(lib, buf, p, q, bs, c, before);
      PushAllAppend(c, s, first, Flatten(bs));
      ReadOnlyAdds(lib, buf, q + |CatUnits(lib, false, bs)|, c, s, first + Flatten(bs), [report]);
      AtTheEnd(lib, buf, c, ReadState(PushAll(c, before, Flatten(bs)), [report]));
    } else {
      assert first + Flatten(bs) == first;
      ReadOnlyAdds(lib, buf, p, c, s, first, []);
    }
  }

  lemma AtTheEnd(lib: Library, buf: seq<byte>, c: Consumer, s: ReadState)
    ensures ReadLegacySpec(lib, buf, |buf|, c, s) == s
  {
  }

  lemma StoppedBefore(lib: Library, buf: seq<byte>, p: nat, c: Consumer, s: SinkState, first: seq<Event>,
      more: seq<Event>)
    requires PushAll(c, s, first).stopped
    ensures var done := first + more;
            var r := ReadLegacySpec(lib, buf, p, c, ReadState(PushAll(c, s, first), []));
            && (exists rest :: r.sink == PushAll(c, s, done + rest))
            && r == ReadState(PushAll(c, s, done), []) && r.sink.stopped
  {
    hide PushAll, LegacyStep;
    StoppedDeliveryIgnoresTheRest(c, s, first, more);
    var done := first + more;
    assert done + [] == done;
  }

  lemma Slices(a: seq<byte>, b: seq<byte>, d: seq<byte>, buf: seq<byte>)
    requires a + b + d <= buf
    ensures a <= buf && buf[|a|..|a| + |b|] == b && buf[|a| + |b|..|a| + |b| + |d|] == d
  {
    var whole := a + b + d;
    assert whole == buf[..|whole|];
    assert whole[|a|..|a| + |b|] == b && whole[|a| + |b|..] == d;
  }

  /** A legacy session opened on a file that ends in any damaged bytes. Its whole frames come first, always. Without a
      false frame in the damage it is reported, and the events of every new frame on disk follow; with the stray tail
      cut they are all there is, and nothing else is reported. */
  lemma ReopenedStateReadsBack(w: S.SessionWriter, earlier: seq<seq<Event>>, torn: seq<byte>, c: Consumer, s: SinkState)
    requires w.Valid() && w.kind.Legacy? && torn != []
    requires BatchesEncode(w.lib, earlier) && w.out.base == CatUnits(w.lib, false, earlier) + torn
    ensures |w.out.written| <= |S.Kept(w.fates)|
    ensures var p := |CatUnits(w.lib, false, earlier)|;
            var done := Flatten(earlier) + Flatten(S.Kept(w.fates)[..|w.out.written|]);
            var r := ReadLegacySpec(w.lib, w.out.file.bytes, 0, c, ReadState(s, []));
            && p <= |w.out.file.bytes|
            && (exists more :: r.sink == PushAll(c, s, Flatten(earlier) + more))
            && (NoFalseFrame(w.lib, w.out.file.bytes, p, torn) ==>
                  && (exists more :: r.sink == PushAll(c, s, done + more))
                  && (!r.sink.stopped ==> r.problems != [])
                  && (|w.out.file.bytes| == w.out.cursor ==> r.sink == PushAll(c, s, done) && |r.problems| <= 1))
  {
    hide W.Placed, W.OnDisk, S.UnitsOf, S.Kept, S.LostEvents, S.SealedEvents, CatUnits, Lawful, LawfulZstd, Flatten,
         ReadLegacySpec, PushAll, Frames, StatsOf, AllSealable, NoFalseFrame;
    var kept, m, bytes := S.Kept(w.fates), |w.out.written|, w.out.file.bytes;
    FileIsACutOfTheKept(w);
    WholeUnitsFirst(w.lib, kept, m, w.out.base, bytes);
    assert CatUnits(w.lib, false, earlier) <= w.out.base;
    EarlierFramesComeFirst(w.lib, earlier, bytes, c, s);
    if NoFalseFrame(w.lib, bytes, |CatUnits(w.lib, false, earlier)|, torn) {
      DamagedFileReadsBack(w.lib, earlier, torn, kept[..m], bytes, c, s);
    }
  }

  lemma WholeUnitsFirst(lib: Library, kept: seq<seq<Event>>, m: nat, base: seq<byte>, bytes: seq<byte>)
    requires BatchesEncode(lib, kept) && m <= |kept|
    requires var k := |bytes| - |base|;
             && |CatUnits(lib, false, kept[..m])| <= k <= |CatUnits(lib, false, kept)|
             && bytes == base + CatUnits(lib, false, kept)[..k]
    ensures BatchesEncode(lib, kept[..m]) && base + CatUnits(lib, false, kept[..m]) <= bytes
  {
    hide CatUnits;
    CatUnitsSplits(lib, false, kept, m);
  }
}
