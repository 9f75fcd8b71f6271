/** A sealed file whose footer is intact and whose chunks may hold anything: what reading it through the index gives. */
module DamagedChunks {
  import opened Bytes
  import opened Events
  import opened Externals
  import opened Footer
  import opened Chunked
  import opened Filter
  import opened Delivery
  import opened Layout
  import opened Reader
  import opened ReadBack
  import opened Selection
  import opened Codec
  import Session

  /** Any bytes in the place of each chunk. */
  ghost predicate InPlace(lib: Library, bs: seq<seq<Event>>, units: seq<seq<byte>>)
    requires LawfulZstd(lib) && AllSealable(lib, bs)
  {
    |units| == |bs| && forall k :: 0 <= k < |bs| ==> |units[k]| == |UnitBytes(lib, true, bs[k])|
  }

  /** The sealed file of `bs` with `units` where its chunks were. */
  ghost function DamagedFile(lib: Library, bs: seq<seq<Event>>, units: seq<seq<byte>>): (r: seq<byte>)
    requires LawfulZstd(lib) && AllSealable(lib, bs) && |ChunkFile(lib, bs)| <= U64_MAX
  {
    var chunks := HEAD_MAGIC + Flatten(units);
    chunks + (if |chunks| <= U64_MAX then FooterBytes(lib, |chunks|, IndexOf(lib, bs, |HEAD_MAGIC|)) else [])
  }

  /** What the bytes in the place of a chunk decode to. */
  function Holds(lib: Library, unit: seq<byte>): (r: Option<seq<Event>>)
  {
    if |unit| < 4 then None else DecodeChunkSpec(lib, unit[4..])
  }

  // ----- where the chunks stand -----

  lemma {:induction false} UnitsFillTheArea(lib: Library, bs: seq<seq<Event>>, units: seq<seq<byte>>)
    requires LawfulZstd(lib) && AllSealable(lib, bs) && InPlace(lib, bs, units)
    ensures BatchesEncode(lib, bs) && |Flatten(units)| == |CatUnits(lib, true, bs)|
    decreases |bs|
  {
    hide UnitBytes, LawfulZstd, Sealable;
    AllSealableFit(lib, bs);
    if bs != [] {
      assert forall k :: 0 <= k < |bs| - 1 ==> bs[1..][k] == bs[k + 1] && units[1..][k] == units[k + 1];
      UnitsFillTheArea(lib, bs[1..], units[1..]);
    }
  }

  lemma UnitStands(units: seq<seq<byte>>, k: nat)
    requires k < |units|
    ensures var p := |Flatten(units[..k])|;
            p + |units[k]| <= |Flatten(units)| && Flatten(units)[p..p + |units[k]|] == units[k]
  {
    assert units == units[..k] + units[k..] && units[k..] == [units[k]] + units[k + 1..];
    FlattenAppend(units[..k], units[k..]);
    assert Flatten(units[k..]) == units[k] + Flatten(units[k + 1..]);
  }

  lemma PrefixInPlace(lib: Library, bs: seq<seq<Event>>, units: seq<seq<byte>>, k: nat)
    requires LawfulZstd(lib) && AllSealable(lib, bs) && InPlace(lib, bs, units) && k <= |bs|
    ensures AllSealable(lib, bs[..k]) && InPlace(lib, bs[..k], units[..k])
  {
    hide UnitBytes, LawfulZstd, Sealable;
  }

  /** The index entry of chunk `k` leads the reader to the bytes in its place. */
  lemma EntryLeadsToItsUnit(lib: Library, bs: seq<seq<Event>>, units: seq<seq<byte>>, k: nat)
    requires LawfulZstd(lib) && AllSealable(lib, bs) && InPlace(lib, bs, units) && |ChunkFile(lib, bs)| <= U64_MAX
    requires k < |bs|
    ensures |IndexOf(lib, bs, |HEAD_MAGIC|)| == |bs|
    ensures ReadEntryChunk(lib, DamagedFile(lib, bs, units), IndexOf(lib, bs, |HEAD_MAGIC|)[k], |ChunkFile(lib, bs)|)
         == match Holds(lib, units[k]) case Some(evs) => Outcome.Decoded(evs) case None => Unreadable
  {
    hide UnitBytes, LawfulZstd, Sealable, DecodeChunkSpec, IndexOf, CatUnits, FooterBytes, Flatten, StatsOf, EntryOf;
    AllSealableFit(lib, bs);
    UnitsFillTheArea(lib, bs, units);
    PrefixInPlace(lib, bs, units, k);
    UnitsFillTheArea(lib, bs[..k], units[..k]);
    IndexOfAt(lib, bs, |HEAD_MAGIC|, k);
    UnitStands(units, k);
    var at := |HEAD_MAGIC| + |Flatten(units[..k])|;
    EntryFields(lib, bs[k], at);
    UnitInTheFile(lib, bs, units, k, at);
  }

  lemma EntryFields(lib: Library, b: seq<Event>, at: u64)
    requires LawfulZstd(lib) && Sealable(lib, b)
    ensures EntryOf(lib, b, at).offset == at && 4 + EntryOf(lib, b, at).compLen == |UnitBytes(lib, true, b)|
    ensures EntryOf(lib, b, at).eventCount == |b|
  {
    hide LawfulZstd, StatsOf;
  }

  lemma UnitInTheFile(lib: Library, bs: seq<seq<Event>>, units: seq<seq<byte>>, k: nat, at: nat)
    requires LawfulZstd(lib) && AllSealable(lib, bs) && |ChunkFile(lib, bs)| <= U64_MAX && k < |units|
    requires at == |HEAD_MAGIC| + |Flatten(units[..k])| && |units[k]| >= 4
    ensures var buf := DamagedFile(lib, bs, units);
            && |HEAD_MAGIC| <= at && at + |units[k]| <= |HEAD_MAGIC| + |Flatten(units)| <= |buf|
            && buf[at + 4..at + |units[k]|] == units[k][4..]
  {
    hide LawfulZstd, Sealable, IndexOf, CatUnits, FooterBytes, Flatten;
    UnitStands(units, k);
    var buf, area, p := DamagedFile(lib, bs, units), Flatten(units), at - |HEAD_MAGIC|;
    assert buf[|HEAD_MAGIC|..|HEAD_MAGIC| + |area|] == area;
    SliceOfSlice(buf, |HEAD_MAGIC|, |HEAD_MAGIC| + |area|, p, p + |units[k]|);
    assert buf[at..at + |units[k]|] == units[k];
    assert buf[at + 4..at + |units[k]|] == buf[at..at + |units[k]|][4..];
  }

  lemma IndexIsAccepted(lib: Library, bs: seq<seq<Event>>, units: seq<seq<byte>>)
    requires LawfulZstd(lib) && AllSealable(lib, bs) && InPlace(lib, bs, units) && |ChunkFile(lib, bs)| <= U64_MAX
    requires |bs| < 0x1_0000_0000
    ensures ReadFooterSpec(lib, DamagedFile(lib, bs, units))
         == FooterResult.Footer(IndexOf(lib, bs, |HEAD_MAGIC|), |ChunkFile(lib, bs)|)
  {
    hide LawfulZstd, IndexOf, CatUnits, FooterBytes, Flatten, ReadFooterSpec;
    UnitsFillTheArea(lib, bs, units);
    FooterRoundTrip(lib, HEAD_MAGIC + Flatten(units), IndexOf(lib, bs, |HEAD_MAGIC|));
  }

  // ----- what is read -----

  /** The filter does not rule the chunk out, going by the events that were sealed in it. */
  ghost predicate Admits(f: Option<EventFilter>, b: seq<Event>)
  {
    f.Some? ==> MayMatch(f.value, b)
  }

  /** The matching events of the chunks among the first `n` that are admitted and still decode. */
  ghost function StillRead(lib: Library, bs: seq<seq<Event>>, units: seq<seq<byte>>, f: Option<EventFilter>,
      n: nat): (r: seq<Event>)
    requires n <= |bs| == |units|
  {
    if n == 0 then []
    else
      StillRead(lib, bs, units, f, n - 1)
      + if Admits(f, bs[n - 1]) && Holds(lib, units[n - 1]).Some?
        then FilterSeq(f, Holds(lib, units[n - 1]).value) else []
  }

  /** Chunk `k` is admitted and wrong, and `p` says how. */
  ghost predicate Wrong(lib: Library, bs: seq<seq<Event>>, units: seq<seq<byte>>, f: Option<EventFilter>, k: nat,
      p: ReadProblem)
    requires |bs| == |units|
  {
    && k < |bs| && Admits(f, bs[k])
    && match Holds(lib, units[k])
       case None => p == ChunkUnreadable(k, |bs[k]|)
       case Some(evs) => |evs| != |bs[k]| && p == ChunkMiscounted(k, |evs|, |bs[k]|)
  }

  /** One report for every wrong chunk among the first `n`, in order, and no other. */
  ghost predicate ReportsWrong(lib: Library, bs: seq<seq<Event>>, units: seq<seq<byte>>, f: Option<EventFilter>, n: nat,
      ps: seq<ReadProblem>, at: seq<nat>)
    requires n <= |bs| == |units|
  {
    && |at| == |ps| && Increasing(at)
    && (forall i :: 0 <= i < |ps| ==> at[i] < n && Wrong(lib, bs, units, f, at[i], ps[i]))
    && (forall k: nat, p :: k < n && Wrong(lib, bs, units, f, k, p) ==> k in at)
  }

  lemma EntryStepReads(lib: Library, bs: seq<seq<Event>>, units: seq<seq<byte>>, k: nat, c: Consumer, s: ReadState)
    requires LawfulZstd(lib) && AllSealable(lib, bs) && InPlace(lib, bs, units) && |ChunkFile(lib, bs)| <= U64_MAX
    requires k < |bs| && !s.sink.stopped && forall h :: !c.breaks(h)
    ensures |IndexOf(lib, bs, |HEAD_MAGIC|)| == |bs|
    ensures var r := EntryStep(lib, DamagedFile(lib, bs, units), IndexOf(lib, bs, |HEAD_MAGIC|), k,
            |ChunkFile(lib, bs)|, c, s);
            if !Admits(c.filter, bs[k]) then r == s
            else match Holds(lib, units[k])
              case None => r == s.(problems := s.problems + [ChunkUnreadable(k, |bs[k]|)])
              case Some(evs) =>
                && r.sink == PushAll(c, s.sink, evs)
                && r.problems == s.problems + if |evs| == |bs[k]| then [] else [ChunkMiscounted(k, |evs|, |bs[k]|)]
  {
    hide LawfulZstd, CatUnits, DamagedFile, ReadEntryChunk, Holds, MayMatch, ChunkOverlaps, Summarizes, PushAll,
         IndexOf;
    EntryLeadsToItsUnit(lib, bs, units, k);
    IndexOfAtStart(lib, bs, k);
    assert Sealable(lib, bs[k]);
    if c.filter.Some? {
      OverlapIsSharp(c.filter.value, IndexOf(lib, bs, |HEAD_MAGIC|)[k], bs[k]);
    }
  }

  lemma {:induction false} IndexedReadOfDamage(lib: Library, bs: seq<seq<Event>>, units: seq<seq<byte>>, n: nat,
      c: Consumer, s: SinkState) returns (at: seq<nat>)
    requires LawfulZstd(lib) && AllSealable(lib, bs) && InPlace(lib, bs, units) && |ChunkFile(lib, bs)| <= U64_MAX
    requires n <= |bs| && !s.stopped && forall h :: !c.breaks(h)
    ensures |IndexOf(lib, bs, |HEAD_MAGIC|)| == |bs|
    ensures var r := DecodeIndexedSpec(lib, DamagedFile(lib, bs, units), IndexOf(lib, bs, |HEAD_MAGIC|), n,
                                       |ChunkFile(lib, bs)|, c, ReadState(s, []));
            && !r.sink.stopped && r.sink.out == s.out + StillRead(lib, bs, units, c.filter, n)
            && ReportsWrong(lib, bs, units, c.filter, n, r.problems, at)
  {
    hide LawfulZstd, CatUnits, DamagedFile, EntryStep, Holds, Admits, FilterSeq, IndexOf, ReportsWrong, Wrong, PushAll,
         Sealable;
    AllSealableFit(lib, bs);
    if n == 0 {
      at := [];
      NoReports(lib, bs, units, c.filter);
    } else {
      var k := n - 1;
      var before := DecodeIndexedSpec(lib, DamagedFile(lib, bs, units), IndexOf(lib, bs, |HEAD_MAGIC|), k,
                                      |ChunkFile(lib, bs)|, c, ReadState(s, []));
      at := IndexedReadOfDamage(lib, bs, units, k, c, s);
      EntryStepReads(lib, bs, units, k, c, before);
      if Admits(c.filter, bs[k]) && Holds(lib, units[k]).Some? {
        PushAllDeliversMatches(c, before.sink, Holds(lib, units[k]).value);
      }
      if !Admits(c.filter, bs[k]) {
        FineChunk(lib, bs, units, c.filter, k, before.problems, at);
      } else {
        at := AdmittedChunk(lib, bs, units, c.filter, k, before.problems, at);
      }
    }
  }

  lemma NoReports(lib: Library, bs: seq<seq<Event>>, units: seq<seq<byte>>, f: Option<EventFilter>)
    requires |bs| == |units|
    ensures ReportsWrong(lib, bs, units, f, 0, [], [])
  {
  }

  lemma AdmittedChunk(lib: Library, bs: seq<seq<Event>>, units: seq<seq<byte>>, f: Option<EventFilter>, k: nat,
      ps: seq<ReadProblem>, at: seq<nat>) returns (next: seq<nat>)
    requires k < |bs| == |units| && ReportsWrong(lib, bs, units, f, k, ps, at) && Admits(f, bs[k])
    ensures match Holds(lib, units[k])
            case None => ReportsWrong(lib, bs, units, f, k + 1, ps + [ChunkUnreadable(k, |bs[k]|)], next)
            case Some(evs) =>
              ReportsWrong(lib, bs, units, f, k + 1,
                           ps + if |evs| == |bs[k]| then [] else [ChunkMiscounted(k, |evs|, |bs[k]|)], next)
  {
    hide Holds, Admits, ReportsWrong;
    assert ps + [] == ps;
    match Holds(lib, units[k]) {
      case None =>
        WrongChunk(lib, bs, units, f, k, ps, at, ChunkUnreadable(k, |bs[k]|));
        next := at + [k];
      case Some(evs) =>
        if |evs| == |bs[k]| {
          FineChunk(lib, bs, units, f, k, ps, at);
          next := at;
        } else {
          WrongChunk(lib, bs, units, f, k, ps, at, ChunkMiscounted(k, |evs|, |bs[k]|));
          next := at + [k];
        }
    }
  }

  lemma FineChunk(lib: Library, bs: seq<seq<Event>>, units: seq<seq<byte>>, f: Option<EventFilter>, k: nat,
      ps: seq<ReadProblem>, at: seq<nat>)
    requires k < |bs| == |units| && ReportsWrong(lib, bs, units, f, k, ps, at)
    requires Admits(f, bs[k]) ==> Holds(lib, units[k]).Some? && |Holds(lib, units[k]).value| == |bs[k]|
    ensures ReportsWrong(lib, bs, units, f, k + 1, ps, at)
  {
    hide Holds, Admits;
  }

  lemma WrongChunk(lib: Library, bs: seq<seq<Event>>, units: seq<seq<byte>>, f: Option<EventFilter>, k: nat,
      ps: seq<ReadProblem>, at: seq<nat>, p: ReadProblem)
    requires k < |bs| == |units| && ReportsWrong(lib, bs, units, f, k, ps, at) && Wrong(lib, bs, units, f, k, p)
    ensures ReportsWrong(lib, bs, units, f, k + 1, ps + [p], at + [k])
  {
    hide Wrong;
    forall j: nat, q | j < k + 1 && Wrong(lib, bs, units, f, j, q)
      ensures j in at + [k]
    {
      if j < k {
        assert j in at;
      }
    }
  }

  /** An intact index over damaged chunks, read by a callback that never stops: exactly the matching events of the
      admitted chunks that still decode, in order, and exactly one report for each admitted chunk that does not decode
      or decodes to another count. So nothing is reported if and only if they all decode as indexed. */
  lemma DamageIsReportedExactly(lib: Library, bs: seq<seq<Event>>, units: seq<seq<byte>>, c: Consumer, s: SinkState)
    returns (at: seq<nat>)
    requires LawfulZstd(lib) && AllSealable(lib, bs) && InPlace(lib, bs, units) && |ChunkFile(lib, bs)| <= U64_MAX
    requires |bs| < 0x1_0000_0000 && !s.stopped && forall h :: !c.breaks(h)
    ensures var r := ReadChunkedSpec(lib, DamagedFile(lib, bs, units), c, s);
            && !r.sink.stopped && r.sink.out == s.out + StillRead(lib, bs, units, c.filter, |bs|)
            && ReportsWrong(lib, bs, units, c.filter, |bs|, r.problems, at)
            && (r.problems == [] <==>
                  forall k :: 0 <= k < |bs| && Admits(c.filter, bs[k]) ==>
                    Holds(lib, units[k]).Some? && |Holds(lib, units[k]).value| == |bs[k]|)
  {
    hide LawfulZstd, CatUnits, DamagedFile, DecodeIndexedSpec, Holds, Admits, StillRead, IndexOf, ReportsWrong,
         AllSealable, InPlace, ReadFooterSpec;
    IndexIsAccepted(lib, bs, units);
    SameNumber(lib, bs, units);
    at := IndexedReadOfDamage(lib, bs, units, |bs|, c, s);
    SilentExactly(lib, bs, units, c.filter, ReadChunkedSpec(lib, DamagedFile(lib, bs, units), c, s).problems, at);
  }

  lemma SilentExactly(lib: Library, bs: seq<seq<Event>>, units: seq<seq<byte>>, f: Option<EventFilter>,
      ps: seq<ReadProblem>, at: seq<nat>)
    requires |bs| == |units| && ReportsWrong(lib, bs, units, f, |bs|, ps, at)
    ensures ps == [] <==>
            forall k :: 0 <= k < |bs| && Admits(f, bs[k]) ==>
              Holds(lib, units[k]).Some? && |Holds(lib, units[k]).value| == |bs[k]|
  {
    hide Holds, Admits;
    forall k | 0 <= k < |bs| && Admits(f, bs[k])
        && !(Holds(lib, units[k]).Some? && |Holds(lib, units[k]).value| == |bs[k]|)
      ensures ps != []
    {
      var p := match Holds(lib, units[k])
        case None => ChunkUnreadable(k, |bs[k]|)
        case Some(evs) => ChunkMiscounted(k, |evs|, |bs[k]|);
      assert Wrong(lib, bs, units, f, k, p);
    }
    if ps != [] {
      assert Wrong(lib, bs, units, f, at[0], ps[0]);
    }
  }

  /** One chunk of a session no longer decodes: every other event is read, and that chunk is reported with its number
      and count. */
  lemma OneDamagedChunk(lib: Library, bs: seq<seq<Event>>, units: seq<seq<byte>>, j: nat, c: Consumer)
    requires Lawful(lib) && AllSealable(lib, bs) && InPlace(lib, bs, units) && |ChunkFile(lib, bs)| <= U64_MAX
    requires |bs| < 0x1_0000_0000 && c.filter.None? && forall h :: !c.breaks(h)
    requires j < |bs| && Holds(lib, units[j]).None?
    requires forall k :: 0 <= k < |bs| && k != j ==> units[k] == UnitBytes(lib, true, bs[k])
    ensures var r := ReadChunkedSpec(lib, DamagedFile(lib, bs, units), c, FRESH_SINK);
            r.sink.out == Flatten(bs[..j]) + Flatten(bs[j + 1..]) && r.problems == [ChunkUnreadable(j, |bs[j]|)]
  {
    assert LawfulZstd(lib);
    hide Lawful, LawfulZstd, CatUnits, DamagedFile, ReadChunkedSpec, Holds, StillRead, AllSealable, InPlace, UnitBytes,
         Flatten, ReportsWrong;
    AllSealableFit(lib, bs);
    var at := DamageIsReportedExactly(lib, bs, units, c, FRESH_SINK);
    var r := ReadChunkedSpec(lib, DamagedFile(lib, bs, units), c, FRESH_SINK);
    forall k | 0 <= k < |bs| && k != j
      ensures Holds(lib, units[k]) == Some(bs[k])
    {
      IntactUnitHolds(lib, bs[k], units[k]);
    }
    assert |units| == |bs| by {
      SameNumber(lib, bs, units);
    }
    AllButOne(lib, bs, units, j, |bs|);
    assert bs[..|bs|] == bs;
    OnlyOneReport(lib, bs, units, j, r.problems, at);
    assert FRESH_SINK.out + StillRead(lib, bs, units, None, |bs|) == StillRead(lib, bs, units, None, |bs|);
  }

  lemma SameNumber(lib: Library, bs: seq<seq<Event>>, units: seq<seq<byte>>)
    requires LawfulZstd(lib) && AllSealable(lib, bs) && InPlace(lib, bs, units)
    ensures |units| == |bs|
  {
  }

  lemma IntactUnitHolds(lib: Library, b: seq<Event>, unit: seq<byte>)
    requires Lawful(lib) && AllEncodable(lib, b) && unit == UnitBytes(lib, true, b)
    ensures Holds(lib, unit) == Some(b)
  {
    hide Lawful, DecodeChunkSpec, Frames, ToLE;
    DecodeWrittenChunk(lib, b);
    assert unit[4..] == lib.compress(Frames(lib, b));
  }

  lemma {:induction false} NoFilterKeepsAll(evs: seq<Event>)
    ensures FilterSeq(None, evs) == evs
  {
    if evs != [] {
      NoFilterKeepsAll(evs[1..]);
    }
  }

  lemma {:induction false} AllButOne(lib: Library, bs: seq<seq<Event>>, units: seq<seq<byte>>, j: nat, n: nat)
    requires n <= |bs| == |units| && j < |bs| && Holds(lib, units[j]).None?
    requires forall k :: 0 <= k < |bs| && k != j ==> Holds(lib, units[k]) == Some(bs[k])
    ensures StillRead(lib, bs, units, None, n) ==
            if n <= j then Flatten(bs[..n]) else Flatten(bs[..j]) + Flatten(bs[j + 1..n])
  {
    hide Holds, FilterSeq, Flatten;
    if n == 0 {
      NothingToFlatten();
      assert bs[..0] == [];
    } else {
      AllButOne(lib, bs, units, j, n - 1);
      if n - 1 == j {
        NothingToFlatten();
        assert bs[j + 1..n] == [];
        assert Flatten(bs[..j]) + [] == Flatten(bs[..j]);
      } else {
        NoFilterKeepsAll(bs[n - 1]);
        if n <= j {
          FlattenOneMore(bs, n - 1);
        } else {
          FlattenBehind(bs, j + 1, n - 1);
        }
      }
    }
  }

  lemma NothingToFlatten()
    ensures Flatten<Event>([]) == []
  {
  }

  lemma FlattenBehind(bs: seq<seq<Event>>, from: nat, k: nat)
    requires from <= k < |bs|
    ensures Flatten(bs[from..k + 1]) == Flatten(bs[from..k]) + bs[k]
  {
    FlattenOneMore(bs[from..k + 1], k - from);
    assert bs[from..k + 1][..k - from] == bs[from..k] && bs[from..k + 1][..k - from + 1] == bs[from..k + 1];
  }

  lemma OnlyOneReport(lib: Library, bs: seq<seq<Event>>, units: seq<seq<byte>>, j: nat, ps: seq<ReadProblem>,
      at: seq<nat>)
    requires |bs| == |units| && ReportsWrong(lib, bs, units, None, |bs|, ps, at)
    requires j < |bs| && Holds(lib, units[j]).None?
    requires forall k :: 0 <= k < |bs| && k != j ==> Holds(lib, units[k]) == Some(bs[k])
    ensures ps == [ChunkUnreadable(j, |bs[j]|)]
  {
    hide Holds;
    assert Wrong(lib, bs, units, None, j, ChunkUnreadable(j, |bs[j]|));
    assert j in at;
    forall i | 0 <= i < |at|
      ensures at[i] == j
    {
      assert Wrong(lib, bs, units, None, at[i], ps[i]);
    }
    PositionsSpread(at, |at| - 1);
  }

  // ----- counted against the metadata -----

  /** An undamaged session read to its end without a filter: events the metadata counts and the file lacks are reported
      by their number, as are the dropped ones; nothing else is. */
  lemma MissingEventsAreCounted(lib: Library, bs: seq<seq<Event>>, meta: Metadata, breaks: seq<Event> -> bool)
    requires Lawful(lib) && AllSealable(lib, bs) && |ChunkFile(lib, bs)| <= U64_MAX && forall h :: !breaks(h)
    ensures var r := ForEachSpec(lib, true, SealedFile(lib, bs), Some(meta), Consumer(None, breaks));
            && r.Read? && r.sink.out == Flatten(bs)
            && (r.problems == [] <==>
                  && (meta.eventCount.Some? ==> meta.eventCount.value <= |Flatten(bs)|)
                  && (meta.droppedEvents.Some? ==> meta.droppedEvents.value == 0))
            && (forall n: nat :: EventsMissing(n) in r.problems <==>
                 n > 0 && meta.eventCount == Some(|Flatten(bs)| + n))
            && (forall n: nat :: EventsDropped(n) in r.problems <==> n > 0 && meta.droppedEvents == Some(n))
            && |r.problems| <= 2
  {
    hide Lawful, LawfulZstd, CatUnits, AllSealable, ForEachSpec, SealedFile, Flatten, CountReports;
    ReadToTheEnd(lib, bs, meta, breaks);
    CountsTell(meta, Consumer(None, breaks), SinkState(Flatten(bs), |Flatten(bs)|, false));
  }

  lemma ReadToTheEnd(lib: Library, bs: seq<seq<Event>>, meta: Metadata, breaks: seq<Event> -> bool)
    requires Lawful(lib) && AllSealable(lib, bs) && |ChunkFile(lib, bs)| <= U64_MAX && forall h :: !breaks(h)
    ensures var c, all := Consumer(None, breaks), SinkState(Flatten(bs), |Flatten(bs)|, false);
            ForEachSpec(lib, true, SealedFile(lib, bs), Some(meta), c)
                == Read(all, [] + CountReports(Some(meta), c, all))
  {
    assert LawfulZstd(lib);
    hide Lawful, LawfulZstd, CatUnits, AllSealable, ReadChunkedSpec, SealedFile, PushAll, Flatten, CountReports,
         FilterSeq;
    var c := Consumer(None, breaks);
    Session.SealedFileIsChunked(lib, bs);
    SealedFileReadsBack(lib, bs, c, FRESH_SINK);
    AllDelivered(breaks, Flatten(bs));
  }

  lemma AllDelivered(breaks: seq<Event> -> bool, evs: seq<Event>)
    requires forall h :: !breaks(h)
    ensures PushAll(Consumer(None, breaks), FRESH_SINK, evs) == SinkState(evs, |evs|, false)
  {
    hide PushAll, FilterSeq;
    PushAllDeliversMatches(Consumer(None, breaks), FRESH_SINK, evs);
    NoFilterKeepsAll(evs);
    assert [] + evs == evs;
  }

  lemma CountsTell(meta: Metadata, c: Consumer, s: SinkState)
    requires c.filter.None? && !s.stopped
    ensures var ps := CountReports(Some(meta), c, s);
            && [] + ps == ps && |ps| <= 2
            && (ps == [] <==>
                  && (meta.eventCount.Some? ==> meta.eventCount.value <= s.seen)
                  && (meta.droppedEvents.Some? ==> meta.droppedEvents.value == 0))
            && (forall n: nat :: EventsMissing(n) in ps <==> n > 0 && meta.eventCount == Some(s.seen + n))
            && (forall n: nat :: EventsDropped(n) in ps <==> n > 0 && meta.droppedEvents == Some(n))
  {
  }

  /** A reader that filters or stops is never told that events are missing. */
  lemma PartialReadsAreNotCounted(lib: Library, bs: seq<seq<Event>>, meta: Option<Metadata>, c: Consumer)
    requires Lawful(lib) && AllSealable(lib, bs) && |ChunkFile(lib, bs)| <= U64_MAX
    ensures var r := ForEachSpec(lib, true, SealedFile(lib, bs), meta, c);
            r.Read? && (c.filter.Some? || r.sink.stopped ==> r.problems == [])
  {
    assert LawfulZstd(lib);
    hide Lawful, LawfulZstd, CatUnits, AllSealable, ReadChunkedSpec, SealedFile, PushAll, Flatten;
    Session.SealedFileIsChunked(lib, bs);
    SealedFileReadsBack(lib, bs, c, FRESH_SINK);
  }
}
