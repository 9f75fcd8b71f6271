/** The session writer over a disk that may refuse or cut short any write. */
module Writer {
  import opened Bytes
  import opened Events
  import opened Footer

  const LEGACY_FRAME_BYTES: nat := 256 * 1024
  const MAX_PENDING_BYTES: nat := 64 * 1024 * 1024

  function Overlay(b: seq<byte>, pos: nat, d: seq<byte>): (r: seq<byte>)
    requires pos <= |b|
  {
    b[..pos] + d + if pos + |d| < |b| then b[pos + |d|..] else []
  }

  /** A file whose writes may stop after any prefix, and whose truncation may fail - unless the disk
      is reliable: then everything that fits a 64-bit position succeeds. */
  class EventFile {
    var bytes: seq<byte>
    const reliable: bool

    constructor (bytes: seq<byte>, reliable: bool)
      ensures this.bytes == bytes && this.reliable == reliable
    {
      this.bytes := bytes;
      this.reliable := reliable;
    }

    /** Seek, then write everything; on failure any prefix, possibly none, has been written. */
    method WriteAt(pos: nat, data: seq<byte>) returns (ok: bool)
      requires pos <= |bytes|
      modifies this
      ensures ok ==> bytes == Overlay(old(bytes), pos, data) && pos + |data| <= U64_MAX
      ensures !ok ==> exists k :: 0 <= k <= |data| && bytes == Overlay(old(bytes), pos, data[..k])
      ensures reliable && pos + |data| <= U64_MAX ==> ok
    {
      ok := *;
      if (ok || reliable) && pos + |data| <= U64_MAX {
        bytes := Overlay(bytes, pos, data);
        ok := true;
      } else {
        ok := false;
        var k: nat :| k <= |data|;
        bytes := Overlay(bytes, pos, data[..k]);
      }
    }

    method SetLen(n: nat) returns (ok: bool)
      requires n <= |bytes|
      modifies this
      ensures bytes == if ok then old(bytes)[..n] else old(bytes)
      ensures reliable ==> ok
    {
      ok := *;
      ok := ok || reliable;
      if ok {
        bytes := bytes[..n];
      }
    }

    method Flush() returns (ok: bool)
      ensures reliable ==> ok
    {
      ok := *;
      ok := ok || reliable;
    }
  }

  // ----- units -----

  /** What one batch becomes on disk; the offset in a chunk's entry is filled in when it gets there. */
  datatype Unit = Unit(bytes: seq<byte>, events: nat, entry: Option<ChunkIndexEntry>)

  function TotalBytes(us: seq<Unit>): (r: nat)
  {
    if us == [] then 0 else TotalBytes(us[..|us| - 1]) + |us[|us| - 1].bytes|
  }

  function TotalEvents(us: seq<Unit>): (r: nat)
  {
    if us == [] then 0 else TotalEvents(us[..|us| - 1]) + us[|us| - 1].events
  }

  function CatBytes(us: seq<Unit>): (b: seq<byte>)
    ensures |b| == TotalBytes(us)
  {
    if us == [] then [] else CatBytes(us[..|us| - 1]) + us[|us| - 1].bytes
  }

  function PlacedAt(u: Unit, at: u64): (r: seq<ChunkIndexEntry>)
  {
    match u.entry case None => [] case Some(e) => [e.(offset := at)]
  }

  /** The index entries of units laid down from `base`. */
  function Placed(us: seq<Unit>, base: nat): (r: seq<ChunkIndexEntry>)
    requires base + TotalBytes(us) <= U64_MAX
  {
    if us == [] then []
    else
      var n := |us| - 1;
      Placed(us[..n], base) + PlacedAt(us[n], base + TotalBytes(us[..n]))
  }

  lemma {:induction false} TotalsAppend(a: seq<Unit>, b: seq<Unit>)
    ensures TotalBytes(a + b) == TotalBytes(a) + TotalBytes(b)
    ensures TotalEvents(a + b) == TotalEvents(a) + TotalEvents(b)
    decreases |b|
  {
    if b == [] {
      assert a + b == a;
    } else {
      TotalsAppend(a, b[..|b| - 1]);
      assert (a + b)[..|a + b| - 1] == a + b[..|b| - 1];
    }
  }

  lemma OneUnit(u: Unit)
    ensures TotalBytes([u]) == |u.bytes| && TotalEvents([u]) == u.events
  {
    assert [u][..0] == [];
  }

  lemma TotalsOfFront(us: seq<Unit>)
    requires us != []
    ensures TotalBytes(us) == |us[0].bytes| + TotalBytes(us[1..])
    ensures TotalEvents(us) == us[0].events + TotalEvents(us[1..])
  {
    assert us == [us[0]] + us[1..];
    TotalsAppend([us[0]], us[1..]);
    OneUnit(us[0]);
  }

  lemma OneMoreUnit(us: seq<Unit>, u: Unit)
    ensures TotalBytes(us + [u]) == TotalBytes(us) + |u.bytes| && TotalEvents(us + [u]) == TotalEvents(us) + u.events
  {
    assert (us + [u])[..|us|] == us;
  }

  /** One more unit on disk. */
  lemma UnitLands(us: seq<Unit>, u: Unit, base: nat)
    requires base + TotalBytes(us) + |u.bytes| <= U64_MAX
    ensures TotalBytes(us + [u]) == TotalBytes(us) + |u.bytes| && TotalEvents(us + [u]) == TotalEvents(us) + u.events
    ensures CatBytes(us + [u]) == CatBytes(us) + u.bytes
    ensures Placed(us + [u], base) == Placed(us, base) + PlacedAt(u, base + TotalBytes(us))
  {
    assert (us + [u])[..|us|] == us;
  }

  function FrontBytes(us: seq<Unit>): (r: seq<byte>) { if us == [] then [] else us[0].bytes }

  /** Writing the front unit at the cursor overwrites exactly the stray prefix of it a failed attempt left. */
  lemma RetryOverwritesTheTail(b: seq<byte>, cursor: nat, u: seq<byte>, k: nat)
    requires cursor <= |b| && b[cursor..] <= u && k <= |u|
    ensures var w := Overlay(b, cursor, u[..k]);
            w[..cursor] == b[..cursor] && w[cursor..] <= u && (k == |u| ==> w == b[..cursor] + u)
  {
    var w := Overlay(b, cursor, u[..k]);
    var t := b[cursor..];
    assert w[cursor..] == if k < |t| then t else u[..k] by {
      if k < |t| {
        assert b[cursor + k..] == t[k..];
        assert u[..k] == t[..k];
        assert w[cursor..] == u[..k] + t[k..];
      }
    }
  }

  /** The file is the base and whole units in order, then at most a prefix of the front pending unit. */
  ghost predicate OnDisk(bytes: seq<byte>, base: seq<byte>, written: seq<Unit>, pending: seq<Unit>)
  {
    var n := |base| + TotalBytes(written);
    n <= |bytes| && bytes[..n] == base + CatBytes(written) && bytes[n..] <= FrontBytes(pending)
  }

  lemma WholeUnitsAreOnDisk(base: seq<byte>, written: seq<Unit>, pending: seq<Unit>)
    ensures OnDisk(base + CatBytes(written), base, written, pending)
  {
  }

  lemma NothingPendingNothingStray(bytes: seq<byte>, base: seq<byte>, written: seq<Unit>)
    requires OnDisk(bytes, base, written, [])
    ensures bytes == base + CatBytes(written)
  {
    var n := |base| + TotalBytes(written);
    assert bytes == bytes[..n] + bytes[n..];
  }

  /** However much of the front unit an attempt writes, and whether or not the file is then cut back. */
  lemma AttemptKeepsOnDisk(bytes: seq<byte>, base: seq<byte>, written: seq<Unit>, pending: seq<Unit>, k: nat)
    requires OnDisk(bytes, base, written, pending) && pending != [] && k <= |pending[0].bytes|
    ensures |base| + TotalBytes(written) <= |bytes|
    ensures var n := |base| + TotalBytes(written);
            var w := Overlay(bytes, n, pending[0].bytes[..k]);
            && n <= |w| && OnDisk(w, base, written, pending) && OnDisk(w[..n], base, written, pending)
            && (k == |pending[0].bytes| ==> w == base + (CatBytes(written) + pending[0].bytes))
  {
    hide TotalBytes, CatBytes;
    RetryOverwritesTheTail(bytes, |base| + TotalBytes(written), pending[0].bytes, k);
  }

  /** One file, and the backlog of units it has not taken so far. */
  class Appender {
    const file: EventFile
    /** What the file held when the writer was opened: the magic, or an earlier legacy session. */
    ghost const base: seq<byte>
    /** Where the next unit goes; everything before it is whole. */
    var cursor: nat
    var pending: seq<Unit>
    var pendingBytes: nat
    const maxPendingBytes: nat
    var droppedEvents: nat
    var writtenEvents: nat
    var lastError: bool
    var index: seq<ChunkIndexEntry>
    /** The units fully on disk, in order. */
    ghost var written: seq<Unit>

    /** The first `cursor` bytes are the base and whole units; what follows is a prefix of the
        front pending unit; the counters and the index say exactly that. */
    ghost predicate Valid()
      reads this, file
    {
      && cursor == |base| + TotalBytes(written) && cursor <= U64_MAX
      && OnDisk(file.bytes, base, written, pending)
      && pendingBytes == TotalBytes(pending)
      && writtenEvents == TotalEvents(written)
      && index == Placed(written, |base|)
      && (|pending| <= 1 || pendingBytes <= maxPendingBytes)
    }

    constructor (file: EventFile, maxPendingBytes: nat)
      requires |file.bytes| <= U64_MAX
      ensures Valid() && this.file == file && base == file.bytes && this.maxPendingBytes == maxPendingBytes
      ensures written == [] && pending == [] && droppedEvents == 0 && !lastError
    {
      this.file := file;
      this.base := file.bytes;
      this.maxPendingBytes := maxPendingBytes;
      cursor := |file.bytes|;
      pending, pendingBytes, droppedEvents, writtenEvents := [], 0, 0, 0;
      lastError, index, written := false, [], [];
    }

    /** Keep a unit for writing, unless it would take the backlog over its bound: then its events are lost and
        counted. */
    method Enqueue(unit: Unit) returns (kept: bool)
      requires Valid()
      modifies this
      ensures Valid() && written == old(written) && cursor == old(cursor) && lastError == old(lastError)
      ensures kept <==> old(pending) == [] || old(pendingBytes) + |unit.bytes| <= maxPendingBytes
      ensures pending == old(pending) + if kept then [unit] else []
      ensures droppedEvents == old(droppedEvents) + if kept then 0 else unit.events
    {
      if pending != [] && pendingBytes + |unit.bytes| > maxPendingBytes {
        droppedEvents := droppedEvents + unit.events;
        return false;
      }
      TotalsAppend(pending, [unit]);
      OneUnit(unit);
      pendingBytes := pendingBytes + |unit.bytes|;
      pending := pending + [unit];
      kept := true;
    }

    /** Try to write the front unit: it lands whole, or the file keeps only a prefix of it behind the cursor. */
    method TryFront() returns (ok: bool)
      requires Valid() && pending != []
      modifies file
      ensures ok ==> file.bytes == base + CatBytes(written + [pending[0]]) && cursor + |pending[0].bytes| <= U64_MAX
      ensures !ok ==> Valid()
      ensures file.reliable && cursor + |pending[0].bytes| <= U64_MAX ==> ok
    {
      hide TotalBytes, TotalEvents, CatBytes, Placed, OnDisk, Overlay;
      var u := pending[0].bytes;
      ghost var b := file.bytes;
      AttemptKeepsOnDisk(b, base, written, pending, 0);
      ok := file.WriteAt(cursor, u);
      if ok {
        assert u[..|u|] == u;
        AttemptKeepsOnDisk(b, base, written, pending, |u|);
        UnitLands(written, pending[0], |base|);
      } else {
        ghost var k :| 0 <= k <= |u| && file.bytes == Overlay(b, cursor, u[..k]);
        AttemptKeepsOnDisk(b, base, written, pending, k);
        var cut := file.SetLen(cursor);
      }
    }

    /** Account for the front unit, which is now whole on disk. */
    method PopFront()
      requires pending != [] && cursor == |base| + TotalBytes(written) && cursor + |pending[0].bytes| <= U64_MAX
      requires file.bytes == base + CatBytes(written + [pending[0]])
      requires pendingBytes == TotalBytes(pending) && writtenEvents == TotalEvents(written)
      requires index == Placed(written, |base|) && (|pending| <= 1 || pendingBytes <= maxPendingBytes)
      modifies this
      ensures Valid() && written == old(written) + [old(pending)[0]] && pending == old(pending)[1..]
      ensures droppedEvents == old(droppedEvents)
    {
      hide TotalBytes, TotalEvents, CatBytes, Placed, OnDisk, PlacedAt;
      var unit, rest := pending[0], pending[1..];
      TotalsOfFront(pending);
      UnitLands(written, unit, |base|);
      ghost var written' := written + [unit];
      WholeUnitsAreOnDisk(base, written', rest);
      pending := rest;
      pendingBytes := pendingBytes - |unit.bytes|;
      index := index + PlacedAt(unit, cursor);
      cursor := cursor + |unit.bytes|;
      writtenEvents := writtenEvents + unit.events;
      written := written';
    }

    /** Work off the backlog from the front; the first failure ends it. */
    method Drain() returns (ok: bool)
      requires Valid()
      modifies this, file
      ensures Valid() && written + pending == old(written + pending) && droppedEvents == old(droppedEvents)
      ensures old(written) <= written
      ensures ok <==> pending == []
      ensures lastError <==> !ok
      ensures ok ==> file.bytes == base + CatBytes(written)
      ensures file.reliable && |base| + TotalBytes(old(written + pending)) <= U64_MAX ==> ok
    {
      hide TotalBytes, TotalEvents, CatBytes, Placed, OnDisk;
      while pending != []
        invariant Valid() && written + pending == old(written + pending) && droppedEvents == old(droppedEvents)
        invariant old(written) <= written
        decreases |pending|
      {
        TotalsAppend(written, pending);
        TotalsOfFront(pending);
        ok := TryFront();
        if !ok {
          lastError := true;
          return;
        }
        assert written + pending == (written + [pending[0]]) + pending[1..];
        PopFront();
      }
      NothingPendingNothingStray(file.bytes, base, written);
      lastError := false;
      ok := true;
    }
  }
}
