/** The replicated state machine: log entries are applied to the engine one by one, a snapshot
    of the engine can be streamed out, and a stream restored into any engine. */
module Fsm {
  import opened ByteStrings
  import opened Disk
  import opened Entries
  import opened Bloom
  import opened Store
  import opened EngineState
  import opened Engine
  import opened Machine
  import opened Replicas
  import opened Snapshots
  import Interleaving
  import Recovery
  import Removal

  // ---------- the meaning of a log ----------

  /** The write that a log entry stands for, if it can be decoded. */
  function WriteOf(codec: Codec, data: Bytes): Option<Write> {
    match codec.command(data)
    case Some(PutCommand(key, value)) => Some(Write(key, value))
    case Some(DeleteCommand(key)) => Some(Write(key, Nil))
    case _ => None
  }

  function WritesOf(codec: Codec, log: seq<Bytes>): seq<Write> {
    if log == [] then []
    else
      var pre := WritesOf(codec, log[..|log| - 1]);
      match WriteOf(codec, log[|log| - 1])
      case Some(w) => pre + [w]
      case None => pre
  }

  /** The plain map that a log describes. */
  function Meaning(codec: Codec, log: seq<Bytes>): Table {
    Overwritten(map[], WritesOf(codec, log))
  }

  /** What one more entry means, command by command; a value without bytes removes the key. */
  lemma EntryMeans(codec: Codec, log: seq<Bytes>, data: Bytes)
    ensures Meaning(codec, []) == map[]
    ensures var before, after := Meaning(codec, log), Meaning(codec, log + [data]);
      match codec.command(data)
      case Some(PutCommand(key, value)) =>
        if value.Data? && value.bytes != [] then after == before[key := value.bytes] else after == before - {key}
      case Some(DeleteCommand(key)) => after == before - {key}
      case _ => after == before
  {
    assert (log + [data])[..|log|] == log;
    if WriteOf(codec, data).Some? {
      var ws := WritesOf(codec, log);
      assert (ws + [WriteOf(codec, data).value])[..|ws|] == ws;
    }
  }

  lemma {:induction false} WritesOfConcat(codec: Codec, a: seq<Bytes>, b: seq<Bytes>)
    ensures WritesOf(codec, a + b) == WritesOf(codec, a) + WritesOf(codec, b)
  {
    if b == [] {
      assert a + b == a;
    } else {
      assert (a + b)[..|a + b| - 1] == a + b[..|b| - 1];
      WritesOfConcat(codec, a, b[..|b| - 1]);
    }
  }

  function PutsOf(es: seq<Entry<Value>>): (ws: seq<Write>)
    ensures |ws| == |es| && forall i :: 0 <= i < |es| ==> ws[i] == Write(es[i].key, es[i].val)
  {
    seq(|es|, i requires 0 <= i < |es| => Write(es[i].key, es[i].val))
  }

  /** Putting the restored entries one by one rebuilds the live part of the map they were
      taken from. */
  lemma {:induction false} RestoredPuts(es: seq<Entry<Bytes>>)
    ensures Overwritten(map[], PutsOf(Restored(es))) == Store.Live(ToMap(es))
  {
    if es != [] {
      var n := |es| - 1;
      RestoredPuts(es[..n]);
      assert PutsOf(Restored(es))[..n] == PutsOf(Restored(es[..n]));
    }
  }

  /** The meaning of a log has live keys only. */
  lemma {:induction false} OverwrittenIsLive(ws: seq<Write>)
    ensures Store.Live(Overwritten(map[], ws)) == Overwritten(map[], ws)
  {
    if ws != [] {
      OverwrittenIsLive(ws[..|ws| - 1]);
    }
  }

  /** Log compaction never changes meaning: a snapshot taken after any cut of the log, streamed
      out in any order of its keys and read back, followed by the rest of the log, describes
      the same map as the whole log. */
  lemma CompactedLogMeansTheSame(codec: Codec, log: seq<Bytes>, cut: nat, stream: Bytes)
    requires cut <= |log| && IsSnapshot(codec, Meaning(codec, log[..cut]), stream)
    ensures ReadStream(codec, stream, 0).1
    ensures Overwritten(map[], PutsOf(ReadStream(codec, stream, 0).0) + WritesOf(codec, log[cut..])) == Meaning(codec, log)
  {
    hide ReadStream, WritesOf, Overwritten, ToMap;
    var state := Meaning(codec, log[..cut]);
    var es: seq<Entry<Bytes>> :| ToMap(es) == state && ReadStream(codec, stream, 0) == (Restored(es), true);
    OverwrittenIsLive(WritesOf(codec, log[..cut]));
    RestoredPuts(es);
    OverwrittenConcat(map[], PutsOf(Restored(es)), WritesOf(codec, log[cut..]));
    OverwrittenConcat(map[], WritesOf(codec, log[..cut]), WritesOf(codec, log[cut..]));
    WritesOfConcat(codec, log[..cut], log[cut..]);
    assert log == log[..cut] + log[cut..];
  }

  /** A replica restored from the snapshot and brought up to date shows what the log means,
      whatever its own flushes and compactions. */
  lemma RestoredReplicaAgrees(codec: Codec, log: seq<Bytes>, cut: nat, stream: Bytes, keepMerged: bool, events: seq<Event>)
    requires cut <= |log| && IsSnapshot(codec, Meaning(codec, log[..cut]), stream) && Runs(keepMerged, events)
    requires Writes(events) == PutsOf(ReadStream(codec, stream, 0).0) + WritesOf(codec, log[cut..])
    ensures Views(keepMerged, events, Meaning(codec, log))
  {
    hide ReadStream, IsSnapshot, Views, Runs, Meaning;
    CompactedLogMeansTheSame(codec, log, cut, stream);
    RunViews(keepMerged, events);
  }

  // ---------- the state machine ----------

  /** The events of restoring some entries. */
  function PutEvents(es: seq<Entry<Value>>): (events: seq<Event>)
    ensures |events| == |es| && forall i :: 0 <= i < |es| ==> events[i] == Put(es[i].key, es[i].val)
  {
    seq(|es|, i requires 0 <= i < |es| => Put(es[i].key, es[i].val))
  }

  lemma {:induction false} WritesOfPuts(es: seq<Entry<Value>>)
    ensures Writes(PutEvents(es)) == PutsOf(es)
  {
    if es != [] {
      var n := |es| - 1;
      WritesOfPuts(es[..n]);
      assert PutEvents(es)[..n] == PutEvents(es[..n]);
      assert PutsOf(es) == PutsOf(es[..n]) + [Write(es[n].key, es[n].val)];
    }
  }

  ghost predicate EntriesFit(es: seq<Entry<Value>>) {
    forall i :: 0 <= i < |es| ==> WriteFits(es[i].key, es[i].val)
  }

  ghost predicate EntryFits(codec: Codec, data: Bytes) {
    WriteOf(codec, data).Some? ==> WriteFits(WriteOf(codec, data).value.key, WriteOf(codec, data).value.value)
  }

  /** What applying a log entry does. */
  function EventsOf(codec: Codec, data: Bytes): (events: seq<Event>)
    ensures Removal.Removes(events) == 0
  {
    match codec.command(data)
    case Some(PutCommand(key, value)) => [Put(key, value)]
    case Some(DeleteCommand(key)) => [Delete(key)]
    case _ => []
  }

  lemma WriteAppended(trace: seq<Event>, e: Event)
    requires e.Put? || e.Delete?
    ensures Writes(trace + [e]) == Writes(trace) + [Write(e.key, if e.Put? then e.value else Nil)]
    ensures Removal.Removes(trace + [e]) == Removal.Removes(trace)
  {
    assert (trace + [e])[..|trace|] == trace;
  }

  lemma EntryAppended(codec: Codec, log: seq<Bytes>, data: Bytes)
    ensures WritesOf(codec, log + [data]) == WritesOf(codec, log) + if WriteOf(codec, data).Some? then [WriteOf(codec, data).value] else []
  {
    assert (log + [data])[..|log|] == log;
  }

  /** One more entry is one more write, or none. */
  lemma OneMoreWrite(codec: Codec, trace: seq<Event>, before: seq<Write>, log: seq<Bytes>, data: Bytes)
    requires Writes(trace) == before + WritesOf(codec, log)
    ensures Writes(trace + EventsOf(codec, data)) == before + WritesOf(codec, log + [data])
    ensures Removal.Removes(trace + EventsOf(codec, data)) == Removal.Removes(trace)
  {
    hide Writes, WritesOf, Removal.Removes;
    EntryAppended(codec, log, data);
    var events := EventsOf(codec, data);
    if events == [] {
      AtTheEnd(trace);
    } else {
      WriteAppended(trace, events[0]);
    }
  }

  lemma {:induction false} PutsRemoveNothing(es: seq<Entry<Value>>)
    ensures Removal.Removes(PutEvents(es)) == 0
  {
    if es != [] {
      var n := |es| - 1;
      PutsRemoveNothing(es[..n]);
      assert PutEvents(es)[..n] == PutEvents(es[..n]);
    }
  }

  /** A replica has restored a snapshot and applied a part of the log behind the cut. */
  ghost predicate CatchingUp(codec: Codec, es: seq<Entry<Value>>, log: seq<Bytes>, trace: seq<Event>) {
    Writes(trace) == PutsOf(es) + WritesOf(codec, log) && Removal.Removes(trace) == 0
  }

  lemma CatchUpStarts(codec: Codec, es: seq<Entry<Value>>, log: seq<Bytes>, cut: nat)
    requires cut <= |log|
    ensures CatchingUp(codec, es, log[cut..cut], PutEvents(es))
  {
    WritesOfPuts(es);
    PutsRemoveNothing(es);
    assert log[cut..cut] == [];
    assert PutsOf(es) + [] == PutsOf(es);
  }

  lemma CatchUpStep(codec: Codec, es: seq<Entry<Value>>, log: seq<Bytes>, cut: nat, i: nat, trace: seq<Event>)
    requires cut <= i < |log| && CatchingUp(codec, es, log[cut..i], trace)
    ensures CatchingUp(codec, es, log[cut..i + 1], trace + EventsOf(codec, log[i]))
  {
    hide Writes, WritesOf, Removal.Removes, EventsOf;
    OneMoreWrite(codec, trace, PutsOf(es), log[cut..i], log[i]);
    assert log[cut..i + 1] == log[cut..i] + [log[i]];
  }

  lemma CatchingUpWrites(codec: Codec, es: seq<Entry<Value>>, log: seq<Bytes>, trace: seq<Event>)
    requires CatchingUp(codec, es, log, trace)
    ensures Writes(trace) == PutsOf(es) + WritesOf(codec, log)
  {
  }

  lemma StillBegan(w: Interleaving.Schedule, events: seq<Event>)
    requires Interleaving.Began(w, map[])
    ensures Interleaving.Began(w.(trace := w.trace + events), map[])
  {
  }

  lemma ReachedIt(db: StrataGo, w: Interleaving.Schedule)
    requires Interleaving.Valid(db, w)
    ensures Interleaving.Reached(w, db.Mem(), db.Dir())
  {
    hide StrataGo.Valid, StrataGo.Mem, StrataGo.Dir, Interleaving.Reached, Interleaving.FlushValid, Interleaving.CompactValid;
  }

  lemma CaughtUp(codec: Codec, stream: Bytes, log: seq<Bytes>, cut: nat, w: Interleaving.Schedule, m: Memory, d: Directory)
    requires cut <= |log| && IsSnapshot(codec, Meaning(codec, log[..cut]), stream)
    requires CatchingUp(codec, ReadStream(codec, stream, 0).0, log[cut..|log|], w.trace)
    requires Interleaving.Reached(w, m, d) && Interleaving.Began(w, map[])
    ensures PlainAfter(map[], w.trace) == Meaning(codec, log)
    ensures Interleaving.Sparing(w) && Store.ScanAll(m, d.tables) == Meaning(codec, log)
  {
    hide ReadStream, IsSnapshot, Meaning, WritesOf, Writes, Overwritten, PlainAfter, Store.ScanAll, Interleaving.Reached, Shows;
    assert log[cut..|log|] == log[cut..];
    CompactedLogMeansTheSame(codec, log, cut, stream);
    PlainIsOverwritten(map[], w.trace);
    Interleaving.ViewsArePlain(w, map[], m, d);
  }

  lemma NextEntry(es: seq<Entry<Value>>, done: seq<Entry<Value>>, e: Entry<Value>, rest: seq<Entry<Value>>)
    requires EntriesFit(es) && es == done + ([e] + rest)
    ensures WriteFits(e.key, e.val) && es == (done + [e]) + rest
    ensures PutEvents(done + [e]) == PutEvents(done) + [Put(e.key, e.val)]
    ensures ToMap(done + [e]) == ToMap(done)[e.key := e.val]
  {
    assert es[|done|] == e;
    assert (done + [e])[..|done|] == done;
  }

  lemma AtTheEnd<T>(done: seq<T>)
    ensures done + [] == done
  {
  }

  lemma PutNothing(keepMerged: bool)
    ensures Init().mem == Memory(map[], None, []) && Init().dir == Directory(map[], map[], None)
    ensures Init() == State(Init().mem, Init().dir, FlushIdle, CompactIdle, 0)
    ensures ToMap<Value>([]) == map[]
    ensures PutEvents([]) == [] == Interleaving.Start(keepMerged, Init()).trace && forall es: seq<Entry<Value>> :: [] + es == es
  {
  }

  class StrataFSM {
    const db: StrataGo
    const codec: Codec

    constructor (db: StrataGo, codec: Codec)
      ensures this.db == db && this.codec == codec
    {
      this.db, this.codec := db, codec;
    }

    /** Applies one log entry, after whatever the engine received before this part of the log; an
        entry that cannot be decoded changes nothing. */
    method Apply(data: Bytes, ghost before: seq<Write>, ghost log: seq<Bytes>, ghost w: Interleaving.Schedule)
      returns (ok: bool, ghost w': Interleaving.Schedule)
      requires Interleaving.Valid(db, w) && Writes(w.trace) == before + WritesOf(codec, log)
      requires EntryFits(codec, data)
      modifies db.activeMemtable.Repr, db.wal, db.wal.file
      ensures Interleaving.Valid(db, w') && w' == w.(trace := w.trace + EventsOf(codec, data))
      ensures unchanged(db) && fresh(db.activeMemtable.Repr - old(db.activeMemtable.Repr))
      ensures ok == WriteOf(codec, data).Some?
      ensures Writes(w'.trace) == before + WritesOf(codec, log + [data])
      ensures match codec.command(data)
        case Some(PutCommand(key, value)) => ok && db.activeMemtable.Contents == old(db.activeMemtable.Contents)[key := value]
        case Some(DeleteCommand(key)) => ok && db.activeMemtable.Contents == old(db.activeMemtable.Contents)[key := Nil]
        case _ => !ok && db.activeMemtable.Contents == old(db.activeMemtable.Contents)
    {
      hide Interleaving.Valid, Writes, WritesOf, WriteFits, Removal.Removes;
      OneMoreWrite(codec, w.trace, before, log, data);
      AtTheEnd(w.trace);
      w' := w;
      match codec.command(data)
      case Some(PutCommand(key, value)) =>
        w' := Interleaving.Put(db, key, value, w);
        ok := true;
      case Some(DeleteCommand(key)) =>
        w' := Interleaving.Delete(db, key, w);
        ok := true;
      case _ =>
        ok := false;
    }

    /** The state that a snapshot will stream out is the full scan: what the part of the log
        applied so far makes of what the engine was opened on and received before, as long as no
        merged file has been removed. */
    method Snapshot(ghost before: seq<Write>, ghost log: seq<Bytes>, ghost w: Interleaving.Schedule, ghost plain: Table)
      returns (state: Table)
      requires Interleaving.Valid(db, w) && Interleaving.Began(w, plain)
      requires Writes(w.trace) == before + WritesOf(codec, log)
      ensures Interleaving.Valid(db, w) && state == Store.ScanAll(db.Mem(), db.Dir().tables)
      ensures Interleaving.Sparing(w) ==> state == Overwritten(Overwritten(plain, before), WritesOf(codec, log))
    {
      hide Interleaving.Valid, Interleaving.Began, Interleaving.Sparing, Store.ScanAll, Writes, WritesOf, Overwritten;
      PlainIsOverwritten(plain, w.trace);
      OverwrittenConcat(plain, before, WritesOf(codec, log));
      state := Interleaving.FullScan(db, w, plain);
    }

    /** Whatever the engine held, it is purged and then receives exactly the entries that can
        be read from the stream, in order. */
    method Restore(stream: Bytes, timestamp: int, ghost keepMerged: bool) returns (ok: bool, ghost w: Interleaving.Schedule)
      requires db.Valid() && KeysFit(db.FlushTarget().size) && EntriesFit(ReadStream(codec, stream, 0).0)
      modifies db, db.dir
      ensures Interleaving.Valid(db, w) && Interleaving.Began(w, map[])
      ensures ok == ReadStream(codec, stream, 0).1
      ensures w == Interleaving.Start(keepMerged, Init()).(trace := PutEvents(ReadStream(codec, stream, 0).0))
      ensures fresh(db.activeMemtable.Repr + {db.wal, db.wal.file})
      ensures db.activeMemtable.Contents == ToMap(ReadStream(codec, stream, 0).0)
    {
      hide *;
      db.Purge(timestamp);
      PutNothing(keepMerged);
      Interleaving.BeganEmpty(keepMerged);
      Interleaving.Started(db, keepMerged, 0);
      w := Interleaving.Start(keepMerged, Init());
      ghost var done: seq<Entry<Value>> := [];
      var pos: nat := 0;
      while true
        invariant pos <= |stream| && Interleaving.Valid(db, w) && fresh(db.activeMemtable.Repr + {db.wal, db.wal.file})
        invariant w == Interleaving.Start(keepMerged, Init()).(trace := PutEvents(done))
        invariant db.activeMemtable.Contents == ToMap(done)
        invariant done + ReadStream(codec, stream, pos).0 == ReadStream(codec, stream, 0).0
        invariant ReadStream(codec, stream, pos).1 == ReadStream(codec, stream, 0).1
        decreases |stream| - pos
      {
        ReadRound(codec, stream, pos);
        AtTheEnd(done);
        var length := ReadU32(stream, pos);
        if length.Eof? {
          return true, w;
        }
        if !length.Got? {
          return false, w;
        }
        var data := ReadFull(stream, pos + 4, length.value);
        if !data.Got? {
          return false, w;
        }
        var entry := codec.unmarshal(data.value);
        if entry.None? {
          return false, w;
        }
        var next: nat := pos + 4 + length.value;
        NextEntry(ReadStream(codec, stream, 0).0, done, entry.value, ReadStream(codec, stream, next).0);
        w := Interleaving.Put(db, entry.value.key, entry.value.val, w);
        done, pos := done + [entry.value], next;
      }
    }

    /** A lagging replica catches up: it restores a snapshot that was taken after a cut of the
        log, in any order of its keys, and applies the rest. What it holds then is what the whole
        log means, whatever it held before; its full scan says so. */
    method CatchUp(stream: Bytes, timestamp: int, log: seq<Bytes>, cut: nat, ghost keepMerged: bool)
      returns (ok: bool, ghost w: Interleaving.Schedule)
      requires db.Valid() && KeysFit(db.FlushTarget().size) && EntriesFit(ReadStream(codec, stream, 0).0)
      requires cut <= |log| && IsSnapshot(codec, Meaning(codec, log[..cut]), stream)
      requires forall i :: cut <= i < |log| ==> EntryFits(codec, log[i])
      modifies db, db.dir
      ensures ok && Interleaving.Valid(db, w) && Interleaving.Began(w, map[])
      ensures PlainAfter(map[], w.trace) == Meaning(codec, log)
      ensures Interleaving.Sparing(w) && Store.ScanAll(db.Mem(), db.Dir().tables) == Meaning(codec, log)
    {
      hide *;
      ok, w := Restore(stream, timestamp, keepMerged);
      ghost var es := ReadStream(codec, stream, 0).0;
      CatchUpStarts(codec, es, log, cut);
      CompactedLogMeansTheSame(codec, log, cut, stream);
      var i := cut;
      while i < |log|
        invariant cut <= i <= |log| && Interleaving.Valid(db, w) && Interleaving.Began(w, map[])
        invariant fresh(db.activeMemtable.Repr + {db.wal, db.wal.file})
        invariant CatchingUp(codec, es, log[cut..i], w.trace)
      {
        CatchUpStep(codec, es, log, cut, i, w.trace);
        CatchingUpWrites(codec, es, log[cut..i], w.trace);
        StillBegan(w, EventsOf(codec, log[i]));
        var applied;
        applied, w := Apply(log[i], PutsOf(es), log[cut..i], w);
        i := i + 1;
      }
      ReachedIt(db, w);
      CaughtUp(codec, stream, log, cut, w, db.Mem(), db.Dir());
    }
  }
}
