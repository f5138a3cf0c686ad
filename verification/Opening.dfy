/** The parts of Open: replaying the logs and opening the table files. */
module Opening {
  import opened ByteStrings
  import opened Disk
  import opened Entries
  import opened SsTable
  import opened Tables
  import opened Store
  import opened EngineState
  import Merging
  import Recovery
  import SkipLists
  import Wal

  // ---------- the table files ----------

  lemma {:induction false} MinimumExists(ts: set<int>)
    requires ts != {}
    ensures exists t :: t in ts && forall u :: u in ts ==> t <= u
  {
    var negated := set u | u in ts :: -u;
    Recovery.SomeTimestamp(ts);
    var x :| x in ts;
    assert -x in negated;
    Recovery.MaximumExists(negated);
    var m :| m in negated && forall u :: u in negated ==> u <= m;
    assert -m in ts && forall u :: u in ts ==> -u in negated;
    assert forall u :: u in ts ==> -m <= u;
  }

  /** The readers opened so far: in the order of their timestamps, which come before those of
      the files still to be opened. */
  ghost predicate Opened(hash: Bytes -> u32, files: map<int, Bytes>, rest: set<int>, readers: seq<Reader>, objects: set<object>)
    reads objects
  {
    && rest <= files.Keys && Merging.Distinct(readers)
    && (forall r :: r in readers ==> ReaderIn(hash, r, objects))
    && Listed(files, rest, readers)
  }

  ghost predicate Listed(files: map<int, Bytes>, rest: set<int>, readers: seq<Reader>) {
    && (forall i, j :: 0 <= i < j < |readers| ==> readers[i].timestamp < readers[j].timestamp)
    && (forall i, t :: 0 <= i < |readers| && t in rest ==> readers[i].timestamp < t)
    && (forall i :: 0 <= i < |readers| ==> readers[i].timestamp in files && readers[i].data == files[readers[i].timestamp])
    && (forall t :: t in files ==> t in rest || exists i :: 0 <= i < |readers| && readers[i].timestamp == t)
  }

  lemma ListedStep(files: map<int, Bytes>, rest: set<int>, readers: seq<Reader>, t: int, reader: Reader)
    requires Listed(files, rest, readers) && t in rest && t in files && forall u :: u in rest ==> t <= u
    requires reader.timestamp == t && reader.data == files[t]
    ensures Listed(files, rest - {t}, readers + [reader])
  {
    var readers' := readers + [reader];
    forall u | u in files ensures u in rest - {t} || exists i :: 0 <= i < |readers'| && readers'[i].timestamp == u {
      if u == t {
        assert readers'[|readers|].timestamp == u;
      } else if u !in rest {
        var i :| 0 <= i < |readers| && readers[i].timestamp == u;
        assert readers'[i].timestamp == u;
      }
    }
  }

  lemma ListedAll(files: map<int, Bytes>, readers: seq<Reader>)
    requires Listed(files, {}, readers)
    ensures RunsOf(readers) == Recovery.SortedRuns(TablesOf(files))
  {
    hide TableOf, Recovery.SortedRuns;
    var tables, runs := TablesOf(files), RunsOf(readers);
    forall t | t in tables ensures exists i :: 0 <= i < |runs| && runs[i].timestamp == t {
      var i :| 0 <= i < |readers| && readers[i].timestamp == t;
      assert runs[i].timestamp == t;
    }
    Recovery.SortedRunsOrder(tables, runs);
  }

  /** Opens the file with the least timestamp among those left. */
  method OpenNext(hash: Bytes -> u32, dir: DataDir, rest: set<int>, readers: seq<Reader>, ghost objects: set<object>)
    returns (t: int, reader: Reader)
    requires rest != {} && Opened(hash, dir.tables, rest, readers, objects)
    requires forall t :: t in dir.tables ==> WellFormed(hash, dir.tables[t])
    ensures fresh(ReaderObjects(reader)) && t in rest
    ensures Opened(hash, dir.tables, rest - {t}, readers + [reader], objects + ReaderObjects(reader))
  {
    hide WellFormed, Load, TableStop, Listed, Reader.Valid;
    MinimumExists(rest);
    t :| t in rest && forall u :: u in rest ==> t <= u;
    WellFormedLoads(hash, dir.tables[t]);
    reader := NewReader(hash, dir, t);
    ListedStep(dir.tables, rest, readers, t, reader);
    assert reader !in readers;
  }

  /** The loop over the sorted file names. */
  method OpenReaders(hash: Bytes -> u32, dir: DataDir) returns (readers: seq<Reader>, ghost objects: set<object>)
    requires forall t :: t in dir.tables ==> WellFormed(hash, dir.tables[t])
    ensures fresh(objects) && Merging.Distinct(readers) && forall r :: r in readers ==> ReaderIn(hash, r, objects)
    ensures RunsOf(readers) == Recovery.SortedRuns(TablesOf(dir.tables))
  {
    hide WellFormed, Listed, ReaderIn, RunsOf, TablesOf, Recovery.SortedRuns;
    readers, objects := [], {};
    NothingListed(dir.tables);
    var rest := dir.tables.Keys;
    while rest != {}
      invariant fresh(objects) && Opened(hash, dir.tables, rest, readers, objects)
      decreases |rest|
    {
      var t, reader := OpenNext(hash, dir, rest, readers, objects);
      rest := rest - {t};
      readers, objects := readers + [reader], objects + ReaderObjects(reader);
    }
    ListedAll(dir.tables, readers);
  }

  lemma NothingListed(files: map<int, Bytes>)
    ensures Listed(files, files.Keys, [])
  {
  }

  // ---------- the logs ----------

  /** A log, torn or not, whose record sizes do not wrap around. */
  ghost predicate Readable(crc: Bytes -> u32, data: Bytes) {
    Wal.AllFit(Wal.Records(crc, data))
  }

  lemma {:induction false} SequenceNumbersFit(start: nat, rs: seq<Wal.Record>)
    requires Wal.AllFit(rs) && start < TWO64
    ensures Wal.MaxSeqNum(start, rs) < TWO64
  {
    if rs != [] {
      SequenceNumbersFit(start, rs[..|rs| - 1]);
    }
  }

  /** What is left of a log after its recovery. */
  lemma RecoveredLog(crc: Bytes -> u32, data: Bytes)
    requires Readable(crc, data)
    ensures Wal.ValidOffset(Wal.Records(crc, data)) <= |data|
    ensures var rest := data[..Wal.ValidOffset(Wal.Records(crc, data))];
      WholeLog(crc, rest) && Wal.Replay(crc, rest) == Wal.Replay(crc, data)
    ensures ReplayFits(Wal.Replay(crc, data))
  {
    hide Wal.Records, Wal.ValidOffset, Wal.TotalSize, ReplayFits;
    Wal.RecoverIdempotent(crc, data);
    Wal.ValidOffsetIsTotalSize(Wal.Records(crc, data));
    WholeLogFits(crc, data[..Wal.ValidOffset(Wal.Records(crc, data))]);
  }

  method RecoverLog(walLog: Wal.WAL) returns (restored: Table)
    requires Readable(walLog.crc, walLog.file.data) && walLog.sequenceNumber < TWO64
    modifies walLog, walLog.file
    ensures restored == Wal.Replay(walLog.crc, walLog.file.data) == old(Wal.Replay(walLog.crc, walLog.file.data))
    ensures WholeLog(walLog.crc, walLog.file.data) && ReplayFits(restored) && walLog.sequenceNumber < TWO64
  {
    hide Wal.Records, Wal.ValidOffset, ReplayFits, WholeLog, Wal.Replay;
    ghost var data := walLog.file.data;
    RecoveredLog(walLog.crc, data);
    SequenceNumbersFit(walLog.sequenceNumber, Wal.Records(walLog.crc, data));
    restored := walLog.Recover();
  }

  lemma WholeIsReadable(crc: Bytes -> u32, data: Bytes)
    requires WholeLog(crc, data)
    ensures Readable(crc, data)
  {
  }

  ghost function LogFiles(dir: DataDir): set<File>
    reads dir
  {
    (if dir.log == null then {} else {dir.log}) + if dir.flushing == null then {} else {dir.flushing}
  }

  ghost function LogData(dir: DataDir): Bytes
    reads dir, dir.log
  {
    if dir.log == null then [] else dir.log.data
  }

  /** Copies of an abandoned log, if there is one, are written behind whole records. */
  ghost predicate Appendable(crc: Bytes -> u32, dir: DataDir)
    reads dir, dir.log
  {
    dir.flushing == null || dir.log == null || WholeLog(crc, dir.log.data)
  }

  /** What a log has behind its last record that can be read. */
  ghost function TornPart(crc: Bytes -> u32, data: Bytes): (part: Bytes)
    ensures WholeLog(crc, data) ==> part == []
  {
    Wal.RecordsWithinData(crc, data);
    data[Wal.TotalSize(Wal.Records(crc, data))..]
  }

  /** What Open needs of the logs. If the abandoned one is going to be copied behind torn bytes,
      then these and the copies have less than 4 GiB. */
  ghost predicate LogsReadable(crc: Bytes -> u32, dir: DataDir)
    reads dir, dir.log, dir.flushing
  {
    && (dir.log != null ==> Readable(crc, dir.log.data))
    && (dir.flushing != null ==> dir.flushing != dir.log && Readable(crc, dir.flushing.data))
    && (!Appendable(crc, dir) ==> |TornPart(crc, dir.log.data)| + |dir.flushing.data| < TWO32)
  }

  lemma WholeLogsReadable(crc: Bytes -> u32, dir: DataDir)
    requires dir.log != null && WholeLog(crc, dir.log.data)
    requires dir.flushing != null ==> dir.flushing != dir.log && WholeLog(crc, dir.flushing.data)
    ensures LogsReadable(crc, dir) && Appendable(crc, dir)
  {
  }

  /** The copies of an abandoned log have at most its length. */
  lemma CopiesAreShort(crc: Bytes -> u32, data: Bytes, copied: seq<Wal.Record>, before: nat)
    requires CopyOf(copied, Wal.Replay(crc, data), before)
    ensures |Wal.LogBytes(crc, copied)| <= |data|
  {
    hide Wal.Records, Wal.LogBytes, Wal.TotalSize, ToMap;
    forall i | 0 <= i < |copied|
      ensures copied[i].key in Wal.Replay(crc, data) && Wal.Replay(crc, data)[copied[i].key] == copied[i].val
    {
      ToMapLookup(Wal.EntriesOf(copied), copied[i].key);
      assert LastWrite(Wal.EntriesOf(copied), copied[i].key, i);
    }
    Wal.CopiesAreNoLonger(Wal.Records(crc, data), copied);
    Wal.LogSize(crc, copied);
    Wal.RecordsWithinData(crc, data);
  }

  /** The record that starts behind the last one that could be read is still not accepted
      when the copies have been appended. */
  ghost predicate TailRejected(crc: Bytes -> u32, data: Bytes, copied: seq<Wal.Record>) {
    Wal.ParseRecord(crc, data + Wal.LogBytes(crc, copied), Wal.TotalSize(Wal.Records(crc, data))) == None
  }

  /** What is appended to any bytes is read together with their torn part. */
  lemma ReadBehind(crc: Bytes -> u32, data: Bytes, more: Bytes)
    ensures Wal.Records(crc, data + more) == Wal.Records(crc, data) + Wal.Records(crc, TornPart(crc, data) + more)
    ensures Wal.Replay(crc, data + more) == Wal.Replay(crc, data) + Wal.Replay(crc, TornPart(crc, data) + more)
  {
    hide Wal.Records, Wal.TotalSize, ToMap;
    var rs, part := Wal.Records(crc, data), TornPart(crc, data);
    Wal.RecordsThenAppend(crc, data, part + more);
    assert data[..Wal.TotalSize(rs)] + (part + more) == data + more;
    var rs' := Wal.Records(crc, part + more);
    assert Wal.EntriesOf(rs + rs') == Wal.EntriesOf(rs) + Wal.EntriesOf(rs');
    ToMapConcat(Wal.EntriesOf(rs), Wal.EntriesOf(rs'));
  }

  /** What the log replays after copies have been appended to any bytes: they are read behind
      whole records, and not read behind a tail that is still rejected. */
  lemma CopiedLog(crc: Bytes -> u32, data: Bytes, copied: seq<Wal.Record>, restored: Table, before: nat)
    requires Readable(crc, data) && CopyOf(copied, restored, before)
    requires WholeLog(crc, data) || |TornPart(crc, data)| + |Wal.LogBytes(crc, copied)| < TWO32
    ensures var log := data + Wal.LogBytes(crc, copied);
      && Readable(crc, log)
      && (WholeLog(crc, data) ==> Wal.Replay(crc, log) == Wal.Replay(crc, data) + restored)
      && (TailRejected(crc, data, copied) ==> Wal.Replay(crc, log) == Wal.Replay(crc, data))
  {
    hide Wal.Records, Wal.LogBytes, Wal.ParseRecord, Wal.TotalSize, ToMap, TornPart;
    var part, more := TornPart(crc, data), Wal.LogBytes(crc, copied);
    ReadBehind(crc, data, more);
    if WholeLog(crc, data) {
      assert part + more == more;
      Wal.LogRoundTrip(crc, copied);
    } else {
      Wal.ShortLogFits(crc, part + more);
    }
    if TailRejected(crc, data, copied) {
      Wal.RejectedTail(crc, data, more);
    }
  }

  /** The log after a crash in the middle of an append: it replays what it did before. */
  lemma TornLog(crc: Bytes -> u32, data: Bytes, r: Wal.Record, n: nat)
    requires WholeLog(crc, data) && Wal.Fits(r) && n < Wal.Size(r)
    ensures var torn := data + Wal.RecordBytes(crc, r)[..n];
      && Readable(crc, torn) && Wal.Replay(crc, torn) == Wal.Replay(crc, data)
      && (WholeLog(crc, torn) <==> n == 0) && TornPart(crc, torn) == Wal.RecordBytes(crc, r)[..n]
  {
    hide Wal.Records, Wal.RecordBytes;
    Wal.TornTail(crc, data, r, n);
  }

  /** What follows a torn record is read together with it. */
  lemma ReadBehindTorn(crc: Bytes -> u32, data: Bytes, r: Wal.Record, n: nat, more: Bytes)
    requires WholeLog(crc, data) && Wal.Fits(r) && n < Wal.Size(r)
    ensures var part := Wal.RecordBytes(crc, r)[..n];
      Wal.Replay(crc, data + part + more) == Wal.Replay(crc, data) + Wal.Replay(crc, part + more)
  {
    hide Wal.Replay, Wal.RecordBytes, WholeLog, Readable, TornPart;
    TornLog(crc, data, r, n);
    ReadBehind(crc, data + Wal.RecordBytes(crc, r)[..n], more);
  }

  /** A torn record alone stands for nothing. */
  lemma TornAlone(crc: Bytes -> u32, r: Wal.Record, n: nat)
    requires Wal.Fits(r) && n < Wal.Size(r)
    ensures Wal.Replay(crc, Wal.RecordBytes(crc, r)[..n] + Wal.LogBytes(crc, [])) == map[]
  {
    hide Wal.RecordBytes, Wal.ParseRecord;
    Wal.ParseTorn(crc, r, n);
    Wal.Unread(crc, Wal.RecordBytes(crc, r)[..n]);
    assert Wal.RecordBytes(crc, r)[..n] + [] == Wal.RecordBytes(crc, r)[..n];
  }

  /** NewWAL: the file is created if it is not there. */
  method OpenLog(crc: Bytes -> u32, dir: DataDir) returns (walLog: Wal.WAL)
    requires LogsReadable(crc, dir)
    modifies dir`log
    ensures fresh(walLog) && walLog.crc == crc && walLog.sequenceNumber == 0 && walLog.file == dir.log
    ensures dir.log.data == old(LogData(dir))
    ensures LogsReadable(crc, dir) && (old(dir.log) == null ==> fresh(walLog.file)) && (old(dir.log) != null ==> dir.log == old(dir.log))
    ensures DirectoryOf(crc, dir) == old(DirectoryOf(crc, dir)) && Appendable(crc, dir) == old(Appendable(crc, dir))
  {
    hide WholeLog, Readable, Wal.Replay, TablesOf, TornPart;
    if dir.log == null {
      EmptyLog(crc);
      WholeIsReadable(crc, []);
      dir.log := new File([]);
    }
    walLog := new Wal.WAL(crc, dir.log);
  }

  /** The abandoned log of a flush: recovered, copied into the memtable and the current log,
      and removed. */
  method TakeOverFlushing(dir: DataDir, mem: SkipLists.SkipList, walLog: Wal.WAL) returns (ghost copied: seq<Wal.Record>)
    requires dir.flushing != null && dir.flushing != walLog.file
    requires Readable(walLog.crc, dir.flushing.data) && walLog.sequenceNumber < TWO64
    requires mem.Valid() && mem.Repr !! {dir, dir.flushing, walLog, walLog.file} && mem.Contents == map[]
    modifies dir`flushing, dir.flushing, mem.Repr, walLog, walLog.file
    ensures mem.Valid() && fresh(mem.Repr - old(mem.Repr))
    ensures mem.Contents == DataOf(old(Wal.Replay(walLog.crc, dir.flushing.data)))
    ensures walLog.sequenceNumber < TWO64 && dir.flushing == null
    ensures CopyOf(copied, old(Wal.Replay(walLog.crc, dir.flushing.data)), old(walLog.sequenceNumber))
    ensures walLog.file.data == old(walLog.file.data) + Wal.LogBytes(walLog.crc, copied)
  {
    hide WholeLog, Readable, Wal.Replay, SkipLists.SkipList.Valid, ReplayFits, DataOf, CopyOf, Wal.LogBytes;
    var tempWal := new Wal.WAL(walLog.crc, dir.flushing);
    var restored := RecoverLog(tempWal);
    copied := ReplayAndLog(mem, walLog, restored);
    dir.flushing := null;
    assert map[] + DataOf(restored) == DataOf(restored);
  }

  lemma ReplayTwice(first: Table, all: Table)
    ensures first.Keys <= all.Keys ==> DataOf(first) + DataOf(all) == DataOf(all)
    ensures DataOf(first) + DataOf(all) == DataOf(first + all)
  {
  }

  lemma ReplayedFits(first: Table, m: Table)
    requires ReplayFits(first) && ReplayFits(m)
    ensures MemtableFits(DataOf(first + m))
  {
  }

  /** The abandoned log, if there is one, has been copied behind these bytes, and this is what
      the log then replays. */
  ghost predicate TakenOver(crc: Bytes -> u32, d: Directory, data: Bytes, copied: seq<Wal.Record>, logged: Table) {
    && (if d.flushing.Some? then CopyOf(copied, d.flushing.value, 0) else copied == [])
    && logged == Wal.Replay(crc, data + Wal.LogBytes(crc, copied))
  }

  lemma NothingTakenOver(crc: Bytes -> u32, d: Directory, data: Bytes)
    requires d.flushing.None?
    ensures TakenOver(crc, d, data, [], Wal.Replay(crc, data))
  {
    hide Wal.Replay;
    assert data + [] == data;
  }

  /** Both logs, in the order of Open. */
  method ReplayLogs(crc: Bytes -> u32, dir: DataDir, walLog: Wal.WAL) returns (mem: SkipLists.SkipList, ghost copied: seq<Wal.Record>)
    requires LogsReadable(crc, dir) && walLog.file == dir.log && walLog.crc == crc && walLog.sequenceNumber == 0
    modifies dir`flushing, walLog, LogFiles(dir)
    ensures mem.Valid() && fresh(mem.Repr) && MemtableFits(mem.Contents)
    ensures WholeLog(crc, walLog.file.data) && walLog.sequenceNumber < TWO64 && dir.flushing == null
    ensures TakenOver(crc, old(DirectoryOf(crc, dir)), old(dir.log.data), copied, Wal.Replay(crc, walLog.file.data))
    ensures mem.Contents == DataOf(Recovery.Complete(old(DirectoryOf(crc, dir)), Wal.Replay(crc, walLog.file.data)).log)
    ensures old(Appendable(crc, dir)) ==> Wal.Replay(crc, walLog.file.data) == Recovery.Replayed(old(DirectoryOf(crc, dir)))
    ensures !old(Appendable(crc, dir)) && TailRejected(crc, old(dir.log.data), copied) ==>
      Wal.Replay(crc, walLog.file.data) == old(Wal.Replay(crc, dir.log.data))
  {
    hide WholeLog, Readable, Wal.Replay, SkipLists.SkipList.Valid, ReplayFits, DataOf, MemtableFits, TablesOf, CopyOf, TailRejected,
      TornPart, Wal.LogBytes;
    mem := new SkipLists.SkipList();
    AllKeys(map[]);
    ghost var first: Table, data := map[], dir.log.data;
    NothingFits();
    copied := [];
    if dir.flushing == null {
      NothingTakenOver(crc, DirectoryOf(crc, dir), data);
    } else {
      first := Wal.Replay(crc, dir.flushing.data);
      RecoveredLog(crc, dir.flushing.data);
      ghost var flushing := dir.flushing.data;
      copied := TakeOverFlushing(dir, mem, walLog);
      CopiesAreShort(crc, flushing, copied, 0);
      CopiedLog(crc, data, copied, first, 0);
    }
    var restored := RecoverLog(walLog);
    ReplayInto(mem, restored);
    ReplayTwice(first, restored);
    ReplayedFits(first, restored);
  }

  lemma NothingFits()
    ensures ReplayFits(map[])
  {
  }
}
