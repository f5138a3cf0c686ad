/** The engine: one object whose methods are the lock-protected sections of the store. Each
    method is tied to the function of module Store that says what the section does. */
module Engine {
  import opened ByteStrings
  import opened Disk
  import opened Entries
  import opened Bloom
  import opened SsTable
  import opened Tables
  import opened Store
  import opened EngineState
  import opened Scanning
  import opened Compaction
  import opened Opening
  import opened Selection
  import Recovery
  import Machine
  import Merging
  import TableLookup
  import SkipLists
  import Wal

  class StrataGo {
    const hash: Bytes -> u32
    const crc: Bytes -> u32
    const dir: DataDir
    var activeMemtable: SkipLists.SkipList
    var immutableMemtable: SkipLists.SkipList?
    var wal: Wal.WAL
    var sstReaders: seq<Reader>
    var closed: bool
    ghost var readerObjects: set<object>  // the readers, their filters and the bit sets of these

    // ---------- what the object stands for ----------

    ghost function Mem(): Memory
      reads `activeMemtable, `immutableMemtable, `sstReaders, activeMemtable`Contents, immutableMemtable
    {
      Memory(activeMemtable.Contents, ContentsOf(immutableMemtable), RunsOf(sstReaders))
    }

    ghost function Dir(): Directory
      reads dir, dir.log, dir.flushing
    {
      DirectoryOf(crc, dir)
    }

    // ---------- the invariant ----------

    ghost function MemObjects(): set<object>
      reads `activeMemtable, `immutableMemtable, activeMemtable`Repr, immutableMemtable
    {
      activeMemtable.Repr + ReprOf(immutableMemtable)
    }

    ghost function FixedObjects(): set<object>
      reads `wal, dir`flushing
    {
      {this, dir, wal, wal.file} + if dir.flushing == null then {} else {dir.flushing}
    }

    ghost function Footprint(): set<object>
      reads `wal, dir`flushing, `readerObjects
      reads `activeMemtable, `immutableMemtable, activeMemtable`Repr, immutableMemtable
    {
      FixedObjects() + MemObjects() + readerObjects
    }

    ghost predicate Separate()
      reads `wal, dir`flushing, `readerObjects
      reads `activeMemtable, `immutableMemtable, activeMemtable`Repr, immutableMemtable
    {
      && MemObjects() !! FixedObjects() && readerObjects !! FixedObjects() && MemObjects() !! readerObjects
      && activeMemtable.Repr !! ReprOf(immutableMemtable)
    }

    ghost predicate MemtablesValid()
      reads `activeMemtable, `immutableMemtable, activeMemtable, immutableMemtable
      reads activeMemtable.Repr, if immutableMemtable == null then {} else immutableMemtable.Repr
    {
      ListValid(activeMemtable) && (immutableMemtable != null ==> ListValid(immutableMemtable))
    }

    ghost predicate LogsValid()
      reads `wal, wal, wal.file, dir`log, dir`flushing, dir.flushing
    {
      && wal.crc == crc && wal.sequenceNumber < TWO64
      && dir.log == wal.file && WholeLog(crc, wal.file.data)
      && dir.flushing != dir.log && (dir.flushing != null ==> WholeLog(crc, dir.flushing.data))
    }

    ghost predicate ReadersValid()
      reads `sstReaders, `readerObjects, readerObjects
    {
      Merging.Distinct(sstReaders) && forall r :: r in sstReaders ==> ReaderIn(hash, r, readerObjects)
    }

    ghost predicate FilesValid()
      reads dir`tables
    {
      forall t :: t in dir.tables ==> WellFormed(hash, dir.tables[t])
    }

    ghost predicate Valid()
      reads this, dir, wal, wal.file, dir.flushing, readerObjects
      reads activeMemtable, immutableMemtable, activeMemtable.Repr
      reads if immutableMemtable == null then {} else immutableMemtable.Repr
    {
      Separate() && MemtablesValid() && LogsValid() && ReadersValid() && FilesValid()
    }

    constructor (hash: Bytes -> u32, crc: Bytes -> u32, dir: DataDir, mem: SkipLists.SkipList, walLog: Wal.WAL,
                 readers: seq<Reader>, ghost objects: set<object>)
      ensures this.hash == hash && this.crc == crc && this.dir == dir
      ensures activeMemtable == mem && immutableMemtable == null && wal == walLog
      ensures sstReaders == readers && readerObjects == objects && !closed
    {
      this.hash, this.crc, this.dir := hash, crc, dir;
      activeMemtable, immutableMemtable, wal := mem, null, walLog;
      sstReaders, readerObjects, closed := readers, objects, false;
    }

    // ---------- clients ----------

    /** Log first, then the memtable. */
    method Write(key: Bytes, value: Value)
      requires Valid() && WriteFits(key, value)
      modifies activeMemtable.Repr, wal, wal.file
      ensures Valid() && fresh(Footprint() - old(Footprint())) && unchanged(this)
      ensures fresh(activeMemtable.Repr - old(activeMemtable.Repr))
      ensures activeMemtable.Contents == old(activeMemtable.Contents)[key := value]
      ensures Mem() == WriteMem(old(Mem()), key, value)
      ensures Dir() == WriteDir(old(Dir()), key, value)
    {
      hide WriteFits, MemtableFits, WholeLog, Wal.Replay, SkipLists.SkipList.Valid, ReaderIn, FilesValid, RunsOf,
        TablesOf;
      FitsAfterWrite(activeMemtable.Contents, key, value);
      LogWrite(wal, key, value);
      activeMemtable.Put(key, value);
    }

    method Put(key: Bytes, value: Value) returns (ok: bool)
      requires Valid() && WriteFits(key, value)
      modifies activeMemtable.Repr, wal, wal.file
      ensures Valid() && fresh(Footprint() - old(Footprint())) && unchanged(this)
      ensures fresh(activeMemtable.Repr - old(activeMemtable.Repr))
      ensures ok == !closed
      ensures activeMemtable.Contents == if ok then old(activeMemtable.Contents)[key := value] else old(activeMemtable.Contents)
      ensures Mem() == if ok then WriteMem(old(Mem()), key, value) else old(Mem())
      ensures Dir().log == if ok then old(Dir().log)[key := Payload(value)] else old(Dir().log)
      ensures Dir() == if ok then WriteDir(old(Dir()), key, value) else old(Dir())
    {
      hide Valid, Mem, Dir, WriteFits;
      if closed {
        return false;
      }
      Write(key, value);
      return true;
    }

    method Delete(key: Bytes) returns (ok: bool)
      requires Valid() && WriteFits(key, Nil)
      modifies activeMemtable.Repr, wal, wal.file
      ensures Valid() && fresh(Footprint() - old(Footprint())) && unchanged(this)
      ensures fresh(activeMemtable.Repr - old(activeMemtable.Repr))
      ensures ok == !closed
      ensures activeMemtable.Contents == if ok then old(activeMemtable.Contents)[key := Nil] else old(activeMemtable.Contents)
      ensures Mem() == if ok then WriteMem(old(Mem()), key, Nil) else old(Mem())
      ensures Dir().log == if ok then old(Dir().log)[key := []] else old(Dir().log)
      ensures Dir() == if ok then WriteDir(old(Dir()), key, Nil) else old(Dir())
    {
      hide Valid, Mem, Dir, WriteFits;
      if closed {
        return false;
      }
      Write(key, Nil);
      return true;
    }

    /** The layered search of Get. */
    ghost function Search(key: Bytes): Option<Bytes>
      requires AllWellFormed(hash, sstReaders)
      reads this, activeMemtable, immutableMemtable
    {
      if key in activeMemtable.Contents then MemtableAnswer(activeMemtable.Contents[key])
      else if immutableMemtable != null && key in immutableMemtable.Contents then MemtableAnswer(immutableMemtable.Contents[key])
      else TableAnswer(SearchReaders(hash, sstReaders, key))
    }

    lemma SearchIsGet(key: Bytes)
      requires AllWellFormed(hash, sstReaders) && SafeKeys(hash, sstReaders, key)
      ensures Search(key) == Store.Get(Mem(), key)
    {
      SearchIsLookup(hash, sstReaders, key);
    }

    lemma ListsValid()
      requires Valid()
      ensures activeMemtable.Valid() && (immutableMemtable != null ==> immutableMemtable.Valid())
    {
    }

    lemma ReadersWellFormed()
      requires Valid()
      ensures AllWellFormed(hash, sstReaders)
    {
      hide WellFormed;
      assert forall i :: 0 <= i < |sstReaders| ==> sstReaders[i] in sstReaders;
    }

    /** One round of the loop of Get over the readers. */
    method GetFromReader(reader: Reader, key: Bytes) returns (val: Bytes, found: bool)
      requires Valid() && reader in sstReaders
      modifies reader`pos
      ensures Valid() && KeysFit(|TableEntries(reader.data)|)
      ensures TableLookup.TableGet(hash, TableEntries(reader.data), key) == if found then Some(val) else None
    {
      hide ReaderReady, WholeLog, ListValid, FilesValid, TableLookup.TableGet;
      val, found := ReaderGet(hash, reader, key);
    }

    /** The loop of Get over the readers, newest first. */
    method GetFromReaders(key: Bytes) returns (val: Bytes, found: bool)
      requires Valid() && AllWellFormed(hash, sstReaders)
      modifies (set r: Reader | r in sstReaders)`pos
      ensures Valid()
      ensures TableAnswer(SearchReaders(hash, sstReaders, key)) == if found then Some(val) else None
    {
      hide Valid, AllWellFormed, SearchReaders, TableLookup.TableGet;
      var i := |sstReaders|;
      AllReaders(key);
      while i > 0
        invariant 0 <= i <= |sstReaders| && Valid()
        invariant AllWellFormed(hash, sstReaders[..i])
        invariant SearchReaders(hash, sstReaders, key) == SearchReaders(hash, sstReaders[..i], key)
      {
        i := i - 1;
        FirstReaders(i + 1, key);
        val, found := GetFromReader(sstReaders[i], key);
        if found {
          return val, val != [];
        }
      }
      return [], false;
    }

    lemma AllReaders(key: Bytes)
      requires AllWellFormed(hash, sstReaders)
      ensures sstReaders[..|sstReaders|] == sstReaders
      ensures AllWellFormed(hash, sstReaders[..0]) && SearchReaders(hash, sstReaders[..0], key) == None
    {
    }

    lemma FirstReaders(n: nat, key: Bytes)
      requires 0 < n <= |sstReaders| && AllWellFormed(hash, sstReaders[..n])
      ensures AllWellFormed(hash, sstReaders[..n - 1]) && WellFormed(hash, sstReaders[n - 1].data)
      ensures KeysFit(|TableEntries(sstReaders[n - 1].data)|)
      ensures var found := TableLookup.TableGet(hash, TableEntries(sstReaders[n - 1].data), key);
        SearchReaders(hash, sstReaders[..n], key) == if found.Some? then found else SearchReaders(hash, sstReaders[..n - 1], key)
    {
      hide TableLookup.TableGet, TableEntries, FileBytes;
      assert sstReaders[..n][..n - 1] == sstReaders[..n - 1];
      assert forall i :: 0 <= i < n - 1 ==> sstReaders[..n - 1][i] == sstReaders[..n][i];
      assert sstReaders[..n][n - 1] == sstReaders[n - 1];
      HasKeysFit(hash, sstReaders[n - 1].data);
    }

    method Get(key: Bytes) returns (val: Bytes, found: bool)
      requires Valid()
      modifies (set r: Reader | r in sstReaders)`pos
      ensures Valid() && AllWellFormed(hash, sstReaders)
      ensures Search(key) == if found then Some(val) else None
      ensures SafeKeys(hash, sstReaders, key) ==> Search(key) == Store.Get(Mem(), key)
    {
      hide SafeKeys, AllWellFormed, SearchReaders, SkipLists.SkipList.Valid, WholeLog, ReaderIn, FilesValid,
        MemtableFits;
      ListsValid();
      ReadersWellFormed();
      if SafeKeys(hash, sstReaders, key) {
        SearchIsGet(key);
      }
      var v, has := activeMemtable.Get(key);
      if has {
        return Payload(v), v != Nil;
      }
      if immutableMemtable != null {
        v, has := immutableMemtable.Get(key);
        if has {
          return Payload(v), v != Nil;
        }
      }
      val, found := GetFromReaders(key);
    }

    // ---------- the full scan ----------

    /** One reader of the scan: its file is opened by name; if that fails it is skipped. */
    method ScanReader(reader: Reader, older: Table) returns (state: Table)
      ensures state == if reader.timestamp in dir.tables then older + TableOf(dir.tables[reader.timestamp]) else older
    {
      hide ToMap, TableEntries, TableStop;
      var iter := reader.NewIterator(dir);
      if iter == null {
        return older;
      }
      state := CopyTable(iter, older);
    }

    /** The loop of the scan over the readers, oldest first. */
    method ScanReaders() returns (state: Table)
      ensures state == UnionRuns(PresentRuns(RunsOf(sstReaders), TablesOf(dir.tables)))
    {
      hide UnionRuns, PresentRuns, TableOf, RunsOf, TablesOf;
      state := map[];
      ghost var runs, tables := RunsOf(sstReaders), TablesOf(dir.tables);
      PresentNone(runs, tables);
      var i := 0;
      while i < |sstReaders|
        invariant i <= |sstReaders| && state == UnionRuns(PresentRuns(runs[..i], tables))
      {
        PresentStep(sstReaders, dir.tables, i);
        state := ScanReader(sstReaders[i], state);
        i := i + 1;
      }
    }

    method ScanAll() returns (state: Table, ok: bool)
      requires Valid()
      ensures Valid() && ok == !closed
      ensures ok ==> state == Store.ScanAll(Mem(), Dir().tables)
    {
      hide Payloads, UnionRuns, PresentRuns, Live, SkipLists.SkipList.Valid, WholeLog, ReaderIn, FilesValid,
        MemtableFits, RunsOf, TablesOf;
      if closed {
        return map[], false;
      }
      ScanParts(Mem(), Dir().tables);
      state := ScanReaders();
      if immutableMemtable != null {
        state := CopyMemtable(immutableMemtable, state);
      }
      state := CopyMemtable(activeMemtable, state);
      state := DropTombstones(state);
      return state, true;
    }

    // ---------- flush ----------

    /** Renames wal.log to wal.log.flushing and goes on with a new log. */
    method RotateLog()
      requires Valid()
      modifies `wal, dir`log, dir`flushing
      ensures Valid() && fresh({wal, wal.file}) && dir.flushing == old(dir.log) && dir.log != null && dir.log.data == []
      ensures Dir() == RotateDir(old(Dir()))
    {
      hide WholeLog, Wal.Replay, ReadersValid, FilesValid, ListValid, TablesOf;
      EmptyLog(crc);
      var file := new File([]);
      var newWal := new Wal.WAL(crc, file);
      dir.flushing := dir.log;
      dir.log := file;
      wal := newWal;
    }

    method RotateMemtable()
      requires Valid() && immutableMemtable == null
      modifies `activeMemtable, `immutableMemtable
      ensures Valid() && fresh(activeMemtable.Repr) && immutableMemtable == old(activeMemtable) && activeMemtable.Contents == map[]
      ensures Mem() == RotateMem(old(Mem()))
    {
      hide SkipLists.SkipList.Valid, WholeLog, ReadersValid, FilesValid, LogsValid, RunsOf;
      FitsEmpty();
      var list := new SkipLists.SkipList();
      immutableMemtable := activeMemtable;
      activeMemtable := list;
    }

    /** The first section of Flush: unless an earlier flush is pending, the memtable becomes
        immutable and its log is set aside. */
    method Rotate() returns (pending: bool)
      requires Valid()
      modifies `activeMemtable, `immutableMemtable, `wal, dir`log, dir`flushing
      ensures Valid() && fresh(Footprint() - old(Footprint()))
      ensures pending <==> old(activeMemtable.Contents) != map[] || old(immutableMemtable) != null
      ensures pending && old(immutableMemtable) == null ==>
        && immutableMemtable == old(activeMemtable) && activeMemtable.Contents == map[]
        && dir.flushing == old(dir.log) && dir.log != null && dir.log.data == []
      ensures !pending || old(immutableMemtable) != null ==>
        && activeMemtable == old(activeMemtable) && immutableMemtable == old(immutableMemtable)
        && wal == old(wal) && dir.log == old(dir.log) && dir.flushing == old(dir.flushing)
      ensures Mem() == RotatedMem(old(Mem())) && Dir() == RotatedDir(old(Mem()), old(Dir()))
      ensures immutableMemtable == if pending && old(immutableMemtable) == null then old(activeMemtable) else old(immutableMemtable)
    {
      hide SkipLists.SkipList.Valid, Separate, ReadersValid, FilesValid, RunsOf, DirectoryOf, MemtableFits;
      SizeZero(activeMemtable);
      if activeMemtable.size == 0 && immutableMemtable == null {
        return false;
      }
      if immutableMemtable == null {
        RotateMemtable();
        RotateLog();
      }
      return true;
    }

    /** Between the sections: writes the table file and reads it back. The check that the
        number of keys read back is the number in the memtable never fails. */
    method Build(timestamp: int) returns (reader: Reader?)
      requires Valid() && immutableMemtable != null && KeysFit(immutableMemtable.size)
      modifies dir`tables
      ensures Valid() && Footprint() == old(Footprint())
      ensures reader != null && fresh(ReaderObjects(reader)) && ReaderReady(hash, reader)
      ensures RunOf(reader) == Run(timestamp, Payloads(immutableMemtable.Contents))
      ensures Dir() == BuildDir(old(Dir()), immutableMemtable.Contents, timestamp)
    {
      hide ListValid, WholeLog, Wal.Replay, WellFormed, TableOf, Payloads, TableStop, ReaderIn, KeysFit, Reader.Valid;
      BuildTable(hash, dir, timestamp, immutableMemtable);
      reader := OpenChecked(hash, dir, timestamp, immutableMemtable.size);
    }

    /** The second section of Flush. */
    method Publish(reader: Reader)
      requires Valid() && immutableMemtable != null && ReaderReady(hash, reader)
      requires ReaderObjects(reader) !! Footprint()
      modifies `sstReaders, `readerObjects, `immutableMemtable
      ensures Valid() && Footprint() <= old(Footprint()) + ReaderObjects(reader)
      ensures sstReaders == old(sstReaders) + [reader] && immutableMemtable == null
      ensures Mem() == PublishMem(old(Mem()), RunOf(reader))
    {
      hide ListValid, WholeLog, Wal.Replay, ReaderReady, TableOf, FilesValid, LogsValid;
      assert reader !in sstReaders;
      sstReaders := sstReaders + [reader];
      readerObjects := readerObjects + ReaderObjects(reader);
      immutableMemtable := null;
    }

    /** The end of Flush: the log of the flushed memtable goes. */
    method DropLog()
      requires Valid()
      modifies dir`flushing
      ensures Valid() && Footprint() <= old(Footprint()) && dir.flushing == null
      ensures Dir() == old(Dir()).(flushing := None)
    {
      hide ListValid, WholeLog, Wal.Replay, ReadersValid, FilesValid, TablesOf;
      dir.flushing := null;
    }

    /** The memtable that a flush will write. */
    function FlushTarget(): SkipLists.SkipList
      reads `activeMemtable, `immutableMemtable
    {
      if immutableMemtable == null then activeMemtable else immutableMemtable
    }

    /** The rest of Flush after its first section. */
    method FinishFlush(timestamp: int)
      requires Valid() && immutableMemtable != null && KeysFit(immutableMemtable.size)
      modifies `immutableMemtable, `sstReaders, `readerObjects, dir`tables, dir`flushing
      ensures Valid() && fresh(Footprint() - old(Footprint()))
      ensures immutableMemtable == null && dir.flushing == null
      ensures |sstReaders| == old(|sstReaders|) + 1 && sstReaders[..old(|sstReaders|)] == old(sstReaders)
      ensures RunOf(sstReaders[old(|sstReaders|)]) == Run(timestamp, Payloads(old(immutableMemtable.Contents)))
      ensures Mem() == PublishMem(old(Mem()), Run(timestamp, Payloads(old(immutableMemtable.Contents))))
      ensures Dir() == BuildDir(old(Dir()), old(immutableMemtable.Contents), timestamp).(flushing := None)
    {
      hide Valid, KeysFit, Payloads, ReaderReady, TableOf, RunsOf, TablesOf, DirectoryOf;
      var reader := Build(timestamp);
      ghost var before := sstReaders;
      Publish(reader);
      assert (before + [reader])[..|before|] == before;
      DropLog();
    }

    /** A flush that nothing else interrupts. With nothing in memory it does nothing; otherwise
        one reader more has the contents of the immutable memtable, or, without one, of the
        active memtable, which is then empty. */
    method Flush(timestamp: int)
      requires Valid() && KeysFit(FlushTarget().size)
      modifies `activeMemtable, `immutableMemtable, `wal, `sstReaders, `readerObjects, dir
      ensures Valid() && fresh(Footprint() - old(Footprint())) && immutableMemtable == null
      ensures old(activeMemtable.Contents) == map[] && old(immutableMemtable) == null ==>
        && activeMemtable == old(activeMemtable) && sstReaders == old(sstReaders) && wal == old(wal)
        && dir.tables == old(dir.tables) && dir.log == old(dir.log) && dir.flushing == old(dir.flushing)
      ensures old(activeMemtable.Contents) != map[] || old(immutableMemtable) != null ==>
        && |sstReaders| == old(|sstReaders|) + 1 && sstReaders[..old(|sstReaders|)] == old(sstReaders)
        && RunOf(sstReaders[old(|sstReaders|)]) == Run(timestamp, Payloads(old(FlushTarget().Contents)))
        && Dir().tables == old(Dir().tables)[timestamp := Payloads(old(FlushTarget().Contents))] && dir.flushing == null
      ensures if old(immutableMemtable) == null then activeMemtable.Contents == map[] else activeMemtable == old(activeMemtable)
      ensures old(immutableMemtable) != null ==> wal == old(wal) && dir.log == old(dir.log)
      ensures old(immutableMemtable) == null && old(activeMemtable.Contents) != map[] ==> dir.log != null && dir.log.data == []
      ensures Mem() == FlushedMem(old(Mem()), timestamp)
      ensures Dir() == FlushedDir(old(Mem()), old(Dir()), timestamp)
    {
      hide Valid, KeysFit, Payloads, RunsOf, TablesOf, DirectoryOf;
      var pending := Rotate();
      if pending {
        FinishFlush(timestamp);
      }
    }

    /** Close flushes once and refuses further writes and scans. */
    method Close(timestamp: int)
      requires Valid() && KeysFit(FlushTarget().size)
      modifies this, dir
      ensures Valid() && fresh(Footprint() - old(Footprint())) && closed
      ensures old(closed) ==> activeMemtable == old(activeMemtable) && immutableMemtable == old(immutableMemtable)
      ensures old(closed) ==> sstReaders == old(sstReaders) && dir.tables == old(dir.tables) && dir.flushing == old(dir.flushing)
      ensures !old(closed) ==> immutableMemtable == null
      ensures !old(closed) && (old(activeMemtable.Contents) != map[] || old(immutableMemtable) != null) ==>
        && |sstReaders| == old(|sstReaders|) + 1 && sstReaders[..old(|sstReaders|)] == old(sstReaders)
        && RunOf(sstReaders[old(|sstReaders|)]) == Run(timestamp, Payloads(old(FlushTarget().Contents)))
        && Dir().tables == old(Dir().tables)[timestamp := Payloads(old(FlushTarget().Contents))] && dir.flushing == null
      ensures !old(closed) && old(immutableMemtable) == null ==> activeMemtable.Contents == map[]
      ensures !old(closed) && old(immutableMemtable) == null && old(activeMemtable.Contents) == map[] ==>
        sstReaders == old(sstReaders) && dir.tables == old(dir.tables)
      ensures Mem() == if old(closed) then old(Mem()) else FlushedMem(old(Mem()), timestamp)
      ensures Dir() == if old(closed) then old(Dir()) else FlushedDir(old(Mem()), old(Dir()), timestamp)
    {
      hide ListValid, WholeLog, Wal.Replay, ReaderIn, WellFormed, KeysFit, RunsOf, TablesOf, FlushedMem, FlushedDir;
      if closed {
        return;
      }
      closed := true;
      Flush(timestamp);
    }

    method Reset(list: SkipLists.SkipList, newWal: Wal.WAL)
      requires ListValid(list) && list.Contents == map[]
      requires newWal.crc == crc && newWal.sequenceNumber < TWO64
      requires WholeLog(crc, newWal.file.data) && Wal.Replay(crc, newWal.file.data) == map[]
      requires list.Repr !! {this, dir, newWal, newWal.file}
      modifies this, dir
      ensures Valid() && !closed && activeMemtable == list && wal == newWal && list.Repr == old(list.Repr)
      ensures list.Contents == map[] && immutableMemtable == null && sstReaders == []
      ensures dir.tables == map[] && dir.log == newWal.file && dir.flushing == null
      ensures Mem() == Memory(map[], None, []) && Dir() == Directory(map[], map[], None)
    {
      hide ListValid, WholeLog, Wal.Replay, ReaderIn, WellFormed, TablesOf, RunsOf;
      NothingOpen();
      dir.tables, dir.log, dir.flushing := map[], newWal.file, null;
      activeMemtable, immutableMemtable, wal := list, null, newWal;
      sstReaders, readerObjects, closed := [], {}, false;
    }

    /** Everything in the directory is removed and the engine starts from nothing. */
    method Wipe()
      modifies this, dir
      ensures Valid() && fresh(activeMemtable.Repr + {wal, wal.file}) && !closed
      ensures activeMemtable.Contents == map[] && immutableMemtable == null && sstReaders == []
      ensures dir.tables == map[] && dir.log == wal.file && wal.file.data == [] && dir.flushing == null
      ensures Mem() == Memory(map[], None, []) && Dir() == Directory(map[], map[], None)
    {
      hide SkipLists.SkipList.Valid, WholeLog, Wal.Replay, Valid;
      FitsEmpty();
      EmptyLog(crc);
      var list := new SkipLists.SkipList();
      var file := new File([]);
      var newWal := new Wal.WAL(crc, file);
      Reset(list, newWal);
    }

    /** Whatever the engine held, also when it was closed. */
    method Purge(timestamp: int)
      requires Valid() && KeysFit(FlushTarget().size)
      modifies this, dir
      ensures Valid() && fresh(activeMemtable.Repr + {wal, wal.file}) && !closed
      ensures activeMemtable.Contents == map[] && immutableMemtable == null && sstReaders == []
      ensures dir.tables == map[] && dir.log == wal.file && wal.file.data == [] && dir.flushing == null
      ensures Mem() == Memory(map[], None, []) && Dir() == Directory(map[], map[], None)
    {
      hide Valid, Mem, Dir, KeysFit;
      Close(timestamp);
      Wipe();
    }

    // ---------- compaction ----------

    /** The earliest-ending group of one tier, and none exactly when there is none. */
    method SelectFilesForCompaction() returns (files: seq<Reader>, tier: int, picked: seq<nat>)
      requires Valid()
      ensures Valid() && Increasing(picked, |sstReaders|) && files == Picks(sstReaders, picked)
      ensures var sizes := SizesOf(sstReaders, dir.tables);
        if picked == [] then tier == -1 && forall g, t :: !IsGroup(sizes, g, t)
        else
          && tier >= 0 && IsGroup(sizes, picked, tier)
          && forall g, t :: IsGroup(sizes, g, t) ==> g[|g| - 1] >= picked[|picked| - 1]
      ensures var sizes := SizesOf(sstReaders, dir.tables);
        if picked == [] then forall g :: !FourAlike(sizes, g)
        else
          && FourAlike(sizes, picked) && tier == BoundsReached(sizes[picked[0]].value)
          && forall g :: FourAlike(sizes, g) ==> g[3] >= picked[3]
    {
      hide ListValid, WholeLog, ReaderIn, FilesValid, InTier, NoneBetween, SameSides, BoundsReached;
      var sizes := SizesOf(sstReaders, dir.tables);
      var group, t := SelectFiles(sizes);
      return Picks(sstReaders, group), t, group;
    }

    /** Between the sections: merges the files; nothing happens if one of them is missing. */
    method MergeSelected(files: seq<Reader>) returns (merged: Reader?)
      requires Valid() && files != [] && InputsFit(files, dir.tables)
      modifies dir`tables
      ensures Valid() && (merged == null <==> !FilesPresent(files, old(dir.tables)))
      ensures merged == null ==> Dir() == old(Dir())
      ensures merged != null ==>
        && fresh(ReaderObjects(merged)) && ReaderReady(hash, merged)
        && RunOf(merged) == MergedOf(RunsOf(files), old(Dir().tables))
        && Dir() == old(Dir()).(tables := old(Dir().tables)[merged.timestamp := RunOf(merged).table])
    {
      hide ListValid, WholeLog, Wal.Replay, WellFormed, TableOf, ReaderIn, InputsFit, FilesPresent,
        UnionRuns, PresentRuns, Reader.Valid;
      merged := MergeFiles(hash, dir, files);
      if merged != null {
        TablesWith(old(dir.tables), merged.timestamp, merged.data);
      }
    }

    /** The second section of a compaction. */
    method Swap(files: seq<Reader>, merged: Reader, ghost picked: seq<nat>)
      requires Valid() && Increasing(picked, |sstReaders|) && files == Picks(sstReaders, picked)
      requires ReaderReady(hash, merged) && ReaderObjects(merged) !! Footprint()
      modifies `sstReaders, `readerObjects
      ensures Valid() && Footprint() <= old(Footprint()) + ReaderObjects(merged)
      ensures Mem() == old(Mem()).(runs := Splice(old(Mem().runs), picked, RunOf(merged)))
    {
      hide ListValid, WholeLog, Wal.Replay, ReaderReady, TableOf, FilesValid, LogsValid, Splice, RunsOf;
      assert merged !in sstReaders;
      sstReaders := Rebuild(sstReaders, files, merged, picked);
      readerObjects := readerObjects + ReaderObjects(merged);
    }

    /** The removal of the inputs. */
    method RemoveFiles(files: seq<Reader>)
      requires Valid()
      modifies dir`tables
      ensures Valid()
      ensures Dir() == old(Dir()).(tables := old(Dir().tables) - TimestampsOf(files))
    {
      hide ListValid, WholeLog, Wal.Replay, WellFormed, TableOf, ReaderIn;
      RemoveInputs(dir, files);
    }

    /** A merge of any group that may be chosen fits a table. */
    ghost predicate CompactionFits()
      reads `sstReaders, dir`tables
    {
      forall g, t :: IsGroup(SizesOf(sstReaders, dir.tables), g, t) ==> InputsFit(Picks(sstReaders, g), dir.tables)
    }

    /** A compaction after the selection. */
    method CompactGroup(files: seq<Reader>, ghost picked: seq<nat>)
      requires Valid() && picked != [] && Increasing(picked, |sstReaders|) && files == Picks(sstReaders, picked)
      requires FilesPresent(files, dir.tables) && InputsFit(files, dir.tables)
      modifies `sstReaders, `readerObjects, dir`tables
      ensures Valid() && fresh(Footprint() - old(Footprint()))
      ensures Mem() == old(Mem()).(runs := Splice(old(Mem().runs), picked, MergedOf(RunsOf(files), old(Dir().tables))))
      ensures Dir() == old(Dir()).(tables := old(Dir().tables) - TimestampsOf(files))
    {
      hide Valid, Splice, InputsFit, TableOf, ReaderReady, DirectoryOf, RunsOf, UnionRuns, FilesPresent,
        Increasing;
      var merged := MergeSelected(files);
      Swap(files, merged, picked);
      RemoveFiles(files);
      RemovedToo(old(Dir().tables), merged, files);
    }

    /** A compaction that nothing else interrupts. The readers are those of the merge and the
        swap; and of all the files it worked on, the merged one included, none is left. */
    method RunCompaction() returns (ghost picked: seq<nat>)
      requires Valid() && CompactionFits()
      modifies `sstReaders, `readerObjects, dir`tables
      ensures Valid() && fresh(Footprint() - old(Footprint()))
      ensures Increasing(picked, old(|sstReaders|))
      ensures picked == [] ==> forall g, t :: !IsGroup(old(SizesOf(sstReaders, dir.tables)), g, t)
      ensures if picked == [] then forall g :: !FourAlike(old(SizesOf(sstReaders, dir.tables)), g)
        else FourAlike(old(SizesOf(sstReaders, dir.tables)), picked)
      ensures picked == [] ==> Mem() == old(Mem()) && Dir() == old(Dir())
      ensures picked != [] ==> exists t :: IsGroup(old(SizesOf(sstReaders, dir.tables)), picked, t)
      ensures picked != [] ==>
        && Mem() == old(Mem()).(runs := Splice(old(Mem().runs), picked, Machine.MergedRun(old(Mem().runs), picked, old(Dir().tables))))
        && Dir() == old(Dir()).(tables := old(Dir().tables) - TimestampsOf(old(Picks(sstReaders, picked))))
    {
      hide Valid, Splice, IsGroup, SameSides, InputsFit, TableOf, DirectoryOf, MergedOf, RunsOf, FilesPresent;
      var files, tier, group := SelectFilesForCompaction();
      picked := group;
      if files != [] {
        GroupIsPresent(sstReaders, dir.tables, picked, tier);
        PicksAreRuns(sstReaders, picked);
        CompactGroup(files, picked);
      }
    }
  }

  /** The engine over a recovered memtable, its log and the readers. */
  method Assemble(hash: Bytes -> u32, crc: Bytes -> u32, dir: DataDir, mem: SkipLists.SkipList, walLog: Wal.WAL,
                  readers: seq<Reader>, ghost objects: set<object>)
    returns (db: StrataGo)
    requires ListValid(mem) && mem.Repr !! {dir, walLog, walLog.file} + objects && objects !! {dir, walLog, walLog.file}
    requires walLog.crc == crc && walLog.sequenceNumber < TWO64 && walLog.file == dir.log && WholeLog(crc, walLog.file.data)
    requires dir.flushing == null && forall t :: t in dir.tables ==> WellFormed(hash, dir.tables[t])
    requires Merging.Distinct(readers) && forall r :: r in readers ==> ReaderIn(hash, r, objects)
    ensures db.dir == dir && db.hash == hash && db.crc == crc && !db.closed && fresh(db)
    ensures db.Valid() && db.Footprint() == {db, dir, walLog, walLog.file} + mem.Repr + objects
    ensures db.Mem() == Memory(mem.Contents, None, RunsOf(readers))
  {
    hide WholeLog, ListValid, RunsOf, ReaderIn, WellFormed;
    db := new StrataGo(hash, crc, dir, mem, walLog, readers, objects);
  }

  /** Opens a data directory, whatever crash left it behind: both logs are replayed and the
      table files are opened in the order of their timestamps. The abandoned log is copied
      behind the current one, which then replays what stands there; the memtable holds that on
      top of the abandoned log. Behind whole records the copies are read, so that the abandoned
      log overrides the current one; behind a torn tail that is still rejected they are lost. */
  method Open(hash: Bytes -> u32, crc: Bytes -> u32, dir: DataDir) returns (db: StrataGo, ghost copied: seq<Wal.Record>)
    requires LogsReadable(crc, dir) && forall t :: t in dir.tables ==> WellFormed(hash, dir.tables[t])
    modifies dir`log, dir`flushing, LogFiles(dir)
    ensures db.dir == dir && db.hash == hash && db.crc == crc && !db.closed
    ensures db.Valid() && fresh(db.Footprint() - {dir} - old(LogFiles(dir)))
    ensures TakenOver(crc, old(DirectoryOf(crc, dir)), old(LogData(dir)), copied, db.Dir().log)
    ensures db.Mem() == Recovery.Open(Recovery.Complete(old(DirectoryOf(crc, dir)), db.Dir().log))
    ensures db.Dir() == old(DirectoryOf(crc, dir)).(log := db.Dir().log, flushing := None)
    ensures old(Appendable(crc, dir)) ==>
      db.Mem() == Recovery.Open(old(DirectoryOf(crc, dir))) && db.Dir() == Recovery.OpenDirectory(old(DirectoryOf(crc, dir)))
    ensures !old(Appendable(crc, dir)) && TailRejected(crc, old(LogData(dir)), copied) ==>
      db.Mem() == Recovery.OpenTorn(old(DirectoryOf(crc, dir))) && db.Dir().log == old(DirectoryOf(crc, dir)).log
  {
    hide WholeLog, Readable, TailRejected, TornPart, TakenOver, Wal.Replay, SkipLists.SkipList.Valid, MemtableFits, TablesOf, RunsOf,
      ReaderIn, WellFormed, Recovery.SortedRuns, StrataGo.Valid, StrataGo.Mem, StrataGo.Footprint, Recovery.Replayed, DataOf,
      Recovery.Open;
    ghost var d := DirectoryOf(crc, dir);
    Recovery.ReadBack(d);
    var walLog := OpenLog(crc, dir);
    var mem, taken := ReplayLogs(crc, dir, walLog);
    copied := taken;
    var readers, objects := OpenReaders(hash, dir);
    OpenedMemory(Recovery.Complete(d, Wal.Replay(crc, walLog.file.data)));
    db := Assemble(hash, crc, dir, mem, walLog, readers, objects);
  }

  lemma OpenedMemory(d: Directory)
    requires d.flushing.None?
    ensures Recovery.Open(d) == Memory(DataOf(d.log), None, Recovery.SortedRuns(d.tables))
  {
    hide Recovery.SortedRuns;
  }
}
