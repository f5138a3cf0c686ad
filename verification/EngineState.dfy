/** What the files and readers of the engine stand for. */
module EngineState {
  import opened ByteStrings
  import opened Disk
  import opened Entries
  import opened Bloom
  import opened SsTable
  import opened SsTableRoundTrip
  import TableLookup
  import opened Tables
  import opened Store
  import Wal

  /** The bytes are exactly the file of some sorted entries that fit the format. */
  ghost predicate WellFormed(hash: Bytes -> u32, data: Bytes) {
    var es := TableEntries(data);
    FitsTable(es) && Sorted(es) && data == FileBytes(hash, es)
  }

  lemma FileIsWellFormed(hash: Bytes -> u32, es: seq<Entry<Bytes>>)
    requires Sorted(es) && FitsTable(es)
    ensures WellFormed(hash, FileBytes(hash, es)) && TableEntries(FileBytes(hash, es)) == es
    ensures TableStop(FileBytes(hash, es)) == AtLimit
  {
    hide FileBytes, TableEntries, TableStop, Sorted, FitsTable;
    TableRoundTrip(hash, es);
    assert KeysFit(|es|) by { FitsHasKeys(es); }
  }

  lemma FitsHasKeys(es: seq<Entry<Bytes>>)
    requires FitsTable(es)
    ensures KeysFit(|es|)
  {
  }

  /** The map in a table file. */
  function TableOf(data: Bytes): Table {
    ToMap(TableEntries(data))
  }

  function TablesOf(files: map<int, Bytes>): map<int, Table> {
    map t | t in files :: TableOf(files[t])
  }

  function RunOf(reader: Reader): Run {
    Run(reader.timestamp, TableOf(reader.data))
  }

  /** The readers as runs; the fields they depend on never change. */
  function RunsOf(readers: seq<Reader>): (runs: seq<Run>)
    ensures |runs| == |readers|
    ensures forall i :: 0 <= i < |readers| ==> runs[i] == RunOf(readers[i])
  {
    seq(|readers|, i requires 0 <= i < |readers| => RunOf(readers[i]))
  }

  /** The files of a data directory as values. */
  ghost function DirectoryOf(crc: Bytes -> u32, dir: DataDir): Directory
    reads dir, dir.log, dir.flushing
  {
    Directory(TablesOf(dir.tables),
              if dir.log == null then map[] else Wal.Replay(crc, dir.log.data),
              if dir.flushing == null then None else Some(Wal.Replay(crc, dir.flushing.data)))
  }

  lemma PresentNone(runs: seq<Run>, tables: map<int, Table>)
    ensures UnionRuns(PresentRuns(runs[..0], tables)) == map[] && runs[..|runs|] == runs
  {
  }

  /** Opening one more file by name. */
  lemma PresentStep(readers: seq<Reader>, files: map<int, Bytes>, i: nat)
    requires i < |readers|
    ensures var runs, tables, t := RunsOf(readers), TablesOf(files), readers[i].timestamp;
      UnionRuns(PresentRuns(runs[..i + 1], tables)) ==
        if t in files then UnionRuns(PresentRuns(runs[..i], tables)) + TableOf(files[t])
        else UnionRuns(PresentRuns(runs[..i], tables))
  {
    hide TableOf;
    var runs, tables := RunsOf(readers), TablesOf(files);
    assert runs[..i + 1][..i] == runs[..i];
    var pre := PresentRuns(runs[..i], tables);
    assert forall r :: (pre + [r])[..|pre|] == pre;
  }

  lemma ScanParts(m: Memory, tables: map<int, Table>)
    ensures var below := UnionRuns(PresentRuns(m.runs, tables));
      ScanAll(m, tables) ==
        Live((if m.immutable.Some? then below + Payloads(m.immutable.value) else below) + Payloads(m.active))
  {
    hide UnionRuns, PresentRuns, Live, Payloads;
    var below := UnionRuns(PresentRuns(m.runs, tables));
    assert below + map[] == below;
  }

  // ---------- memtables ----------

  /** The log record of this write does not wrap around in uint32. */
  predicate WriteFits(key: Bytes, value: Value) {
    Wal.HEADER + |key| + |Payload(value)| < TWO32
  }

  ghost predicate MemtableFits(m: Memtable) {
    forall k :: k in m ==> WriteFits(k, m[k])
  }

  lemma FitsAfterWrite(m: Memtable, key: Bytes, value: Value)
    requires MemtableFits(m) && WriteFits(key, value)
    ensures MemtableFits(m[key := value])
  {
  }

  lemma FitsEmpty()
    ensures MemtableFits(map[])
  {
  }

  lemma SizeZero(list: SkipLists.SkipList)
    requires list.Valid()
    ensures list.size == 0 <==> list.Contents == map[]
  {
    hide SkipLists.SkipList.Valid;
    list.Accounting();
  }

  ghost function ReprOf(list: SkipLists.SkipList?): set<object>
    reads list
  {
    if list == null then {} else list.Repr
  }

  ghost function ContentsOf(list: SkipLists.SkipList?): Option<Memtable>
    reads list
  {
    if list == null then None else Some(list.Contents)
  }

  ghost predicate ListValid(list: SkipLists.SkipList)
    reads list, list.Repr
  {
    list.Valid() && MemtableFits(list.Contents)
  }

  // ---------- logs ----------

  lemma NothingOpen()
    ensures TablesOf(map[]) == map[] && RunsOf([]) == []
  {
  }

  /** A log that recovery reads to its end. */
  ghost predicate WholeLog(crc: Bytes -> u32, data: Bytes) {
    var rs := Wal.Records(crc, data);
    Wal.AllFit(rs) && Wal.TotalSize(rs) == |data|
  }

  lemma EmptyLog(crc: Bytes -> u32)
    ensures WholeLog(crc, []) && Wal.Replay(crc, []) == map[]
  {
    Wal.NoRecords(crc);
  }

  /** Appending a record to a whole log. */
  lemma WholeLogAppend(crc: Bytes -> u32, data: Bytes, r: Wal.Record)
    requires WholeLog(crc, data) && Wal.Fits(r)
    ensures WholeLog(crc, data + Wal.RecordBytes(crc, r))
    ensures Wal.Replay(crc, data + Wal.RecordBytes(crc, r)) == Wal.Replay(crc, data)[r.key := r.val]
  {
    hide Wal.Records, Wal.RecordBytes, ToMap, Wal.TotalSize;
    var rs := Wal.Records(crc, data);
    Wal.RecordsThenAppend(crc, data, Wal.RecordBytes(crc, r));
    assert data[..|data|] == data;
    Wal.OneRecord(crc, r);
    Wal.EntriesOfAppend(rs, r);
    TotalSizeAppend(rs, r);
  }

  lemma {:induction false} TotalSizeAppend(rs: seq<Wal.Record>, r: Wal.Record)
    ensures Wal.TotalSize(rs + [r]) == Wal.TotalSize(rs) + Wal.Size(r)
  {
    if rs != [] {
      assert (rs + [r])[1..] == rs[1..] + [r];
      TotalSizeAppend(rs[1..], r);
    } else {
      assert [] + [r] == [r] && [r][1..] == [];
    }
  }

  /** WriteEntry on a whole log. */
  method LogWrite(wal: Wal.WAL, key: Bytes, value: Value)
    requires wal.sequenceNumber < TWO64 && WholeLog(wal.crc, wal.file.data)
    requires WriteFits(key, value)
    modifies wal, wal.file
    ensures wal.sequenceNumber < TWO64 && WholeLog(wal.crc, wal.file.data)
    ensures Wal.Replay(wal.crc, wal.file.data) == old(Wal.Replay(wal.crc, wal.file.data))[key := Payload(value)]
  {
    hide WholeLog, Wal.Replay, Wal.RecordBytes;
    ghost var data := wal.file.data;
    wal.WriteEntry(key, value);
    WholeLogAppend(wal.crc, data, Wal.Record(wal.sequenceNumber, key, Payload(value)));
  }

  // ---------- readers ----------

  ghost predicate ReaderReady(hash: Bytes -> u32, r: Reader)
    reads r`index, r`filter, if r.filter == null then {} else {r.filter.bitset}
  {
    r.hash == hash && r.Valid() && WellFormed(hash, r.data)
  }

  ghost predicate ReaderIn(hash: Bytes -> u32, r: Reader, objects: set<object>)
    reads objects
  {
    && r in objects && (r.filter != null ==> r.filter in objects && r.filter.bitset in objects)
    && ReaderReady(hash, r)
  }

  lemma SortedRunIndex(es: seq<Entry<Bytes>>)
    requires Sorted(es)
    ensures TableLookup.SortedIndex(Index(es))
  {
    TableLookup.PositionsOfIndex(es);
    var ps := TableLookup.Positions(es);
    forall i, j | 0 <= i < j < |Index(es)| ensures Lt(Index(es)[i].key, Index(es)[j].key) {
      assert TableLookup.IndexAt(es, Index(es), ps, i) && TableLookup.IndexAt(es, Index(es), ps, j);
    }
  }

  /** A ready reader computes the lookup of its table. */
  lemma ReadyReader(hash: Bytes -> u32, r: Reader, key: Bytes)
    requires ReaderReady(hash, r)
    ensures KeysFit(|TableEntries(r.data)|)
    ensures TableLookup.SortedIndex(r.index) && TableLookup.UsableFilter(r.FilterBytes())
    ensures TableLookup.Lookup(hash, r.index, r.FilterBytes(), r.data, key) == TableLookup.TableGet(hash, TableEntries(r.data), key)
  {
    hide TableEntries, FileBytes, Load, Index, Filter, TableLookup.Lookup;
    var es := TableEntries(r.data);
    LoadRoundTrip(hash, es);
    SortedRunIndex(es);
    FilterSizeFits(|es|);
  }

  /** The lookup of the key in this file is that of the table's map. */
  ghost predicate SafeKey(hash: Bytes -> u32, data: Bytes, key: Bytes) {
    var es := TableEntries(data);
    KeysFit(|es|) && TableLookup.Safe(hash, es, key)
  }

  lemma WellFormedFinds(hash: Bytes -> u32, data: Bytes, key: Bytes)
    requires WellFormed(hash, data) && SafeKey(hash, data, key)
    ensures KeysFit(|TableEntries(data)|)
    ensures TableLookup.TableGet(hash, TableEntries(data), key) == MapGet(TableOf(data), key)
  {
    hide TableEntries, FileBytes, TableLookup.TableGet, TableLookup.Safe, TableLookup.TrailerKey, TableLookup.TrailerValue;
    TableLookup.LookupExact(hash, TableEntries(data), key);
  }

  /** Get on a ready reader. */
  method ReaderGet(hash: Bytes -> u32, r: Reader, key: Bytes) returns (val: Bytes, found: bool)
    requires ReaderReady(hash, r)
    modifies r`pos
    ensures KeysFit(|TableEntries(r.data)|)
    ensures TableLookup.TableGet(hash, TableEntries(r.data), key) == if found then Some(val) else None
  {
    hide TableLookup.TableGet, TableLookup.Lookup, WellFormed, Reader.Valid, TableEntries, TableLookup.SortedIndex;
    ReadyReader(hash, r, key);
    val, found := r.Get(key);
  }

  ghost predicate AllWellFormed(hash: Bytes -> u32, readers: seq<Reader>) {
    forall i :: 0 <= i < |readers| ==> WellFormed(hash, readers[i].data)
  }

  lemma HasKeysFit(hash: Bytes -> u32, data: Bytes)
    requires WellFormed(hash, data)
    ensures KeysFit(|TableEntries(data)|)
  {
  }

  /** What looking a key up in the files of the readers finds, newest reader first. */
  ghost function SearchReaders(hash: Bytes -> u32, readers: seq<Reader>, key: Bytes): Option<Bytes>
    requires AllWellFormed(hash, readers)
  {
    if readers == [] then None
    else
      var n := |readers| - 1;
      HasKeysFit(hash, readers[n].data);
      var found := TableLookup.TableGet(hash, TableEntries(readers[n].data), key);
      if found.Some? then found else SearchReaders(hash, readers[..n], key)
  }

  /** The key is safe to look up in the file of each reader. */
  ghost predicate SafeKeys(hash: Bytes -> u32, readers: seq<Reader>, key: Bytes) {
    forall i :: 0 <= i < |readers| ==> SafeKey(hash, readers[i].data, key)
  }

  /** For such keys the search finds what the tables hold. */
  lemma {:induction false} SearchIsLookup(hash: Bytes -> u32, readers: seq<Reader>, key: Bytes)
    requires AllWellFormed(hash, readers) && SafeKeys(hash, readers, key)
    ensures SearchReaders(hash, readers, key) == LookupRuns(RunsOf(readers), key)
  {
    hide WellFormed, SafeKey, TableEntries, TableLookup.TableGet;
    if readers != [] {
      var n := |readers| - 1;
      SearchIsLookup(hash, readers[..n], key);
      WellFormedFinds(hash, readers[n].data, key);
      assert RunsOf(readers)[..n] == RunsOf(readers[..n]);
    }
  }

  /** NewReader: opens a file by name and loads its index. */
  method NewReader(hash: Bytes -> u32, dir: DataDir, timestamp: int) returns (reader: Reader?)
    ensures reader != null ==> fresh(reader) && timestamp in dir.tables
    ensures reader != null ==> reader.timestamp == timestamp && reader.data == dir.tables[timestamp] && reader.hash == hash
    ensures reader != null ==> reader.Valid() && (reader.filter != null ==> fresh(reader.filter) && fresh(reader.filter.bitset))
    ensures timestamp in dir.tables && Load(dir.tables[timestamp]).Loaded? ==> reader != null
  {
    if timestamp !in dir.tables {
      return null;
    }
    reader := new Reader(hash, timestamp, dir.tables[timestamp]);
    var ok := reader.LoadIndex();
    if !ok {
      reader := null;
    }
  }

  lemma WellFormedLoads(hash: Bytes -> u32, data: Bytes)
    requires WellFormed(hash, data)
    ensures Load(data).Loaded? && TableStop(data) == AtLimit
  {
    hide FileBytes, Load, TableEntries, TableStop;
    LoadRoundTrip(hash, TableEntries(data));
    TableRoundTrip(hash, TableEntries(data));
  }

  /** The objects of one reader. */
  ghost function ReaderObjects(r: Reader): set<object>
    reads r`filter
  {
    {r as object} + if r.filter == null then {} else {r.filter as object, r.filter.bitset}
  }

  lemma OwnObjects(hash: Bytes -> u32, r: Reader)
    requires ReaderReady(hash, r)
    ensures ReaderIn(hash, r, ReaderObjects(r))
  {
  }

  lemma InObjects(hash: Bytes -> u32, r: Reader, objects: set<object>)
    requires ReaderIn(hash, r, objects)
    ensures ReaderReady(hash, r) && ReaderObjects(r) <= objects
  {
  }

  // ---------- flushing ----------

  lemma MemtableRunFits(list: SkipLists.SkipList)
    requires ListValid(list) && KeysFit(list.size)
    ensures var run := PayloadRun(list.Entries());
      KeysFit(|list.Entries()|) && Sorted(run) && FitsTable(run) && ToMap(run) == Payloads(list.Contents) && |run| == list.size
  {
    hide SkipLists.SkipList.Valid, ToMap, Payloads, SkipLists.SkipList.Entries;
    list.Accounting();
    var es := list.Entries();
    SortedSize(es);
    PayloadRunMap(es);
    SortedLookup(es);
  }

  /** NewBuilder and Flush: writes the memtable to a table file. */
  method BuildTable(hash: Bytes -> u32, dir: DataDir, timestamp: int, list: SkipLists.SkipList)
    requires ListValid(list) && KeysFit(list.size)
    modifies dir`tables
    ensures timestamp in dir.tables && dir.tables == old(dir.tables)[timestamp := dir.tables[timestamp]]
    ensures WellFormed(hash, dir.tables[timestamp]) && TableStop(dir.tables[timestamp]) == AtLimit
    ensures TableOf(dir.tables[timestamp]) == Payloads(list.Contents)
    ensures |TableOf(dir.tables[timestamp])| == list.size
  {
    hide SkipLists.SkipList.Valid, SkipLists.SkipList.Entries, Sorted, FitsTable, FileBytes, WellFormed,
      TableEntries, TableStop, PayloadRun, ToMap, Builder.Valid;
    MemtableRunFits(list);
    ghost var run := PayloadRun(list.Entries());
    FileIsWellFormed(hash, run);
    SortedSize(run);
    var builder := new Builder(hash, dir, timestamp);
    builder.Flush(list);
  }

  /** NewReader and ReadAll on a table just written: it can be read, and holds the number of
      keys it should; otherwise there is no reader. */
  method OpenChecked(hash: Bytes -> u32, dir: DataDir, timestamp: int, expectedSize: nat) returns (reader: Reader?)
    requires timestamp in dir.tables && WellFormed(hash, dir.tables[timestamp])
    requires TableStop(dir.tables[timestamp]) == AtLimit && |TableOf(dir.tables[timestamp])| == expectedSize
    ensures reader != null && fresh(ReaderObjects(reader)) && ReaderReady(hash, reader)
    ensures reader.timestamp == timestamp && reader.data == dir.tables[timestamp]
  {
    hide WellFormed, TableEntries, TableStop, ToMap, Load, Reader.Valid;
    WellFormedLoads(hash, dir.tables[timestamp]);
    reader := NewReader(hash, dir, timestamp);
    var verifyData, ok := reader.ReadAll();
    if !ok || |verifyData| != expectedSize {
      reader := null;
    }
  }

  // ---------- reopening ----------

  /** Recovered values are non-nil slices. */
  function DataOf(m: Table): Memtable {
    map k | k in m :: Data(m[k])
  }

  ghost predicate ReplayFits(m: Table) {
    forall k :: k in m ==> Wal.HEADER + |k| + |m[k]| < TWO32
  }

  lemma WholeLogFits(crc: Bytes -> u32, data: Bytes)
    requires WholeLog(crc, data)
    ensures ReplayFits(Wal.Replay(crc, data))
  {
    var rs := Wal.Records(crc, data);
    var es := Wal.EntriesOf(rs);
    forall k | k in ToMap(es) ensures Wal.HEADER + |k| + |ToMap(es)[k]| < TWO32 {
      ToMapLookup(es, k);
      var i: nat :| LastWrite(es, k, i);
      assert Wal.Fits(rs[i]);
    }
  }

  /** What is left of a map while its keys are visited. */
  ghost predicate Unvisited(rest: Table, m: Table) {
    rest.Items <= m.Items
  }

  function Visited(m: Table, rest: Table): Table {
    m - rest.Keys
  }

  lemma OneMoreKey(m: Table, rest: Table, k: Bytes)
    requires k in rest && Unvisited(rest, m)
    ensures k in m && m[k] == rest[k] && Unvisited(rest - {k}, m)
    ensures Visited(m, rest - {k}) == Visited(m, rest)[k := m[k]]
    ensures |rest - {k}| < |rest|
  {
    assert (k, rest[k]) in rest.Items;
    forall p | p in (rest - {k}).Items ensures p in m.Items {
      assert p in rest.Items;
    }
    assert (rest - {k}).Keys == rest.Keys - {k};
  }

  lemma AllKeys(m: Table)
    ensures Unvisited(m, m) && Visited(m, m) == map[] && Visited(m, map[]) == m
    ensures DataOf(map[]) == map[]
  {
  }

  lemma DataOfAdd(m: Table, k: Bytes, v: Bytes)
    ensures DataOf(m[k := v]) == DataOf(m)[k := Data(v)]
  {
  }

  lemma UnionAdd<V>(a: map<Bytes, V>, b: map<Bytes, V>, k: Bytes, v: V)
    ensures (a + b)[k := v] == a + b[k := v]
  {
  }

  /** One key restored, on top of what was there before. */
  lemma RestoreStep(restored: Table, rest: Table, k: Bytes, start: Memtable, logged: Table)
    requires k in rest && Unvisited(rest, restored)
    ensures (start + DataOf(Visited(restored, rest)))[k := Data(rest[k])] == start + DataOf(Visited(restored, rest - {k}))
    ensures (logged + Visited(restored, rest))[k := rest[k]] == logged + Visited(restored, rest - {k})
    ensures k in restored && restored[k] == rest[k] && Unvisited(rest - {k}, restored) && |rest - {k}| < |rest|
  {
    hide DataOf, Unvisited, Visited;
    OneMoreKey(restored, rest, k);
    var before := Visited(restored, rest);
    DataOfAdd(before, k, rest[k]);
    UnionAdd(start, DataOf(before), k, Data(rest[k]));
    UnionAdd(logged, before, k, rest[k]);
  }

  /** The second recovery loop of Open, in any order of the keys. */
  method ReplayInto(list: SkipLists.SkipList, restored: Table)
    requires list.Valid()
    modifies list.Repr
    ensures list.Valid() && fresh(list.Repr - old(list.Repr))
    ensures list.Contents == old(list.Contents) + DataOf(restored)
  {
    hide SkipLists.SkipList.Valid, DataOf, Unvisited, Visited;
    AllKeys(restored);
    var rest := restored;
    ghost var start := list.Contents;
    while rest != map[]
      invariant Unvisited(rest, restored)
      invariant list.Valid() && fresh(list.Repr - old(list.Repr))
      invariant list.Contents == start + DataOf(Visited(restored, rest))
      decreases |rest|
    {
      var k :| k in rest;
      RestoreStep(restored, rest, k, start, map[]);
      list.Put(k, Data(rest[k]));
      rest := rest - {k};
    }
  }

  /** The sequence number after n more records. */
  function NumberAfter(before: nat, n: nat): (seqNum: nat)
    ensures seqNum < TWO64
  {
    (before + n) % TWO64
  }

  /** Records that hold exactly the entries of a map, each key once and in some order, numbered
      on from the last number used before. */
  ghost predicate CopyOf(rs: seq<Wal.Record>, m: Table, before: nat) {
    && Wal.AllFit(rs) && ToMap(Wal.EntriesOf(rs)) == m
    && (forall i, j :: 0 <= i < j < |rs| ==> rs[i].key != rs[j].key)
    && (forall i :: 0 <= i < |rs| ==> rs[i].seqNum == NumberAfter(before, i + 1))
  }

  lemma OneMoreRecord(copied: seq<Wal.Record>, m: Table, before: nat, r: Wal.Record)
    requires CopyOf(copied, m, before) && Wal.Fits(r) && r.key !in m && r.seqNum == NumberAfter(before, |copied| + 1)
    ensures CopyOf(copied + [r], m[r.key := r.val], before)
  {
    hide ToMap;
    Wal.EntriesOfAppend(copied, r);
    forall i | 0 <= i < |copied| ensures copied[i].key != r.key {
      ToMapLookup(Wal.EntriesOf(copied), copied[i].key);
      assert LastWrite(Wal.EntriesOf(copied), copied[i].key, i);
    }
  }

  /** What an abandoned log is taken over into: the memtable, the log and its last number. */
  datatype Taken = Taken(contents: Memtable, log: Bytes, seqNum: nat)

  /** Some entries have been taken over, the rest has not. */
  ghost predicate Copying(crc: Bytes -> u32, restored: Table, rest: Table, copied: seq<Wal.Record>, start: Taken, now: Taken)
  {
    && Unvisited(rest, restored) && CopyOf(copied, Visited(restored, rest), start.seqNum)
    && now.contents == start.contents + DataOf(Visited(restored, rest))
    && now.log == start.log + Wal.LogBytes(crc, copied)
    && now.seqNum == NumberAfter(start.seqNum, |copied|)
  }

  lemma CopyingStarts(crc: Bytes -> u32, restored: Table, start: Taken)
    requires start.seqNum < TWO64
    ensures Copying(crc, restored, restored, [], start, start)
  {
    hide Wal.RecordBytes;
    AllKeys(restored);
    assert start.contents + map[] == start.contents;
    assert start.log + [] == start.log;
  }

  lemma CopyingEnds(crc: Bytes -> u32, restored: Table, copied: seq<Wal.Record>, start: Taken, now: Taken)
    requires Copying(crc, restored, map[], copied, start, now)
    ensures now.contents == start.contents + DataOf(restored) && now.log == start.log + Wal.LogBytes(crc, copied)
    ensures now.seqNum < TWO64 && CopyOf(copied, restored, start.seqNum)
  {
    AllKeys(restored);
  }

  lemma CopyingStep(crc: Bytes -> u32, restored: Table, rest: Table, copied: seq<Wal.Record>, start: Taken,
                    now: Taken, r: Wal.Record)
    requires Copying(crc, restored, rest, copied, start, now)
    requires r.key in rest && r.val == rest[r.key] && Wal.Fits(r) && r.seqNum == (now.seqNum + 1) % TWO64
    ensures Copying(crc, restored, rest - {r.key}, copied + [r], start,
                    Taken(now.contents[r.key := Data(r.val)], now.log + Wal.RecordBytes(crc, r), r.seqNum))
    ensures |rest - {r.key}| < |rest|
  {
    hide Unvisited, CopyOf, Wal.LogBytes, Wal.RecordBytes, DataOf, Visited;
    RestoreStep(restored, rest, r.key, start.contents, map[]);
    NotYetVisited(restored, rest, r.key);
    Wal.LogBytesAppend(crc, copied, r);
    OneMoreRecord(copied, Visited(restored, rest), start.seqNum, r);
    assert (start.log + Wal.LogBytes(crc, copied)) + Wal.RecordBytes(crc, r) == start.log + Wal.LogBytes(crc, copied + [r]);
  }

  lemma NotYetVisited(restored: Table, rest: Table, k: Bytes)
    requires k in rest && Unvisited(rest, restored)
    ensures k !in Visited(restored, rest) && Visited(restored, rest - {k}) == Visited(restored, rest)[k := rest[k]]
  {
    OneMoreKey(restored, rest, k);
  }

  lemma UnvisitedFits(restored: Table, rest: Table, k: Bytes)
    requires ReplayFits(restored) && k in rest && Unvisited(rest, restored)
    ensures WriteFits(k, Data(rest[k]))
  {
    OneMoreKey(restored, rest, k);
  }

  /** One entry of the abandoned log. */
  method RestoreOne(list: SkipLists.SkipList, wal: Wal.WAL, key: Bytes, value: Bytes) returns (ghost r: Wal.Record)
    requires list.Valid() && wal as object !in list.Repr && wal.file as object !in list.Repr
    requires wal.sequenceNumber < TWO64 && WriteFits(key, Data(value))
    modifies list.Repr, wal, wal.file
    ensures list.Valid() && fresh(list.Repr - old(list.Repr))
    ensures list.Contents == old(list.Contents)[key := Data(value)]
    ensures r == Wal.Record((old(wal.sequenceNumber) + 1) % TWO64, key, value) && Wal.Fits(r)
    ensures wal.sequenceNumber == r.seqNum && wal.file.data == old(wal.file.data) + Wal.RecordBytes(wal.crc, r)
  {
    hide SkipLists.SkipList.Valid, Wal.RecordBytes;
    list.Put(key, Data(value));
    wal.WriteEntry(key, Data(value));
    r := Wal.Record(wal.sequenceNumber, key, value);
  }

  lemma KeyFits(crc: Bytes -> u32, restored: Table, rest: Table, copied: seq<Wal.Record>, start: Taken, now: Taken, k: Bytes)
    requires Copying(crc, restored, rest, copied, start, now) && ReplayFits(restored) && k in rest
    ensures WriteFits(k, Data(rest[k])) && now.seqNum < TWO64
  {
    UnvisitedFits(restored, rest, k);
  }

  /** The first recovery loop of Open: the entries of the abandoned log go into the memtable
      and to the end of the current log, in any order of the keys. */
  method ReplayAndLog(list: SkipLists.SkipList, wal: Wal.WAL, restored: Table) returns (ghost copied: seq<Wal.Record>)
    requires list.Valid() && wal as object !in list.Repr && wal.file as object !in list.Repr
    requires wal.sequenceNumber < TWO64 && ReplayFits(restored)
    modifies list.Repr, wal, wal.file
    ensures list.Valid() && fresh(list.Repr - old(list.Repr))
    ensures list.Contents == old(list.Contents) + DataOf(restored)
    ensures wal.sequenceNumber < TWO64 && CopyOf(copied, restored, old(wal.sequenceNumber))
    ensures wal.file.data == old(wal.file.data) + Wal.LogBytes(wal.crc, copied)
  {
    hide *;
    ghost var start := Taken(list.Contents, wal.file.data, wal.sequenceNumber);
    CopyingStarts(wal.crc, restored, start);
    var rest := restored;
    copied := [];
    while rest != map[]
      invariant list.Valid() && fresh(list.Repr - old(list.Repr))
      invariant wal as object !in list.Repr && wal.file as object !in list.Repr
      invariant Copying(wal.crc, restored, rest, copied, start, Taken(list.Contents, wal.file.data, wal.sequenceNumber))
      decreases |rest|
    {
      var k :| k in rest;
      ghost var now := Taken(list.Contents, wal.file.data, wal.sequenceNumber);
      KeyFits(wal.crc, restored, rest, copied, start, now, k);
      ghost var r := RestoreOne(list, wal, k, rest[k]);
      CopyingStep(wal.crc, restored, rest, copied, start, now, r);
      copied := copied + [r];
      rest := rest - {k};
    }
    CopyingEnds(wal.crc, restored, copied, start, Taken(list.Contents, wal.file.data, wal.sequenceNumber));
  }
}
