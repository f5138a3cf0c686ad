# StrataGo in Dafny

A model of the StrataGo storage engine (`engine/`) and of the state machine that a Raft log
drives it with (`consensus/fsm.go`), with machine-checked proofs. The layers build on one
another: what a lower layer proves is what the next one uses.

| file | what it models |
|---|---|
| ByteStrings, Entries, Disk | bytes and their order, little-endian numbers, reads that end early; sorted runs and the map a sequence of writes leaves; files and the data directory |
| SkipList | the memtable: nodes with arrays of forward pointers, changed in place |
| Bloom | the filter: a bit array probed by double hashing with wrapping 32-bit sums |
| SsTable, SsTableRoundTrip, TableLookup | the byte format of a table file, its round trips, and the fast lookup against the plain one |
| Tables | the objects that write and read table files: builder, reader, iterator |
| MergeHeap, Merge | the k-way merge on a binary heap held in a sequence |
| Wal | the log: framed records, torn-tail recovery, truncation |
| Store, Machine | the store as values, and the engine as a state machine over its lock-protected sections |
| Recovery, Removal, Lives, Unlogged | the directory alone: full scan, crash at any step, reopening; the removal as the code has it; any number of crashes; an engine whose log lacks what its memtable holds |
| Selection, Limits, Counterexamples, StaleRead, UnboundedScan | choosing what to compact; exact conditions; concrete inputs on which the code misses its intent |
| EngineState, Scanning, Compaction, Opening, Engine | the class `StrataGo` over the objects above; each method is tied to the function of `Store` that says what its section does |
| Interleaving | the methods of `StrataGo` under any schedule of clients, one flush worker and one compaction worker, with crashes in between |
| Formats | the bytes of table files, log records and the snapshot stream, position by position |
| Replicas, Snapshots, Fsm | what depends on the applied writes alone; the snapshot stream; Apply, Snapshot, Persist and Restore |

`dafny verify dfyconfig.toml` checks the whole project.

## How the parts meet

* A state of `Machine` holds the memtables, the readers and the directory as values, and where
  the flush worker and the compaction worker stand. `Machine.RunShows` and
  `Removal.RunIsSafe` are the interleaving theorems.
* `Interleaving.Put`, `Rotate`, `Build`, `Publish`, `DropLog`, `Select`, `Merge`, `Swap` and
  `Remove` call the corresponding methods of the class `StrataGo`, in any order in which the two
  workers may be interleaved, and each extends a ghost trace by its event; the predicate
  `Interleaving.Valid` says that the object graph stands exactly in the state that the state
  machine reaches on that trace. `Interleaving.Get`, `FullScan`, `CrashAndOpen` and
  `CrashInWrite` then inherit the theorems for the real objects: skip list, log file, table bytes,
  readers.
* nil and the empty slice are different values (`Entries.Value`). The view of the store in which
  every empty value is a tombstone (`Machine.View`) is kept for all values; the layered search
  differs from it exactly when a memtable has an empty non-nil value on top
  (`Machine.GetIsViewIff`).

## Where the code and its intent part ways

* Compaction names its output like its newest input (engine/compaction.go:71-74) and then removes
  every input by name (engine/compaction.go:126-130), so the fourth removal deletes the output.
  The steps have a parameter `keepMerged`: false is the code, true spares that one name. Until
  the fourth removal the two are the same. `Removal.AllPresentIff` says that every reader's file
  is in place exactly until then; `Removal.LiteralScanIff` and `Removal.LiteralReopenIff` say for
  which keys the full scan and a reopened store are still right afterwards. The layered search
  stays right as long as the inputs of each compaction are neighbours, because the merged reader
  keeps its open file. `Counterexamples.CompactionRemovesItsOutput` gives writes, flushes and one
  compaction that leave an empty directory.
* The comment on the selection (engine/compaction.go:140-141) promises a contiguous group, but a
  reader whose file is missing is skipped without resetting the group
  (engine/compaction.go:151-154). `Selection.GroupContiguousIff` says when a group is contiguous,
  `Limits.SpliceSafeIffContiguous` that neighbours are exactly what a splice needs, and
  `Limits.SpliceKeepsIff` which keys a given splice gets wrong. As the code's own removal
  leaves missing files, both come together in
  `StaleRead.GetReturnsOverwrittenValue`: Get returns an overwritten value.
* Open replays `wal.log.flushing` after `wal.log` (engine/stratago.go:60-79), so a key in both
  gets its older value back. `Recovery.CrashKeepsView` and `Lives.CrashIsExact` state the exact
  result of a crash at every step; `StaleRead.OlderValueReturns` is the shortest run. If `wal.log`
  has a torn tail, the copies land behind it. `Engine.Open` states what is read back then for any
  checksum: the copies are records numbered from 1 on, one for each key, and the log replays the
  torn bytes and these copies as one. `Wal.CompletedTail` says when a torn record with a whole
  header is accepted (`Interleaving.MisreadNothingIff`). Otherwise the copies are cut off with the
  tail, and the engine goes on with keys that are in its memtable and not in its log: `Unlogged.RunWithout`,
  `Unlogged.FlushHeals` and `Unlogged.TornThenCrash` follow it to its next crash.
* Reader.Get has no limit at the end of the data block (engine/sstable/reader.go:115-154).
  `TableLookup.LookupExact` states the result of every lookup, `TableLookup.LookupCorrect` a
  condition on the file under which every lookup is right, and `TableLookup.PhantomIff` that
  without it a wrong key is found when the filter accepts it. The concrete table of
  `UnboundedScan.ScanFindsPhantom` uses a hash that maps all keys alike; no such table is given
  for the hash of the code.
* A recovered tombstone is a non-nil empty slice (engine/wal/wal.go:129), which the layered search
  returns as a found, empty value: `Recovery.ReopenedGet`, `StaleRead.TombstoneIsFound`.

## Model

| member | source | states |
|---|---|---|
| ByteStrings.LtIsByteOrder | engine/memtable/skiplist.go:64-64 | one key comes before another if and only if they agree on some first bytes and there the one ends or has the smaller byte |
| SkipLists.SkipList.Put | engine/memtable/skiplist.go:54-105 | for any height of a new node in 1 to 20, the list stays well formed (every level links exactly the taller nodes, in strict key order; Size and SizeBytes exact), its map is the old one with the key set, and Size and SizeBytes change by one and the key's and value's lengths, or by the difference of the values' lengths |
| SkipLists.SkipList.Get | engine/memtable/skiplist.go:107-128 | a value is found exactly for the keys of the map, and it is the last one put |
| SkipLists.SkipList.LevelHoldsTallNodes | engine/memtable/skiplist.go:15-29 | a pointer on level i leads to the next node taller than i, skips only lower ones, leads to a key that comes later byte by byte, and is null exactly when no taller node follows |
| SkipLists.SkipList.Accounting | engine/memtable/skiplist.go:70-104 | the entries ascend byte by byte, Size is the number of distinct keys and SizeBytes the sum of key and value lengths |
| SkipLists.Iterator.Next | engine/memtable/skiplist.go:135-141 | visits every entry once, each key after all before it byte by byte, and stops after the last |
| Bloom.BloomFilter.AddHash | engine/sstable/bloom.go:85-94 | sets in place exactly the bits at seven positions, the hash and what it becomes when its rotation by 17 digits is added up to six times in 32 bits, each modulo the number of bits, and clears none |
| Bloom.WithProbesExact | engine/sstable/bloom.go:85-94 | after the first i probes a bit is set if and only if it was set or one of these probes names it, so no bit is ever cleared |
| Bloom.RotatedIsDelta | engine/sstable/bloom.go:46-46 | the step has the 32 binary digits of the hash, each 17 places further down and those at the bottom on top, and no other number has |
| Bloom.HasDigitIs | engine/sstable/bloom.go:50-56 | the bit tested is the quotient by the power of two, odd or even |
| Bloom.FilterSizeIs | engine/sstable/bloom.go:19-31 | the filter has the least number of bytes with ten bits for each key, and for at least 64 keys |
| Bloom.BloomFilter.MayContain | engine/sstable/bloom.go:40-64 | true exactly when the bits at these positions are set, for an empty filter always |
| Bloom.NoFalseNegatives | engine/sstable/bloom.go:40-94 | after any hashes in any order, each of them may be contained, with every probe within the bit array under wrapping 32-bit sums |
| Tables.Builder.Add | engine/sstable/builder.go:46-81 | the file, the sparse index, the byte count and the hashes are those of the entries added so far, with one more |
| Tables.Builder.BuildFilter | engine/sstable/builder.go:86-93 | the filter sized for the number of keys holds exactly the bits of all hashes collected |
| Tables.Builder.WriteIndex | engine/sstable/builder.go:152-169 | appends the number of index entries and each of them in order |
| Tables.Builder.Finish | engine/sstable/builder.go:84-135 | the file renamed into place holds the data block, the filter of all hashes, the index and the footer with both offsets |
| Tables.Builder.Flush | engine/sstable/builder.go:138-150 | the file written for a memtable is the table file of its entries in order, tombstones included |
| Formats.DataLayout | engine/sstable/builder.go:46-81 | each record starts where the one before it ends: four bytes of key length and four of value length, least significant first, the key, the value |
| Formats.FileLayout | engine/sstable/builder.go:84-135 | behind the records the filter's length and the filter, the number of index entries and these, and in the last 16 bytes where the index and where the filter begins |
| Formats.IndexEntryLayout | engine/sstable/builder.go:152-169 | an index entry is the key's length in four bytes, the key, and the offset in eight |
| Formats.FilterBits | engine/sstable/builder.go:86-93 | the filter's set bits are exactly the positions of the keys' hashes |
| SsTableRoundTrip.TableRoundTrip | engine/sstable/iterator.go:49-79 | for any entries that fit, decoding the file yields exactly the entries and stops at the filter offset |
| SsTableRoundTrip.LoadRoundTrip | engine/sstable/reader.go:33-93 | for any entries that fit, loading the index of the file recovers exactly the index and the filter that were built |
| Tables.Reader.LoadIndex | engine/sstable/reader.go:33-93 | for any bytes, succeeds exactly when footer, filter and index can be read, and then holds them |
| Formats.LoadedParts | engine/sstable/reader.go:33-93 | a file of less than 16 bytes has an empty index and no filter; for any other bytes that can be loaded, the filter stands behind its length at the second offset of the last 16 bytes, and the index behind its count at the first |
| Tables.Reader.FindIndexEntry | engine/sstable/reader.go:215-236 | the binary search returns the offset of the last index entry that the key does not precede byte by byte, 0 if there is none |
| Tables.Reader.Get | engine/sstable/reader.go:100-156 | for any bytes with a sorted index, the result of filter, index and forward scan |
| Tables.Reader.ScanFrom | engine/sstable/reader.go:108-155 | from any offset of any bytes the scan terminates with the value of the first record that has the key, unless a larger key or a failed read comes first |
| TableLookup.LookupExact | engine/sstable/reader.go:100-156 | the result for every key of a table built from a sorted run: the table's map if the key is stored, not above the last key, rejected by the filter, or below the bytes that a scan takes for the next record's key, or if that record does not fit into the file; that record's value for its own key; and for any other key what the scan finds behind it |
| TableLookup.LookupCorrect | engine/sstable/reader.go:100-156 | the fast lookup is the plain lookup for every key at all, if the size that the filter's first four bytes spell reaches past the end of the file |
| TableLookup.PhantomIff | engine/sstable/reader.go:115-154 | for any hash: the bytes behind the filter's first four are wrongly found as a key if and only if that size stays within the file, they are above the last key, and the filter accepts them |
| TableLookup.ScanPastData | engine/sstable/reader.go:115-154 | what the scan reads from the end of the data block on, for every key |
| TableLookup.LookupIsShort | engine/sstable/reader.go:108-154 | a lookup of a key not above the last one compares at most 129 records |
| TableLookup.IntervalsAreShort | engine/sstable/builder.go:46-59 | every record starts less than 1024 bytes after the index entry of its interval |
| TableLookup.IndexSpacing | engine/sstable/builder.go:46-59 | consecutive index entries are at least 1024 bytes apart |
| Tables.Reader.ReadAll | engine/sstable/reader.go:163-213 | for any bytes, which reads fail and which map the decoded entries leave |
| Formats.ScanLimit | engine/sstable/reader.go:163-213 | a file of at most 16 bytes is scanned to its end, a longer one up to the number in its last eight bytes, as a signed one |
| Tables.TableIterator.Next | engine/sstable/iterator.go:49-79 | yields the remaining entries one by one and records why the scan stopped |
| Tables.Reader.NewIterator | engine/sstable/iterator.go:19-47 | opens the file of the reader's name as it is now, and fails exactly when it is gone |
| UnboundedScan.ScanFindsPhantom | engine/sstable/reader.go:115-154 | an instance of this: a one-entry table under a hash that maps all keys alike (not the hash of the code), and an absent key for which the lookup returns a value |
| MergeHeaps.LessIsTotal | engine/sstable/merge.go:21-29 | of two items from different iterators exactly one is less |
| MergeHeaps.LessIs | engine/sstable/merge.go:21-29 | an item is less if and only if its key comes earlier byte by byte, or is the same and comes from a newer file |
| MergeHeaps.MergeHeap.Push | engine/sstable/merge.go:31-37 | keeps the heap order and adds exactly the item |
| MergeHeaps.MergeHeap.Pop | engine/sstable/merge.go:39-45 | removes exactly one item, which is at most every other, and keeps the heap order |
| Merging.NewestWinsAt | engine/sstable/merge.go:21-29 | in the newest-wins union a key has the value of the newest run that has it |
| Merging.NewestWinsKeys | engine/sstable/merge.go:21-29 | a key is in that union if and only if some run is the newest one that has it |
| Merging.WriteNewest | engine/sstable/merge.go:74-85 | writing the least head keeps the output strictly sorted and what is written together with what is pending equal to the union |
| Merging.SkipOlder | engine/sstable/merge.go:74-85 | skipping a head that repeats the last key keeps the same |
| Merging.Seed | engine/sstable/merge.go:54-66 | the heap holds the head of every non-empty run once; a failure means that some scan does not end cleanly |
| Merging.MergeOne | engine/sstable/merge.go:72-94 | one round keeps the union of what is written and what is pending, the heap's content and the position of every iterator, and lowers the number of pending entries by one |
| Merging.Merge | engine/sstable/merge.go:50-99 | for any number of sorted iterators, newest first: it terminates, succeeds exactly when every scan ends cleanly, and writes a table whose keys strictly ascend byte by byte and whose map is the newest-wins union, tombstones included; otherwise the directory is unchanged |
| Wal.WAL.WriteEntry | engine/wal/wal.go:43-88 | appends one framed record with the next sequence number |
| Wal.WAL.Recover | engine/wal/wal.go:101-157 | for any bytes: the last value of each key among the records that can be read; the sequence number is the largest of the old one and the records'; truncation at the offset added up in 32 bits |
| Formats.LogRecordLayout | engine/wal/wal.go:43-88 | a log record is the sequence number in eight bytes, the lengths of key and value and the checksum of both in four each, least significant first, the key, the value |
| Wal.OffsetWraps | engine/wal/wal.go:145-145 | the offset counted is short of the true one by a multiple of 2^32 only, less than 2^32 for one record |
| Wal.LogRoundTrip | engine/wal/wal.go:43-157 | an untorn log is read back record by record |
| Wal.RecoverTornLog | engine/wal/wal.go:101-157 | recovering any byte prefix of a log returns the map of its longest prefix of whole records and truncates to exactly its length |
| Wal.WholeRecordsIsLongest | engine/wal/wal.go:101-157 | no longer prefix of whole records lies within the bytes |
| Wal.RecoverIdempotent | engine/wal/wal.go:101-157 | recovering the truncated log again changes nothing, whatever bytes it was cut from |
| Wal.RecoverAppendRecover | engine/wal/wal.go:43-157 | appending to a recovered log and recovering again overrides the recovered map at the key |
| Wal.TornTail | engine/wal/wal.go:101-157 | a record of which a crash let only some bytes through is not read behind a whole log |
| Wal.RejectedTail | engine/wal/wal.go:101-157 | what is appended behind bytes that are still rejected is never read |
| Wal.CompletedTail | engine/wal/wal.go:101-157 | whatever is appended behind a torn record with a whole header is taken for its rest; a record is read there if and only if there are enough bytes and they have the checksum of what was lost |
| Wal.CopiesAreNoLonger | engine/stratago.go:60-68 | records of entries that a log leaves, each key once, take no more space than the log |
| Engine.StrataGo.Put | engine/stratago.go:129-158 | refused when closed; otherwise the log's replay and the active memtable both have the key set, and nothing else changes |
| Engine.StrataGo.Delete | engine/stratago.go:192-215 | the same for a tombstone, nil in the memtable and empty in the log |
| Engine.StrataGo.Get | engine/stratago.go:160-189 | active, immutable, then the readers newest first; for keys that are safe to probe in every reader it is the layered search over the tables' maps |
| Engine.StrataGo.ScanAll | engine/stratago.go:300-348 | refused when closed; otherwise the oldest-to-newest overwrite of the files opened by name and the memtables, without tombstones |
| Engine.StrataGo.Rotate | engine/flush.go:18-57 | nothing if and only if the active memtable is empty and there is no immutable one; without an immutable one the memtable becomes immutable and its log wal.log.flushing, with a new, empty memtable and log |
| Engine.StrataGo.Build | engine/flush.go:59-88 | the table file of the immutable memtable is in place and readable, and the size check never fires, for every memtable |
| Engine.StrataGo.Publish | engine/flush.go:90-93 | the reader is appended and the immutable memtable dropped, nothing else |
| Engine.StrataGo.DropLog | engine/flush.go:99 | wal.log.flushing is gone, nothing else changes |
| Engine.StrataGo.Flush | engine/flush.go:15-101 | unless both memtables are empty, one reader is appended with the contents of the immutable memtable, or without one of the active memtable, which is then empty; its table is in place, there is no immutable memtable and no flushing log; otherwise nothing changes |
| Engine.StrataGo.Close | engine/stratago.go:217-247 | a second call changes nothing; the first does what Flush does and closes |
| Engine.StrataGo.Purge | engine/stratago.go:250-286 | whatever the engine held, memory and directory are empty and the engine is open |
| Engine.StrataGo.SelectFilesForCompaction | engine/compaction.go:142-174 | the earliest-ending four readers whose files have sizes on the same sides of 10, 50, 250 and 1024 MiB, with only missing files between them, and none exactly when there are none; the tier is the number of these bounds reached |
| Engine.StrataGo.MergeSelected | engine/compaction.go:62-88 | fails and changes nothing exactly when a file is missing; otherwise the newest-wins union of the files, as they are on disk, is in place under the newest one's name and open |
| Engine.StrataGo.Swap | engine/compaction.go:92-114 | the merged reader stands where the first input stood and the inputs are gone, also when readers were appended since the selection |
| Engine.StrataGo.RunCompaction | engine/compaction.go:50-137 | selection, merge, swap and removal in a row: the new list, and a directory that has lost every input name, the merged one included |
| Engine.Open | engine/stratago.go:37-127 | for any directory with readable logs and any checksum: wal.log.flushing is gone, its entries having been copied behind wal.log once each, numbered from 1 on; the log replays what its bytes and the copies are together read as, the memtable holds that on top of wal.log.flushing, and the readers are in timestamp order; so behind whole records wal.log.flushing overrides wal.log, and behind a torn record that is still rejected wal.log overrides it and stays as it was |
| Opening.TakeOverFlushing | engine/stratago.go:51-70 | the abandoned log, torn or not, is in the memtable and appended record by record, each key once with consecutive numbers, to the current log, whatever that is, and is gone |
| Opening.CopiedLog | engine/stratago.go:60-79 | copies behind a whole log override it; copies behind a torn tail that is still rejected leave the replay as it was |
| Opening.ReadBehind | engine/wal/wal.go:101-157 | for any bytes and whatever is appended: the records are those read before, followed by those that the torn part and the new bytes together spell |
| Opening.OpenReaders | engine/stratago.go:81-108 | one reader for each table file, in the order of the timestamps |
| Scanning.CopyTable | engine/stratago.go:315-324 | the remaining entries of an iterator overwrite what was collected |
| Scanning.CopyMemtable | engine/stratago.go:327-338 | the entries of a memtable overwrite what was collected |
| Scanning.DropTombstones | engine/stratago.go:340-345 | exactly the keys with non-empty values remain |
| Compaction.MergeFiles | engine/compaction.go:62-88 | with all files present, the union of the files, newest winning, is in place under the newest one's name and can be read; otherwise nothing changes |
| Compaction.Rebuild | engine/compaction.go:92-112 | the rebuilt list has no reader twice and stands for the splice of the old runs |
| Compaction.RemoveInputs | engine/compaction.go:126-130 | every input's name is gone from the directory, the newest one's included |
| Compaction.InputsUnion | engine/compaction.go:62-69 | newest-wins over iterators opened newest first is the union of the runs in list order |
| Compaction.GroupMayBeSelected | engine/compaction.go:142-174 | every selection of the code is one that the state machine allows |
| Selection.SelectFiles | engine/compaction.go:142-174 | returns the four positions of sizes on the same sides of 10, 50, 250 and 1024 MiB that end first, with nothing but missing files between them, and none exactly when there are none; the tier is the number of bounds reached |
| Selection.GroupIsFourAlike | engine/compaction.go:36-48 | the groups of one tier are exactly these, and their tier is that number |
| Selection.GroupContiguousIff | engine/compaction.go:142-174 | a group is four neighbours if and only if no file between its first and its last member is missing |
| Machine.RunShows | engine/stratago.go:129-215 | over every interleaving of writes, flush sections and compaction sections, from any state that satisfies the invariant and for any values, the view follows the writes alone, for the removal as the code has it, provided the inputs of each compaction are neighbours |
| Machine.LayeredGetIsPlainMap | engine/stratago.go:160-189 | from an empty store, with nil or non-empty values, the layered search is the plain map after every such interleaving |
| Machine.GetIsViewIff | engine/stratago.go:163-186 | the layered search is the length-based view if and only if no memtable has an empty non-nil value on top |
| Store.SpliceKeepsLookups | engine/compaction.go:98-114 | replacing neighbours by their union changes no lookup |
| Removal.AllPresentIff | engine/compaction.go:126-130 | over every interleaving with the removal as the code has it, from any state that satisfies the invariant with no compaction in progress: every reader's file is in place if and only if fewer than four files have been removed |
| Removal.RunIsSafe | engine/compaction.go:50-137 | over every interleaving, for the code's removal up to its fourth file and for the sparing one throughout, with no condition on the selection: every reader's file is in place, every file is accounted for, the logs hold the memtables, reader timestamps increase, and view and full scan are the plain map |
| Removal.LostForEver | engine/compaction.go:142-174 | a listed reader whose file is gone is never selected again, so that it stays listed without a file |
| Removal.ScanIff | engine/stratago.go:300-348 | in any state at all, the scan shows a key as the layers do if and only if a memtable decides it or the readers that can be opened by name answer as all of them do |
| Removal.LiteralScanIff | engine/stratago.go:300-348 | after any run with the code's removal whose compactions had neighbours as inputs, the scan is right for a key under exactly this condition |
| Removal.RemovalOfMergedIff | engine/compaction.go:126-130 | at the moment the merged file goes, the scan stays right for exactly the keys that a memtable decides or that the list without the merged reader answers alike |
| Removal.LiteralReopenIff | engine/stratago.go:55-108 | a crash after such a run, and Open: a key is right if and only if the two logs do not disagree on it, and, if it is in neither, the files left answer as the readers did |
| Recovery.ScanAllIsPlain | engine/stratago.go:300-348 | in every state in which all files can be opened the full scan is exactly the plain map, also while a merged file waits to be swapped in |
| Recovery.CrashKeepsView | engine/stratago.go:55-108 | with every reader's file in place, after a crash at any step and Open, a key shows the plain map's value if and only if it is not in both logs with different values; otherwise it shows its older value |
| Removal.ReopenIff | engine/stratago.go:55-108 | the same without the condition on the files: a key in neither log is right if and only if the files answer as the readers |
| Recovery.QuietCrashIsPlain | engine/stratago.go:55-108 | with no flushing log and every reader's file in place, the reopened scan is the plain map |
| Recovery.ReopenedOrder | engine/stratago.go:98-108 | when nothing is in progress, sorting the file names by timestamp reproduces the reader list |
| Recovery.InterruptedOpen | engine/stratago.go:60-72 | a crash while Open copies the flushing log, between two records, is harmless: what was copied is copied again |
| Lives.TornOpenShows | engine/stratago.go:60-79 | a crash inside a record while a flushing log is there: after Open a key shows the plain map's value if and only if what is read back behind the log's own entries has that value for it or nothing; and if that is a part of the flushing log, if and only if it does not hide a different, newer value |
| Unlogged.OpenedStart | engine/stratago.go:37-127 | whatever Open reads back, it leaves a state from which the theorems on runs apply and which shows its full scan; its log lacks exactly the keys of the flushing log that were not read back |
| Unlogged.RunWithout | engine/stratago.go:129-215 | no step reads the logs: with keys missing from them every interleaving goes the same way, and missing stays what has been neither written nor flushed |
| Unlogged.FlushHeals | engine/flush.go:18-99 | when a memtable has been flushed from its rotation to the removal of its log, nothing is missing any more |
| Unlogged.TornThenCrash | engine/stratago.go:37-127 | a second crash at any point of any run after such an Open, torn or not: a key is right if and only if the logs do not disagree on it (or what is read back is right), and, if it was missing and its table file is not in place, the readers tell it; for the code's removal up to its fourth file and for the sparing one |
| Unlogged.TornThenLiteralCrash | engine/stratago.go:37-127 | the same for the code's removal of merged files: a key in no log is right if and only if the files answer as the memtable did if it was missing, and otherwise as the readers did |
| Recovery.ReopenedGet | engine/wal/wal.go:129 | after reopening, the layered search differs from the scan for exactly the keys recovered as tombstones, which it finds as empty values |
| Counterexamples.CompactionRemovesItsOutput | engine/compaction.go:71-130 | a possible run of writes, flushes and one compaction after which Get still answers while the directory, the scan and the reopened store are empty |
| StaleRead.GetReturnsOverwrittenValue | engine/compaction.go:98-174 | a possible run of the code without crash or failure, for any eight non-empty values of one key: flushes, a compaction with its removals, more flushes, and a compaction across the missing file, after which Get returns a value overwritten three times |
| StaleRead.SelectionsAreForced | engine/compaction.go:142-174 | for long and short values in the right places, at both selections of that run and for any readers and well-formed files that stand for its state, the group that the run takes is the only one, so that the code's search returns it |
| StaleRead.OlderValueReturns | engine/stratago.go:60-79 | a write, a rotation, another write of the key and a crash: the first value is back |
| StaleRead.TombstoneIsFound | engine/wal/wal.go:129 | a deletion and a crash: Get finds the key, with an empty value |
| Lives.CrashIsExact | engine/stratago.go:55-108 | with every reader's file in place, the scan of the store that Open finds after a crash at any step is the plain map with the older values of keys in both logs |
| Lives.CrashKeepsPlainIff | engine/stratago.go:55-108 | such a crash keeps the whole plain map if and only if no key is in both logs with different values |
| Lives.ReopenedAfterRun | engine/stratago.go:37-127 | after any run of either form of the removal, Open finds a state that satisfies the invariant again and shows what its scan shows |
| Lives.EveryLifeIsSafe | engine/stratago.go:37-127 | over any number of runs, each ended by a crash at any step and reopened, none of which reaches the fourth removal of the code's loop: the invariant holds again and the scan is the plain map up to what each crash brings back |
| Limits.SpliceSafeIffContiguous | engine/compaction.go:98-114 | a splice changes no lookup for any contents of the readers if and only if its inputs are neighbours |
| Limits.SpliceKeepsIff | engine/compaction.go:98-114 | for given readers and inputs, a splice changes the answer for exactly those keys whose newest holder among the others lies behind the first input, with a still newer input that holds a different value |
| Limits.PublishKeepsIff | engine/flush.go:90-93 | publishing a flushed table keeps Get's answer if and only if the key is not held on top by the immutable memtable with an empty non-nil value |
| Limits.CompactionsBounded | engine/compaction.go:98-114 | each swap takes three readers off the list, so n readers allow at most (n - 1) / 3 compactions without flushes |
| Interleaving.Put | engine/stratago.go:129-158 | the object graph goes to the state that the state machine's step leads to, at any point of any schedule |
| Interleaving.Delete | engine/stratago.go:192-215 | the same for a deletion |
| Interleaving.Rotate | engine/flush.go:18-57 | the same for the first section of Flush, which has something to do if and only if the active memtable is not empty or there is an immutable one |
| Interleaving.Build | engine/flush.go:59-88 | the same for writing the table file |
| Interleaving.Publish | engine/flush.go:90-93 | the same for the second section of Flush |
| Interleaving.DropLog | engine/flush.go:99 | the same for the removal of the old log |
| Interleaving.Select | engine/compaction.go:142-174 | the same for a selection, which finds nothing exactly when no group exists |
| Interleaving.Merge | engine/compaction.go:62-88 | the same for the merge, which never fails between a selection and its swap |
| Interleaving.Swap | engine/compaction.go:90-119 | the same for the swap, with flushes allowed since the selection |
| Interleaving.Remove | engine/compaction.go:126-130 | the same for one round of the removal loop |
| Interleaving.Get | engine/stratago.go:160-189 | a read of a key that is safe to look up, at any point of any schedule with either form of the removal (for the code's, up to its fourth file, or with neighbours as inputs), also after an Open beside a torn log, is the plain map's value if and only if no memtable has an empty non-nil value on top |
| Interleaving.FullScan | engine/stratago.go:300-348 | a scan at any point of any such schedule: the plain map as long as no merged file has been removed, and with the code's removal afterwards right for exactly the keys of Removal.ScanIff |
| Interleaving.CrashAndOpen | engine/stratago.go:37-127 | a crash at any point of any schedule, with either form of the removal, and Open give an engine from which every theorem here applies again; with complete logs and no merged file removed it shows the plain map up to the keys in both logs, and in general it is right for exactly the keys of Unlogged.TornThenCrash, or of Unlogged.TornThenLiteralCrash |
| Interleaving.CrashInWrite | engine/stratago.go:37-127 | a crash after any number of bytes of a write's log record, at any point of any schedule, for any checksum, and Open: an engine from which every theorem here applies again; without a flushing log, or when nothing is read back from the torn record and the copies, it shows the plain map before the write; in general it is right for exactly the keys for which what is read back is right, or that are not read back and that a crash without copies keeps |
| Interleaving.MisreadNothingIff | engine/wal/wal.go:101-157 | nothing is read back from a torn record and the copies behind it if and only if no record is accepted there; with the header whole, if and only if there are too few bytes or their checksum is another one |
| Replicas.ReplicasAgree | consensus/fsm.go:29-43 | two stores that applied the same writes answer every Get and the scan alike, under any flush and compaction schedules in which no merged file is removed, with either form of the removal on either side |
| Replicas.GetsAgree | consensus/fsm.go:29-43 | they answer every Get alike also after the code's removal of merged files, as long as each compaction had neighbours as its inputs |
| Replicas.ReplayedReplicaAgrees | consensus/fsm.go:29-43 | under such schedules, applying the whole log on top of any prefix of it ends where applying it once does |
| Replicas.CrashedReplicaHeals | consensus/fsm.go:29-43 | a replica that crashed any number of times while applying parts of a log, then given the whole log, shows exactly what the log means, if none of its lives reaches the fourth removal of the code's loop |
| Snapshots.Persist | consensus/fsm.go:101-130 | in any order of the keys, the stream is a snapshot of the state with one message for each key; it fails only when an entry cannot be marshalled |
| Formats.StreamLayout | consensus/fsm.go:110-116 | each message stands behind its length in four bytes, least significant first, where the one before it ends |
| Snapshots.StreamRoundTrip | consensus/fsm.go:66-90 | a stream of length-prefixed messages is read back as their entries, to its end |
| Fsm.EntryMeans | consensus/fsm.go:29-43 | what one more entry means, command by command: a PUT with a non-empty value sets the key, a DELETE and a PUT of an empty value remove it, anything else changes nothing; no entries mean the empty map |
| Fsm.CompactedLogMeansTheSame | consensus/fsm.go:29-130 | for every log and cut point, the snapshot after the cut, read back, followed by the rest of the log describes the same map as the whole log |
| Fsm.RestoredReplicaAgrees | consensus/fsm.go:46-92 | a replica restored from that snapshot and brought up to date shows what the log means, under any schedule of its own in which no merged file is removed |
| Fsm.StrataFSM.Apply | consensus/fsm.go:29-43 | a PUT sets the key in the active memtable to the command's value, a DELETE to nil, and nothing else; any other entry changes nothing and is reported; whatever the engine received before, its writes since are those of the log with one more entry |
| Fsm.StrataFSM.Snapshot | consensus/fsm.go:46-53 | the state taken is the full scan, and as long as no merged file has been removed it is what the log applied so far makes of what the engine held and received before |
| Fsm.StrataFSM.Restore | consensus/fsm.go:56-92 | for any stream: the engine is purged, stands at the beginning of a schedule on the empty map, and its memtable holds exactly the entries that can be read, the last value of each key; success exactly when the stream ends on a message boundary and every message decodes |
| Fsm.StrataFSM.CatchUp | consensus/fsm.go:29-92 | an engine, whatever it held, that restores a snapshot taken after any cut of a log and applies the entries behind the cut holds, and shows in a full scan, what the whole log means |

## Left out

- The Raft protocol, the gRPC server, the command line, metrics, and generated code: a committed list of log entries is the input.
- Murmur3, CRC-32 and protobuf: functions that are parameters. Of the messages only that unmarshalling undoes marshalling and that an empty bytes field decodes to nil.
- Failing file operations and `recoverFromFlushFailure` (engine/flush.go:103-120), which logs old entries after newer ones. In the model a file operation succeeds, and a read ends early only because of the bytes.
- Two flushes at once (Close beside the worker), and writes while Purge is at work.
- Engine.Open: a torn wal.log beside wal.log.flushing when the torn bytes and wal.log.flushing have 4 GiB or more. Table files are those a builder wrote (the code skips files that it cannot load).
- Interleaving.CrashInWrite: writes whose log record has 2^32 bytes or more, and the same bound on the torn bytes and wal.log.flushing.
- Tickers, channels, the 4 MB threshold and goroutines: the workers may take their sections at any time.
- Mutexes inside the skip list, the reader and the log, and the buffer pool: each call is one step.
- Wal.WAL.WriteEntry: records of 2^32 bytes or more; the properties of recovery require that the sum of the sizes of one record does not wrap around in uint32, while Recover itself is modelled with the wrap-around.
- Engine.StrataGo.Put: writes whose log record has 2^32 bytes or more.
- Engine.StrataGo.Delete: writes whose log record has 2^32 bytes or more.
- Interleaving.Put: writes whose log record has 2^32 bytes or more.
- Interleaving.Delete: writes whose log record has 2^32 bytes or more.
- Fsm.StrataFSM.Apply: writes whose log record has 2^32 bytes or more.
- Fsm.StrataFSM.CatchUp: the same as for Apply and Restore; flushes and compactions between the entries are those of Fsm.RestoredReplicaAgrees.
- Fsm.StrataFSM.Restore: entries whose log record has 2^32 bytes or more, and memtables of more than 429 million keys.
- Tables.Builder.BuildFilter: more than 429 million keys, the bound of the filter's size below.
- Tables.Builder.Flush: memtables of more than 429 million keys, the bound of the filter's size below.
- Engine.StrataGo.Build: memtables of more than 429 million keys, the bound of the filter's size below.
- Engine.StrataGo.Flush: memtables of more than 429 million keys, the bound of the filter's size below.
- Engine.StrataGo.Close: memtables of more than 429 million keys, the bound of the filter's size below.
- Engine.StrataGo.Purge: memtables of more than 429 million keys, the bound of the filter's size below.
- Interleaving.Build: memtables of more than 429 million keys, the bound of the filter's size below.
- Merging.Merge: inputs with more than 429 million records in all.
- Compaction.MergeFiles: inputs with more than 429 million records in all.
- Engine.StrataGo.MergeSelected: inputs with more than 429 million records in all.
- Engine.StrataGo.RunCompaction: inputs with more than 429 million records in all.
- Interleaving.Merge: inputs with more than 429 million records in all.
- Tables.Builder.Finish: filters of 2^32 bits or more (more than 429 million keys), whose bit count wraps around in uint32.
- TableLookup.LookupExact: for a key above the one behind the data block, the result is that of the scan behind that record, because it depends on the filter's and the index's bytes.
- UnboundedScan.ScanFindsPhantom: an instance for a hash that maps all keys alike, because none was worked out for the hash of the code.
- Bloom.NoFalseNegatives: filters whose bit count is a multiple of 2^32, on which the code divides by zero.
- Engine.StrataGo.Get: keys that are not safe to look up in the sense of TableLookup.Safe; their answer is the exact result of the scan past the data block, not that of the table's map.
- Interleaving.Get: the same keys; and the code's removal after its fourth file, when the inputs of some compaction were not neighbours, which StaleRead shows to go wrong.
- Replicas.ReplicasAgree: the scan after a merged file has been removed; Removal.LiteralScanIff says for which keys it is right.
- Snapshots.Persist: messages of 2^32 bytes or more, whose length prefix wraps around.
- Clocks: flush timestamps are any increasing numbers.
- The position of a file handle after a failed read, and temporary files, which no reader of the directory looks at.
- `engine/inspect.go`, the probability of false positives and the expected cost of the skip list.
