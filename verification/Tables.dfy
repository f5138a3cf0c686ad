/** The objects that write and read table files: builder, reader and iterator. */
module Tables {
  import opened ByteStrings
  import opened Entries
  import opened Bloom
  import opened SsTable
  import opened SsTableRoundTrip
  import opened TableLookup
  import opened Disk
  import SkipLists

  class Builder {
    const hash: Bytes -> u32
    const dir: DataDir
    const timestamp: int
    const file: File  // the temporary file
    var index: seq<IndexEntry>
    var bytesWritten: nat
    var lastIndexPos: nat
    var hashes: seq<u32>
    ghost var entries: seq<Entry<Bytes>>

    ghost predicate Valid()
      reads this, file
    {
      && file.data == DataBytes(entries)
      && index == Index(entries)
      && bytesWritten == DataSize(entries)
      && lastIndexPos == LastIndexPos(entries)
      && hashes == Hashes(hash, entries)
    }

    constructor (hash: Bytes -> u32, dir: DataDir, timestamp: int)
      ensures Valid() && entries == [] && fresh(file)
      ensures this.hash == hash && this.dir == dir && this.timestamp == timestamp
    {
      this.hash, this.dir, this.timestamp := hash, dir, timestamp;
      file := new File([]);
      index, bytesWritten, lastIndexPos, hashes, entries := [], 0, 0, [], [];
    }

    method Add(key: Bytes, val: Bytes)
      requires Valid()
      modifies this, file
      ensures Valid() && entries == old(entries) + [Entry(key, val)]
    {
      hide DataBytes, DataSize, Index, LastIndexPos, Hashes;
      AddedEntry(hash, entries, Entry(key, val));
      hashes := hashes + [hash(key)];
      var startOffset := bytesWritten;
      if startOffset == 0 || startOffset - lastIndexPos >= INDEX_INTERVAL {
        index := index + [IndexEntry(key, startOffset)];
        lastIndexPos := startOffset;
      }
      file.data := file.data + (U32Bytes(|key|) + U32Bytes(|val|) + key + val);
      bytesWritten := bytesWritten + 8 + |key| + |val|;
      entries := entries + [Entry(key, val)];
    }

    method WriteIndex()
      requires OffsetsNatural(index)
      modifies file
      ensures file.data == old(file.data) + IndexBlock(index)
    {
      hide IndexEntriesBytes, U32Bytes, U64Bytes;
      ghost var start := file.data;
      file.data := file.data + U32Bytes(|index|);
      NoIndexEntries();
      for i := 0 to |index|
        invariant file.data == start + U32Bytes(|index|) + IndexEntriesBytes(index[..i])
      {
        OneMoreIndexEntry(index, i);
        var entry := index[i];
        file.data := file.data + (U32Bytes(|entry.key|) + entry.key + U64Bytes(entry.offset));
      }
      assert index[..|index|] == index;
    }

    /** The filter of all hashes collected. */
    method BuildFilter() returns (filterData: Bytes)
      requires KeysFit(|hashes|)
      ensures BitLength(Zeros(FilterSize(|hashes|))) != 0
      ensures filterData == WithHashes(Zeros(FilterSize(|hashes|)), hashes)
    {
      hide WithHashes, WithHash;
      FilterSizeFits(|hashes|);
      var bf := new BloomFilter.New(|hashes|);
      ghost var zeros := bf.bitset[..];
      OneMoreHash(zeros, hashes, 0);
      for i := 0 to |hashes|
        invariant bf.bitset.Length == |zeros| && bf.bitset[..] == WithHashes(zeros, hashes[..i])
      {
        OneMoreHash(zeros, hashes, i);
        bf.AddHash(hashes[i]);
      }
      assert hashes[..|hashes|] == hashes;
      filterData := bf.bitset[..];
    }

    /** Writes the filter, the index and the footer, and renames the file into place. */
    method Finish()
      requires Valid() && KeysFit(|entries|)
      modifies this`bytesWritten, file, dir`tables
      ensures dir.tables == old(dir.tables)[timestamp := FileBytes(hash, entries)]
    {
      hide DataBytes, DataSize, Index, LastIndexPos, IndexBlock, Hashes, WithHashes, FilterSize, U32Bytes, U64Bytes;
      IndexOffsets(entries);
      var filterOffset := bytesWritten;
      var filterData := BuildFilter();
      file.data := file.data + U32Bytes(|filterData|) + filterData;
      bytesWritten := bytesWritten + 4 + |filterData|;
      var indexOffset := bytesWritten;
      WriteIndex();
      file.data := file.data + U64Bytes(indexOffset) + U64Bytes(filterOffset);
      Assembled(DataBytes(entries), U32Bytes(|filterData|), filterData, IndexBlock(index), U64Bytes(indexOffset), U64Bytes(filterOffset));
      dir.tables := dir.tables[timestamp := file.data];
    }

    /** Writes a whole memtable. */
    method Flush(list: SkipLists.SkipList)
      requires Valid() && entries == [] && list.Valid() && KeysFit(|list.Entries()|)
      requires this as object !in list.Repr && file as object !in list.Repr
      modifies this, file, dir`tables
      ensures dir.tables == old(dir.tables)[timestamp := FileBytes(hash, PayloadRun(list.Entries()))]
      ensures InByteOrder(list.Entries())
    {
      hide SkipLists.SkipList.Valid, SkipLists.EntriesOf, SkipLists.Iterator.Valid, Builder.Valid, PayloadRun, FileBytes, InByteOrder,
        SkipLists.Above;
      ghost var es := list.Entries();
      list.InOrder();
      ghost var run := PayloadRun(es);
      ghost var n := 0;
      var iter := new SkipLists.Iterator(list);
      var more := iter.Next();
      while more
        invariant Valid() && list.Valid() && list.Entries() == es
        invariant fresh(iter) && iter.Valid() && iter.list == list
        invariant dir.tables == old(dir.tables)
        invariant n <= |es| && iter.pos == if more then n + 1 else n
        invariant if more then n < |es| && es[n] == Entry(iter.current.key, iter.current.value) else n == |es|
        invariant entries == run[..n]
        decreases |es| - n, more
      {
        Add(iter.current.key, Payload(iter.current.value));
        OneMore(run, n);
        n := n + 1;
        more := iter.Next();
      }
      OneMore(run, n);
      Finish();
    }
  }

  lemma OneMore<T>(s: seq<T>, n: nat)
    ensures s[..|s|] == s
    ensures n < |s| ==> s[..n + 1] == s[..n] + [s[n]]
  {
  }

  lemma AddedEntry(hash: Bytes -> u32, es: seq<Entry<Bytes>>, e: Entry<Bytes>)
    ensures DataBytes(es + [e]) == DataBytes(es) + RecordBytes(e)
    ensures DataSize(es + [e]) == DataSize(es) + Size(e)
    ensures Hashes(hash, es + [e]) == Hashes(hash, es) + [hash(e.key)]
    ensures Index(es + [e]) ==
      if StartsInterval(DataSize(es), LastIndexPos(es)) then Index(es) + [IndexEntry(e.key, DataSize(es))] else Index(es)
    ensures LastIndexPos(es + [e]) ==
      if StartsInterval(DataSize(es), LastIndexPos(es)) then DataSize(es) else LastIndexPos(es)
  {
    assert (es + [e])[..|es|] == es;
  }

  lemma OneMoreHash(bits: Bytes, hs: seq<u32>, i: nat)
    requires BitLength(bits) != 0
    ensures WithHashes(bits, hs[..0]) == bits
    ensures i < |hs| ==> WithHashes(bits, hs[..i + 1]) == WithHash(WithHashes(bits, hs[..i]), hs[i])
  {
    if i < |hs| {
      assert hs[..i + 1][..i] == hs[..i];
    }
  }

  lemma OneMoreIndexEntry(index: seq<IndexEntry>, i: nat)
    requires OffsetsNatural(index) && i < |index|
    ensures IndexEntriesBytes(index[..i + 1]) == IndexEntriesBytes(index[..i]) + IndexEntryBytes(index[i])
  {
    assert index[..i + 1][..i] == index[..i];
  }

  lemma Assembled(a: Bytes, b: Bytes, c: Bytes, d: Bytes, e: Bytes, f: Bytes)
    ensures a + b + c + d + e + f == a + (b + c) + d + (e + f)
  {
  }

  // ---------- reading ----------

  /** The key comes before the index entries from n on, and before no other. */
  ghost predicate FirstAbove(index: seq<IndexEntry>, key: Bytes, n: nat) {
    forall j :: 0 <= j < |index| ==> (j >= n <==> Precedes(key, index[j].key))
  }

  lemma FirstAboveIs(index: seq<IndexEntry>, key: Bytes, n: nat)
    requires n <= |index|
    requires forall j :: 0 <= j < n ==> !Lt(key, index[j].key)
    requires forall j :: n <= j < |index| ==> Lt(key, index[j].key)
    ensures FirstAbove(index, key, n)
  {
    hide Lt, Precedes;
    forall j | 0 <= j < |index| ensures j >= n <==> Precedes(key, index[j].key) {
      LtIsByteOrder(key, index[j].key);
    }
  }

  lemma IndexOffsetIs(index: seq<IndexEntry>, key: Bytes, left: nat)
    requires left <= |index|
    requires forall j :: 0 <= j < left ==> !Lt(key, index[j].key)
    requires forall j :: left <= j < |index| ==> Lt(key, index[j].key)
    ensures IndexOffset(index, key) == if left == 0 then 0 else index[left - 1].offset
    decreases |index|
  {
    if left < |index| {
      IndexOffsetIs(index[..|index| - 1], key, left);
    }
  }

  class Reader {
    const hash: Bytes -> u32
    const timestamp: int  // the file name, data_<timestamp>.sst
    const data: Bytes     // the contents of the open file
    var pos: int          // the position of the file handle
    var index: seq<IndexEntry>
    var filter: BloomFilter?

    ghost function FilterBytes(): Option<Bytes>
      reads `filter, if filter == null then {} else {filter.bitset}
    {
      if filter == null then None else Some(filter.bitset[..])
    }

    ghost predicate Valid()
      reads `index, `filter, if filter == null then {} else {filter.bitset}
    {
      Load(data) == Loaded(index, FilterBytes())
    }

    constructor (hash: Bytes -> u32, timestamp: int, data: Bytes)
      ensures this.hash == hash && this.timestamp == timestamp && this.data == data
      ensures index == [] && filter == null
    {
      this.hash, this.timestamp, this.data := hash, timestamp, data;
      pos, index, filter := 0, [], null;
    }

    method LoadIndex() returns (ok: bool)
      requires index == [] && filter == null
      modifies this
      ensures ok <==> Load(data).Loaded?
      ensures ok ==> Valid()
      ensures filter != null ==> fresh(filter) && fresh(filter.bitset)
    {
      var fileSize := |data|;
      if fileSize < FOOTER {
        return true;
      }
      var indexOffset := ToInt64(U64At(data[fileSize - 16..fileSize - 8]));
      var filterOffset := ToInt64(U64At(data[fileSize - 8..]));
      if filterOffset < 0 {
        return false;
      }
      var filterLen := ReadU32(data, filterOffset);
      if !filterLen.Got? {
        return false;
      }
      var filterData := ReadFull(data, filterOffset + 4, filterLen.value);
      if !filterData.Got? {
        return false;
      }
      filter := new BloomFilter.Load(filterData.value);
      if indexOffset < 0 {
        return false;
      }
      var numEntries := ReadU32(data, indexOffset);
      if !numEntries.Got? {
        return false;
      }
      ok := LoadEntries(indexOffset + 4, numEntries.value);
    }

    /** The loop over the index entries. */
    method LoadEntries(start: nat, numEntries: nat) returns (ok: bool)
      requires index == []
      modifies this`pos, this`index
      ensures ok <==> ReadIndex(data, start, numEntries).Some?
      ensures ok ==> index == ReadIndex(data, start, numEntries).value
    {
      hide ReadIndexEntry;
      pos := start;
      for i := 0 to numEntries
        invariant pos >= 0
        invariant ReadIndex(data, start, numEntries).Some? <==> ReadIndex(data, pos, numEntries - i).Some?
        invariant ReadIndex(data, start, numEntries).Some? ==>
          ReadIndex(data, start, numEntries).value == index + ReadIndex(data, pos, numEntries - i).value
      {
        var entry := ReadEntry();
        if entry == None {
          return false;
        }
        index := index + [entry.value];
      }
      return true;
    }

    method ReadEntry() returns (entry: Option<IndexEntry>)
      requires pos >= 0
      modifies this`pos
      ensures pos >= 0
      ensures match ReadIndexEntry(data, old(pos))
        case None => entry == None
        case Some((e, next)) => entry == Some(e) && pos == next
    {
      var keyLen := ReadU32(data, pos);
      if !keyLen.Got? {
        return None;
      }
      var key := ReadFull(data, pos + 4, keyLen.value);
      if !key.Got? {
        return None;
      }
      var offset := ReadU64(data, pos + 4 + keyLen.value);
      if !offset.Got? {
        return None;
      }
      pos := pos + 12 + keyLen.value;
      return Some(IndexEntry(key.value, ToInt64(offset.value)));
    }

    method FindIndexEntry(searchKey: Bytes) returns (result: int)
      ensures SortedIndex(index) ==> result == IndexOffset(index, searchKey)
      ensures result == 0 || exists i :: 0 <= i < |index| && result == index[i].offset
      ensures SortedIndex(index) ==> exists n: nat ::
        n <= |index| && FirstAbove(index, searchKey, n) && result == if n == 0 then 0 else index[n - 1].offset
    {
      hide FirstAbove;
      if |index| == 0 {
        FirstAboveIs(index, searchKey, 0);
        return 0;
      }
      var left, right := 0, |index| - 1;
      result := 0;
      while left <= right
        invariant 0 <= left <= right + 1 <= |index|
        invariant result == if left == 0 then 0 else index[left - 1].offset
        invariant SortedIndex(index) ==> forall j :: 0 <= j < left ==> !Lt(searchKey, index[j].key)
        invariant SortedIndex(index) ==> forall j :: right < j < |index| ==> Lt(searchKey, index[j].key)
      {
        var mid := (left + right) / 2;
        var cmp := Compare(index[mid].key, searchKey);
        NotAbove(index, mid, searchKey);
        if cmp <= 0 {
          result := index[mid].offset;
          left := mid + 1;
        } else {
          right := mid - 1;
        }
      }
      if SortedIndex(index) {
        IndexOffsetIs(index, searchKey, left);
        FirstAboveIs(index, searchKey, left);
      }
    }

    /** For any file whose index is sorted, the result of the lookup. */
    method Get(searchKey: Bytes) returns (val: Bytes, found: bool)
      requires Valid() && UsableFilter(FilterBytes())
      modifies this`pos
      ensures SortedIndex(index) ==>
        Lookup(hash, index, FilterBytes(), data, searchKey) == if found then Some(val) else None
    {
      if filter != null {
        var may := filter.MayContain(hash(searchKey));
        if !may {
          return [], false;
        }
      }
      var startOffset := FindIndexEntry(searchKey);
      if startOffset < 0 {
        return [], false;
      }
      val, found := ScanFrom(startOffset, searchKey);
    }

    /** The loop of Get. */
    method ScanFrom(start: nat, searchKey: Bytes) returns (val: Bytes, found: bool)
      modifies this`pos
      ensures ScanFor(data, start, searchKey) == if found then Some(val) else None
    {
      pos := start;
      while true
        invariant pos >= 0 && ScanFor(data, start, searchKey) == ScanFor(data, pos, searchKey)
        decreases |data| - pos
      {
        var keySize := ReadU32(data, pos);
        if !keySize.Got? {
          return [], false;
        }
        var valSize := ReadU32(data, pos + 4);
        if !valSize.Got? {
          return [], false;
        }
        var key := ReadFull(data, pos + 8, keySize.value);
        if !key.Got? {
          return [], false;
        }
        var cmp := Compare(key.value, searchKey);
        CompareZero(key.value, searchKey);
        CompareFlips(key.value, searchKey);
        if cmp == 0 {
          var value := ReadFull(data, pos + 8 + keySize.value, valSize.value);
          if !value.Got? {
            return [], false;
          }
          return value.value, true;
        } else if cmp > 0 {
          return [], false;
        }
        pos := pos + 8 + keySize.value + valSize.value;
      }
    }

    /** All entries of the file as a map, and whether the file could be read. */
    method ReadAll() returns (entries: map<Bytes, Bytes>, ok: bool)
      modifies this`pos
      ensures ok <==> TableStop(data).AtLimit? || (TableStop(data).start && TableStop(data).eof)
      ensures ok ==> entries == ToMap(TableEntries(data))
    {
      hide Scan, ScanStop, NextRecord, ToMap;
      var limit := |data|;
      if |data| > FOOTER {
        limit := ToInt64(U64At(data[|data| - 8..]));
      }
      pos, entries := 0, map[];
      var currentPos := 0;
      ghost var done: seq<Entry<Bytes>> := [];
      ScanStep(data, pos, currentPos, limit, done);
      while currentPos < limit
        invariant pos >= 0 && limit == Limit(data)
        invariant TableEntries(data) == done + Scan(data, pos, currentPos, limit)
        invariant TableStop(data) == ScanStop(data, pos, currentPos, limit)
        invariant entries == ToMap(done)
        decreases |data| - pos
      {
        var next := ReadRecord(data, pos);
        ScanStep(data, pos, currentPos, limit, done);
        if next.Failed? {
          return entries, next.stop.start && next.stop.eof;
        }
        var Entry(key, val) := next.entry;
        entries := entries[key := val];
        currentPos := currentPos + (8 + |key| + |val|) % TWO32;
        pos := pos + 8 + |key| + |val|;
        done := done + [next.entry];
      }
      ScanStep(data, pos, currentPos, limit, done);
      return entries, true;
    }

    /** A second handle on the file of this name, if the file is still there. */
    method NewIterator(dir: DataDir) returns (iter: TableIterator?)
      ensures iter != null <==> timestamp in dir.tables
      ensures iter != null ==> fresh(iter) && iter.err == None
      ensures iter != null ==> iter.Rest() == TableEntries(dir.tables[timestamp])
      ensures iter != null ==> iter.Stop() == TableStop(dir.tables[timestamp])
    {
      if timestamp !in dir.tables {
        return null;
      }
      iter := new TableIterator(dir.tables[timestamp]);
    }
  }

  lemma NotAbove(index: seq<IndexEntry>, mid: nat, key: Bytes)
    requires mid < |index|
    ensures Compare(index[mid].key, key) <= 0 <==> !Lt(key, index[mid].key)
    ensures SortedIndex(index) && Compare(index[mid].key, key) <= 0 ==>
      forall j :: 0 <= j <= mid ==> !Lt(key, index[j].key)
    ensures SortedIndex(index) && Compare(index[mid].key, key) > 0 ==>
      forall j :: mid <= j < |index| ==> Lt(key, index[j].key)
  {
    CompareFlips(index[mid].key, key);
    if SortedIndex(index) {
      if Compare(index[mid].key, key) <= 0 {
        forall j | 0 <= j <= mid ensures !Lt(key, index[j].key) {
          if j < mid && Lt(key, index[j].key) {
            LtTransitive(key, index[j].key, index[mid].key);
          }
        }
      } else {
        forall j | mid <= j < |index| ensures Lt(key, index[j].key) {
          if mid < j {
            LtTransitive(key, index[mid].key, index[j].key);
          }
        }
      }
    }
  }

  /** One round of a scan. */
  lemma ScanStep(data: Bytes, pos: nat, counter: int, limit: int, done: seq<Entry<Bytes>>)
    ensures ToMap<Bytes>([]) == map[] && [] + Scan(data, pos, counter, limit) == Scan(data, pos, counter, limit)
    ensures counter >= limit ==> done + Scan(data, pos, counter, limit) == done && ScanStop(data, pos, counter, limit) == AtLimit
    ensures counter < limit ==> match NextRecord(data, pos)
      case Failed(stop) =>
        done + Scan(data, pos, counter, limit) == done && ScanStop(data, pos, counter, limit) == stop
      case Record(e) =>
        && done + Scan(data, pos, counter, limit) == (done + [e]) + Scan(data, pos + Size(e), counter + Size(e) % TWO32, limit)
        && ScanStop(data, pos, counter, limit) == ScanStop(data, pos + Size(e), counter + Size(e) % TWO32, limit)
        && ToMap(done + [e]) == ToMap(done)[e.key := e.val]
  {
    hide NextRecord;
    var next := NextRecord(data, pos);
    if counter < limit && next.Record? {
      var rest := Scan(data, pos + Size(next.entry), counter + Size(next.entry) % TWO32, limit);
      assert done + ([next.entry] + rest) == (done + [next.entry]) + rest;
      assert (done + [next.entry])[..|done|] == done;
    } else {
      assert done + [] == done;
    }
  }

  /** The four reads of one record. */
  method ReadRecord(data: Bytes, pos: nat) returns (next: Next)
    ensures next == NextRecord(data, pos)
  {
    var keySize := ReadU32(data, pos);
    if !keySize.Got? {
      return Failed(Broken(true, keySize.Eof?));
    }
    var valSize := ReadU32(data, pos + 4);
    if !valSize.Got? {
      return Failed(Broken(false, valSize.Eof?));
    }
    var key := ReadFull(data, pos + 8, keySize.value);
    if !key.Got? {
      return Failed(Broken(false, key.Eof?));
    }
    var val := ReadFull(data, pos + 8 + keySize.value, valSize.value);
    if !val.Got? {
      return Failed(Broken(false, val.Eof?));
    }
    return Record(Entry(key.value, val.value));
  }

  class TableIterator {
    const data: Bytes
    const limit: int
    var filePos: nat
    var currentPos: int
    var key: Bytes
    var val: Bytes
    var err: Option<Stop>

    /** The entries still to come, and why the scan will stop. */
    ghost function Rest(): seq<Entry<Bytes>>
      reads this
    {
      Scan(data, filePos, currentPos, limit)
    }

    ghost function Stop(): Stop
      reads this
    {
      ScanStop(data, filePos, currentPos, limit)
    }

    constructor (data: Bytes)
      ensures err == None && Rest() == TableEntries(data) && Stop() == TableStop(data)
    {
      this.data := data;
      if |data| > FOOTER {
        limit := ToInt64(U64At(data[|data| - 8..]));
      } else {
        limit := |data|;
      }
      filePos, currentPos, key, val, err := 0, 0, [], [], None;
    }

    method Next() returns (more: bool)
      modifies this
      ensures more == (old(Rest()) != [])
      ensures more ==> Entry(key, val) == old(Rest())[0] && Rest() == old(Rest())[1..] && Stop() == old(Stop())
      ensures err == if more || old(Stop()).AtLimit? then old(err) else Some(old(Stop()))
    {
      if currentPos >= limit {
        return false;
      }
      var next := ReadRecord(data, filePos);
      if next.Failed? {
        err := Some(next.stop);
        return false;
      }
      key, val := next.entry.key, next.entry.val;
      filePos := filePos + 8 + |key| + |val|;
      currentPos := currentPos + (8 + |key| + |val|) % TWO32;
      return true;
    }

    /** io.EOF does not count as an error. */
    method Error() returns (failed: bool)
      ensures failed <==> err.Some? && !(err.value.Broken? && err.value.eof)
    {
      failed := err.Some? && !(err.value.Broken? && err.value.eof);
    }
  }
}
