/** The byte format of a table file, and what reading it back means: data block, filter
    block, sparse index and a 16-byte footer. */
module SsTable {
  import opened ByteStrings
  import opened Entries
  import opened Bloom

  const INDEX_INTERVAL: nat := 1024
  const FOOTER: nat := 16

  datatype IndexEntry = IndexEntry(key: Bytes, offset: int)

  // ---------- printing ----------

  function Size(e: Entry<Bytes>): nat {
    8 + |e.key| + |e.val|
  }

  /** The size of the record does not wrap around when it is added up in a uint32. */
  predicate Fits(e: Entry<Bytes>) {
    Size(e) < TWO32
  }

  function RecordBytes(e: Entry<Bytes>): (bs: Bytes)
    ensures |bs| == Size(e)
  {
    U32Bytes(|e.key|) + U32Bytes(|e.val|) + e.key + e.val
  }

  function DataSize(es: seq<Entry<Bytes>>): nat {
    if es == [] then 0 else DataSize(es[..|es| - 1]) + Size(es[|es| - 1])
  }

  function DataBytes(es: seq<Entry<Bytes>>): (bs: Bytes)
    ensures |bs| == DataSize(es)
  {
    if es == [] then [] else DataBytes(es[..|es| - 1]) + RecordBytes(es[|es| - 1])
  }

  /** Whether the next record gets an index entry, given where the data stands. */
  predicate StartsInterval(bytesWritten: nat, lastIndexPos: int) {
    bytesWritten == 0 || bytesWritten - lastIndexPos >= INDEX_INTERVAL
  }

  function LastIndexPos(es: seq<Entry<Bytes>>): (p: nat)
    ensures p <= DataSize(es)
  {
    if es == [] then 0
    else
      var pre := es[..|es| - 1];
      if StartsInterval(DataSize(pre), LastIndexPos(pre)) then DataSize(pre) else LastIndexPos(pre)
  }

  function Index(es: seq<Entry<Bytes>>): seq<IndexEntry> {
    if es == [] then []
    else
      var pre := es[..|es| - 1];
      if StartsInterval(DataSize(pre), LastIndexPos(pre)) then Index(pre) + [IndexEntry(es[|es| - 1].key, DataSize(pre))]
      else Index(pre)
  }

  function Hashes(hash: Bytes -> u32, es: seq<Entry<Bytes>>): (hs: seq<u32>)
    ensures |hs| == |es|
  {
    seq<u32>(|es|, i requires 0 <= i < |es| => hash(es[i].key))
  }

  function Filter(hash: Bytes -> u32, es: seq<Entry<Bytes>>): (bits: Bytes)
    requires KeysFit(|es|)
    ensures |bits| == FilterSize(|es|)
  {
    FilterSizeFits(|es|);
    WithHashes(Zeros(FilterSize(|es|)), Hashes(hash, es))
  }

  function FilterBlock(bits: Bytes): (bs: Bytes)
    ensures |bs| == 4 + |bits|
  {
    U32Bytes(|bits|) + bits
  }

  function IndexEntryBytes(e: IndexEntry): (bs: Bytes)
    requires e.offset >= 0
  {
    U32Bytes(|e.key|) + e.key + U64Bytes(e.offset)
  }

  ghost predicate OffsetsNatural(index: seq<IndexEntry>) {
    forall i :: 0 <= i < |index| ==> index[i].offset >= 0
  }

  function IndexEntriesBytes(index: seq<IndexEntry>): Bytes
    requires OffsetsNatural(index)
  {
    if index == [] then [] else IndexEntriesBytes(index[..|index| - 1]) + IndexEntryBytes(index[|index| - 1])
  }

  function IndexBlock(index: seq<IndexEntry>): Bytes
    requires OffsetsNatural(index)
  {
    U32Bytes(|index|) + IndexEntriesBytes(index)
  }

  lemma {:induction false} IndexOffsets(es: seq<Entry<Bytes>>)
    ensures OffsetsNatural(Index(es))
    ensures |Index(es)| <= |es|
  {
    if es != [] {
      IndexOffsets(es[..|es| - 1]);
    }
  }

  function Footer(indexOffset: nat, filterOffset: nat): (bs: Bytes)
    ensures |bs| == FOOTER
  {
    U64Bytes(indexOffset) + U64Bytes(filterOffset)
  }

  /** Everything Add and Finish write for these entries. */
  function FileBytes(hash: Bytes -> u32, es: seq<Entry<Bytes>>): Bytes
    requires KeysFit(|es|)
  {
    IndexOffsets(es);
    var bits := Filter(hash, es);
    DataBytes(es) + FilterBlock(bits) + IndexBlock(Index(es)) + Footer(DataSize(es) + 4 + |bits|, DataSize(es))
  }

  /** The number of entries and the size of each stay within 32 bits. */
  ghost predicate FitsTable(es: seq<Entry<Bytes>>) {
    KeysFit(|es|) && forall i :: 0 <= i < |es| ==> Fits(es[i])
  }

  lemma {:induction false} DataSizeBound(es: seq<Entry<Bytes>>)
    requires forall i :: 0 <= i < |es| ==> Fits(es[i])
    ensures DataSize(es) <= |es| * TWO32
  {
    if es != [] {
      DataSizeBound(es[..|es| - 1]);
    }
  }

  // ---------- reading records in sequence ----------

  /** Why a scan stopped: at its limit, or on a read error; start says whether it was the
      first read of a record that failed, and eof whether the error was io.EOF. */
  datatype Stop = AtLimit | Broken(start: bool, eof: bool)

  datatype Next = Record(entry: Entry<Bytes>) | Failed(stop: Stop)

  function NextRecord(data: Bytes, pos: nat): (r: Next)
    ensures r.Record? ==> pos + Size(r.entry) <= |data|
    ensures r.Failed? ==> r.stop.Broken?
  {
    match ReadU32(data, pos)
    case Eof => Failed(Broken(true, true))
    case UnexpectedEof => Failed(Broken(true, false))
    case Got(keySize) =>
      (match ReadU32(data, pos + 4)
       case Eof => Failed(Broken(false, true))
       case UnexpectedEof => Failed(Broken(false, false))
       case Got(valSize) =>
         (match ReadFull(data, pos + 8, keySize)
          case Eof => Failed(Broken(false, true))
          case UnexpectedEof => Failed(Broken(false, false))
          case Got(key) =>
            (match ReadFull(data, pos + 8 + keySize, valSize)
             case Eof => Failed(Broken(false, true))
             case UnexpectedEof => Failed(Broken(false, false))
             case Got(val) => Record(Entry(key, val)))))
  }

  /** The entries a scan reads from file position pos. Its own counter adds up sizes in
      uint32, and is what is compared with the limit. */
  function Scan(data: Bytes, pos: nat, counter: int, limit: int): seq<Entry<Bytes>>
    decreases |data| - pos
  {
    if counter >= limit then []
    else
      match NextRecord(data, pos)
      case Failed(_) => []
      case Record(e) => [e] + Scan(data, pos + Size(e), counter + Size(e) % TWO32, limit)
  }

  function ScanStop(data: Bytes, pos: nat, counter: int, limit: int): Stop
    decreases |data| - pos
  {
    if counter >= limit then AtLimit
    else
      match NextRecord(data, pos)
      case Failed(stop) => stop
      case Record(e) => ScanStop(data, pos + Size(e), counter + Size(e) % TWO32, limit)
  }

  /** The limit an iterator and ReadAll take from the footer. */
  function Limit(data: Bytes): int {
    if |data| > FOOTER then ToInt64(U64At(data[|data| - 8..])) else |data|
  }

  /** The entries of a table file, as an iterator over it yields them. */
  function TableEntries(data: Bytes): seq<Entry<Bytes>> {
    Scan(data, 0, 0, Limit(data))
  }

  function TableStop(data: Bytes): Stop {
    ScanStop(data, 0, 0, Limit(data))
  }

  // ---------- loading the index and the filter ----------

  datatype Loaded = Loaded(index: seq<IndexEntry>, filter: Option<Bytes>) | LoadError

  function ReadIndexEntry(data: Bytes, pos: nat): Option<(IndexEntry, nat)> {
    match ReadU32(data, pos)
    case Got(keyLen) =>
      (match ReadFull(data, pos + 4, keyLen)
       case Got(key) =>
         (match ReadU64(data, pos + 4 + keyLen)
          case Got(offset) => Some((IndexEntry(key, ToInt64(offset)), pos + 12 + keyLen))
          case _ => None)
       case _ => None)
    case _ => None
  }

  function ReadIndex(data: Bytes, pos: nat, n: nat): Option<seq<IndexEntry>>
    decreases n
  {
    if n == 0 then Some([])
    else
      match ReadIndexEntry(data, pos)
      case None => None
      case Some((e, next)) =>
        match ReadIndex(data, next, n - 1)
        case None => None
        case Some(rest) => Some([e] + rest)
  }

  /** loadIndex, for any bytes. A negative offset makes the seek fail. */
  function Load(data: Bytes): Loaded {
    if |data| < FOOTER then Loaded([], None)
    else
      var n := |data|;
      var indexOffset, filterOffset := ToInt64(U64At(data[n - 16..n - 8])), ToInt64(U64At(data[n - 8..]));
      if filterOffset < 0 then LoadError
      else
        match ReadU32(data, filterOffset)
        case Got(filterLen) =>
          (match ReadFull(data, filterOffset + 4, filterLen)
           case Got(filter) =>
             if indexOffset < 0 then LoadError
             else
               (match ReadU32(data, indexOffset)
                case Got(numEntries) =>
                  (match ReadIndex(data, indexOffset + 4, numEntries)
                   case Some(index) => Loaded(index, Some(filter))
                   case None => LoadError)
                case _ => LoadError)
           case _ => LoadError)
        case _ => LoadError
  }
}
