/** The write-ahead log: framed records with a checksum, appended one at a time, and a
    recovery that keeps the longest run of whole records. */
module Wal {
  import opened ByteStrings
  import opened Disk
  import opened Entries

  datatype Record = Record(seqNum: nat, key: Bytes, val: Bytes)

  const HEADER: nat := 20

  function Size(r: Record): nat {
    HEADER + |r.key| + |r.val|
  }

  /** The size of the record does not wrap around when it is added up in a uint32. */
  predicate Fits(r: Record) {
    Size(r) < TWO32 && r.seqNum < TWO64
  }

  function Header(crc: Bytes -> u32, r: Record): (h: Bytes)
    ensures |h| == HEADER
  {
    U64Bytes(r.seqNum) + U32Bytes(|r.key|) + U32Bytes(|r.val|) + U32Bytes(crc(r.key + r.val))
  }

  /** What WriteEntry appends. */
  function RecordBytes(crc: Bytes -> u32, r: Record): (bs: Bytes)
    ensures |bs| == Size(r)
  {
    Header(crc, r) + r.key + r.val
  }

  function LogBytes(crc: Bytes -> u32, rs: seq<Record>): Bytes {
    if rs == [] then [] else RecordBytes(crc, rs[0]) + LogBytes(crc, rs[1..])
  }

  function EntriesOf(rs: seq<Record>): (es: seq<Entry<Bytes>>)
    ensures |es| == |rs|
  {
    seq(|rs|, i requires 0 <= i < |rs| => Entry(rs[i].key, rs[i].val))
  }

  // ---------- parsing ----------

  /** One round of the recovery loop at a position: the record there, if the header,
      the key and the value can be read in full and the checksum matches. */
  function ParseRecord(crc: Bytes -> u32, data: Bytes, pos: nat): (r: Option<Record>)
    ensures r.Some? ==> pos + Size(r.value) <= |data|
  {
    match ReadFull(data, pos, HEADER)
    case Got(h) =>
      var keySize, valSize: nat := U32At(h[8..12]), U32At(h[12..16]);
      (match ReadFull(data, pos + HEADER, keySize)
       case Got(key) =>
         (match ReadFull(data, pos + HEADER + keySize, valSize)
          case Got(val) =>
            if crc(key + val) == U32At(h[16..20]) then Some(Record(U64At(h[0..8]), key, val)) else None
          case _ => None)
       case _ => None)
    case _ => None
  }

  /** All records that recovery reads. */
  function Records(crc: Bytes -> u32, data: Bytes): seq<Record>
    decreases |data|
  {
    match ParseRecord(crc, data, 0)
    case Some(r) => [r] + Records(crc, data[Size(r)..])
    case None => []
  }

  /** The offset recovery truncates to: sizes are added in uint32, then widened. */
  function ValidOffset(rs: seq<Record>): nat {
    if rs == [] then 0 else Size(rs[0]) % TWO32 + ValidOffset(rs[1..])
  }

  /** The offset wraps around once for each record: it is short of the true one by a multiple of
      2^32, and each record adds less than 2^32 to it. */
  lemma {:induction false} OffsetWraps(rs: seq<Record>)
    ensures ValidOffset(rs) % TWO32 == TotalSize(rs) % TWO32 && (rs != [] ==> ValidOffset(rs) <= |rs| * (TWO32 - 1))
    ensures |rs| == 1 ==> ValidOffset(rs) == Size(rs[0]) % TWO32
  {
    if rs != [] {
      OffsetWraps(rs[1..]);
      SameRemainder(Size(rs[0]), ValidOffset(rs[1..]), TotalSize(rs[1..]));
    }
  }

  lemma SameRemainder(n: nat, a: nat, b: nat)
    requires a % TWO32 == b % TWO32
    ensures (n % TWO32 + a) % TWO32 == (n + b) % TWO32
  {
  }

  function TotalSize(rs: seq<Record>): nat {
    if rs == [] then 0 else Size(rs[0]) + TotalSize(rs[1..])
  }

  ghost predicate AllFit(rs: seq<Record>) {
    forall i :: 0 <= i < |rs| ==> Fits(rs[i])
  }

  lemma {:induction false} ValidOffsetIsTotalSize(rs: seq<Record>)
    requires AllFit(rs)
    ensures ValidOffset(rs) == TotalSize(rs)
  {
    if rs != [] {
      ValidOffsetIsTotalSize(rs[1..]);
    }
  }

  lemma {:induction false} RecordsWithinData(crc: Bytes -> u32, data: Bytes)
    ensures ValidOffset(Records(crc, data)) <= TotalSize(Records(crc, data)) <= |data|
    decreases |data|
  {
    var p := ParseRecord(crc, data, 0);
    if p.Some? {
      RecordsWithinData(crc, data[Size(p.value)..]);
    }
  }

  // ---------- parsing what was written ----------

  /** The parts of a header. */
  lemma HeaderParts(crc: Bytes -> u32, r: Record)
    requires Fits(r)
    ensures var h := Header(crc, r);
      && U64At(h[0..8]) == r.seqNum && U32At(h[8..12]) == |r.key|
      && U32At(h[12..16]) == |r.val| && U32At(h[16..20]) == crc(r.key + r.val)
  {
    hide U32Bytes, U64Bytes, U32At, U64At;
    var h := Header(crc, r);
    var a, b, c, d := U64Bytes(r.seqNum), U32Bytes(|r.key|), U32Bytes(|r.val|), U32Bytes(crc(r.key + r.val));
    assert h[0..8] == a && h[8..12] == b && h[12..16] == c && h[16..20] == d;
    U64RoundTrip(r.seqNum);
    U32RoundTrip(|r.key|);
    U32RoundTrip(|r.val|);
    U32RoundTrip(crc(r.key + r.val));
  }

  /** A whole record at the start of the data is read back, whatever follows it. */
  lemma ParseWritten(crc: Bytes -> u32, r: Record, rest: Bytes)
    requires Fits(r)
    ensures ParseRecord(crc, RecordBytes(crc, r) + rest, 0) == Some(r)
  {
    hide U32Bytes, U64Bytes, U32At, U64At, Header;
    var data, h := RecordBytes(crc, r) + rest, Header(crc, r);
    HeaderParts(crc, r);
    assert data[0..HEADER] == h;
    assert data[HEADER..HEADER + |r.key|] == r.key;
    assert data[HEADER + |r.key|..HEADER + |r.key| + |r.val|] == r.val;
  }

  /** A record cut short is not read at all. */
  lemma ParseTorn(crc: Bytes -> u32, r: Record, n: nat)
    requires Fits(r) && n < Size(r)
    ensures ParseRecord(crc, RecordBytes(crc, r)[..n], 0) == None
  {
    hide U32Bytes, U64Bytes, U32At, U64At, Header;
    var data, h := RecordBytes(crc, r)[..n], Header(crc, r);
    if n >= HEADER {
      HeaderParts(crc, r);
      assert data[0..HEADER] == h;
    }
  }

  /** Parsing looks only at the bytes of the record it returns. */
  lemma ParseIsLocal(crc: Bytes -> u32, data: Bytes, data': Bytes)
    requires ParseRecord(crc, data, 0).Some?
    requires var n := Size(ParseRecord(crc, data, 0).value); n <= |data'| && data'[..n] == data[..n]
    ensures ParseRecord(crc, data', 0) == ParseRecord(crc, data, 0)
  {
    hide U32At, U64At;
    var r := ParseRecord(crc, data, 0).value;
    var n, k := Size(r), HEADER + |r.key|;
    SameSlice(data, data', n, 0, HEADER);
    SameSlice(data, data', n, HEADER, k);
    SameSlice(data, data', n, k, n);
  }

  lemma SameSlice(a: Bytes, b: Bytes, n: nat, i: nat, j: nat)
    requires n <= |a| && n <= |b| && a[..n] == b[..n] && i <= j <= n
    ensures a[i..j] == b[i..j]
  {
    assert a[i..j] == a[..n][i..j];
    assert b[i..j] == b[..n][i..j];
  }

  /** How many records lie whole within the first n bytes of a log. */
  function WholeRecords(rs: seq<Record>, n: nat): (j: nat)
    ensures j <= |rs|
  {
    if rs == [] || n < Size(rs[0]) then 0 else 1 + WholeRecords(rs[1..], n - Size(rs[0]))
  }

  /** WholeRecords is the longest such prefix. */
  lemma {:induction false} WholeRecordsIsLongest(rs: seq<Record>, n: nat)
    ensures var j := WholeRecords(rs, n);
      TotalSize(rs[..j]) <= n && (j < |rs| ==> n < TotalSize(rs[..j + 1]))
  {
    var j := WholeRecords(rs, n);
    if j > 0 {
      WholeRecordsIsLongest(rs[1..], n - Size(rs[0]));
      assert rs[..j][1..] == rs[1..][..j - 1];
      assert j < |rs| ==> rs[..j + 1][1..] == rs[1..][..j];
    } else if rs != [] {
      assert rs[..1][1..] == [];
    }
  }

  lemma {:induction false} LogSize(crc: Bytes -> u32, rs: seq<Record>)
    ensures |LogBytes(crc, rs)| == TotalSize(rs)
  {
    if rs != [] {
      LogSize(crc, rs[1..]);
    }
  }

  /** Torn-tail recovery: cut a log anywhere, and exactly its whole records come back. */
  lemma {:induction false} TornLogRecords(crc: Bytes -> u32, rs: seq<Record>, n: nat)
    requires AllFit(rs) && n <= |LogBytes(crc, rs)|
    ensures Records(crc, LogBytes(crc, rs)[..n]) == rs[..WholeRecords(rs, n)]
  {
    hide ParseRecord, RecordBytes;
    if rs != [] {
      var first, rest := RecordBytes(crc, rs[0]), LogBytes(crc, rs[1..]);
      var data := LogBytes(crc, rs)[..n];
      if n < Size(rs[0]) {
        assert data == first[..n];
        ParseTorn(crc, rs[0], n);
      } else {
        var m := n - Size(rs[0]);
        assert data == first + rest[..m];
        ParseWritten(crc, rs[0], rest[..m]);
        assert data[Size(rs[0])..] == rest[..m];
        TornLogRecords(crc, rs[1..], m);
        assert rs[..WholeRecords(rs, n)] == [rs[0]] + rs[1..][..WholeRecords(rs[1..], m)];
      }
    }
  }

  lemma {:induction false} WholeLogCount(rs: seq<Record>)
    ensures WholeRecords(rs, TotalSize(rs)) == |rs|
  {
    if rs != [] {
      WholeLogCount(rs[1..]);
    }
  }

  /** An untorn log is read back in full. */
  lemma LogRoundTrip(crc: Bytes -> u32, rs: seq<Record>)
    requires AllFit(rs)
    ensures Records(crc, LogBytes(crc, rs)) == rs
  {
    LogSize(crc, rs);
    WholeLogCount(rs);
    TornLogRecords(crc, rs, TotalSize(rs));
    assert LogBytes(crc, rs)[..TotalSize(rs)] == LogBytes(crc, rs);
    assert rs[..|rs|] == rs;
  }

  /** Whatever the bytes, cutting them right after the records read leaves those records, and
      what is appended there is read after them. */
  lemma {:induction false} RecordsThenAppend(crc: Bytes -> u32, data: Bytes, more: Bytes)
    ensures var rs := Records(crc, data);
      TotalSize(rs) <= |data| && Records(crc, data[..TotalSize(rs)] + more) == rs + Records(crc, more)
    decreases |data|
  {
    hide ParseRecord;
    RecordsWithinData(crc, data);
    var p := ParseRecord(crc, data, 0);
    var rs := Records(crc, data);
    var kept := data[..TotalSize(rs)] + more;
    if p.Some? {
      var n, tail := Size(p.value), data[Size(p.value)..];
      RecordsThenAppend(crc, tail, more);
      var rs' := Records(crc, tail);
      assert rs == [p.value] + rs';
      assert rs[1..] == rs';
      assert kept[..n] == data[..n];
      ParseIsLocal(crc, data, kept);
      assert kept[n..] == tail[..TotalSize(rs')] + more;
      assert Records(crc, kept) == [p.value] + (rs' + Records(crc, more));
    } else {
      assert kept == more;
    }
  }

  lemma {:induction false} LogBytesConcat(crc: Bytes -> u32, a: seq<Record>, b: seq<Record>)
    ensures LogBytes(crc, a + b) == LogBytes(crc, a) + LogBytes(crc, b)
  {
    if a == [] {
      assert a + b == b;
    } else {
      assert (a + b)[1..] == a[1..] + b;
      LogBytesConcat(crc, a[1..], b);
    }
  }

  function MaxSeqNum(start: nat, rs: seq<Record>): nat {
    if rs == [] then start
    else
      var m := MaxSeqNum(start, rs[..|rs| - 1]);
      if rs[|rs| - 1].seqNum > m then rs[|rs| - 1].seqNum else m
  }

  /** The largest of the start and the records' numbers. */
  lemma {:induction false} MaxSeqNumIs(start: nat, rs: seq<Record>)
    ensures MaxSeqNum(start, rs) >= start && forall i :: 0 <= i < |rs| ==> rs[i].seqNum <= MaxSeqNum(start, rs)
    ensures MaxSeqNum(start, rs) == start || exists i :: 0 <= i < |rs| && rs[i].seqNum == MaxSeqNum(start, rs)
  {
    if rs != [] {
      MaxSeqNumIs(start, rs[..|rs| - 1]);
    }
  }

  /** What recovery returns. */
  function Replay(crc: Bytes -> u32, data: Bytes): map<Bytes, Bytes> {
    ToMap(EntriesOf(Records(crc, data)))
  }

  class WAL {
    const crc: Bytes -> u32
    const file: File
    var sequenceNumber: nat

    constructor (crc: Bytes -> u32, file: File)
      ensures this.crc == crc && this.file == file && sequenceNumber == 0
    {
      this.crc, this.file, sequenceNumber := crc, file, 0;
    }

    method WriteEntry(key: Bytes, value: Value)
      requires sequenceNumber < TWO64
      modifies this`sequenceNumber, file
      ensures sequenceNumber == (old(sequenceNumber) + 1) % TWO64
      ensures file.data == old(file.data) + RecordBytes(crc, Record(sequenceNumber, key, Payload(value)))
    {
      sequenceNumber := (sequenceNumber + 1) % TWO64;
      var val := Payload(value);
      var header := U64Bytes(sequenceNumber) + U32Bytes(|key|) + U32Bytes(|val|) + U32Bytes(crc(key + val));
      file.data := file.data + (header + key + val);
    }

    /** For all bytes: the last value of each key among the records that can be read is
        returned, and the file is cut at the offset added up on the way. */
    method Recover() returns (restored: map<Bytes, Bytes>)
      modifies this`sequenceNumber, file
      ensures restored == Replay(crc, old(file.data))
      ensures var rs := Records(crc, old(file.data));
        && ValidOffset(rs) <= |old(file.data)| && file.data == old(file.data)[..ValidOffset(rs)]
        && sequenceNumber == MaxSeqNum(old(sequenceNumber), rs)
        && sequenceNumber >= old(sequenceNumber) && (forall i :: 0 <= i < |rs| ==> rs[i].seqNum <= sequenceNumber)
        && (sequenceNumber == old(sequenceNumber) || exists i :: 0 <= i < |rs| && rs[i].seqNum == sequenceNumber)
    {
      hide Records, ParseRecord, ToMap, EntriesOf, ValidOffset, U32At, U64At;
      restored := map[];
      var data := file.data;
      var pos, validOffset := 0, 0;
      ghost var done: seq<Record> := [];
      RecoveryStart(crc, data);
      while true
        invariant pos <= |data| && data == old(file.data) == file.data
        invariant Records(crc, data) == done + Records(crc, data[pos..])
        invariant ValidOffset(Records(crc, data)) == validOffset + ValidOffset(Records(crc, data[pos..]))
        invariant restored == ToMap(EntriesOf(done))
        invariant sequenceNumber == MaxSeqNum(old(sequenceNumber), done)
        decreases |data| - pos
      {
        var record := ReadRecord(data, pos);
        if record == None {
          break;
        }
        var Record(seqNum, key, value) := record.value;
        if seqNum > sequenceNumber {
          sequenceNumber := seqNum;
        }
        restored := restored[key := value];
        validOffset := validOffset + (HEADER + |key| + |value|) % TWO32;
        RecoveryStep(crc, data, pos, done, record.value);
        done := done + [record.value];
        pos := pos + HEADER + |key| + |value|;
      }
      RecoveryEnd(crc, data, pos, done);
      MaxSeqNumIs(old(sequenceNumber), done);
      file.data := file.data[..validOffset];
    }

    /** The reads of one round: header, key, value, checksum. */
    method ReadRecord(data: Bytes, pos: nat) returns (record: Option<Record>)
      ensures record == ParseRecord(crc, data, pos)
    {
      var header := ReadFull(data, pos, HEADER);
      if !header.Got? {
        return None;
      }
      var seqNum := U64At(header.value[0..8]);
      var keySize := U32At(header.value[8..12]);
      var valSize := U32At(header.value[12..16]);
      var expectedChecksum := U32At(header.value[16..20]);
      var key := ReadFull(data, pos + HEADER, keySize);
      if !key.Got? {
        return None;
      }
      var value := ReadFull(data, pos + HEADER + keySize, valSize);
      if !value.Got? {
        return None;
      }
      if crc(key.value + value.value) != expectedChecksum {
        return None;
      }
      return Some(Record(seqNum, key.value, value.value));
    }
  }

  lemma RecoveryStart(crc: Bytes -> u32, data: Bytes)
    ensures Records(crc, data) == [] + Records(crc, data[0..])
    ensures ValidOffset(Records(crc, data)) == 0 + ValidOffset(Records(crc, data[0..]))
    ensures ToMap(EntriesOf([])) == map[]
  {
    assert data[0..] == data;
  }

  lemma RecoveryStep(crc: Bytes -> u32, data: Bytes, pos: nat, done: seq<Record>, r: Record)
    requires pos <= |data| && ParseRecord(crc, data, pos) == Some(r)
    requires Records(crc, data) == done + Records(crc, data[pos..])
    ensures Records(crc, data) == (done + [r]) + Records(crc, data[pos + Size(r)..])
    ensures ValidOffset(Records(crc, data[pos..])) == Size(r) % TWO32 + ValidOffset(Records(crc, data[pos + Size(r)..]))
    ensures ToMap(EntriesOf(done + [r])) == ToMap(EntriesOf(done))[r.key := r.val]
    ensures forall start ::
      MaxSeqNum(start, done + [r]) == (if r.seqNum > MaxSeqNum(start, done) then r.seqNum else MaxSeqNum(start, done))
  {
    hide ParseRecord;
    ParseShift(crc, data, pos);
    assert data[pos..][Size(r)..] == data[pos + Size(r)..];
    assert (done + [r])[..|done|] == done;
    assert EntriesOf(done + [r])[..|done|] == EntriesOf(done);
    assert (done + [r]) + Records(crc, data[pos + Size(r)..]) == done + ([r] + Records(crc, data[pos + Size(r)..]));
  }

  lemma RecoveryEnd(crc: Bytes -> u32, data: Bytes, pos: nat, done: seq<Record>)
    requires pos <= |data| && ParseRecord(crc, data, pos) == None
    requires Records(crc, data) == done + Records(crc, data[pos..])
    ensures Records(crc, data) == done && ValidOffset(Records(crc, data[pos..])) == 0
    ensures ValidOffset(Records(crc, data)) <= |data|
  {
    hide ParseRecord;
    ParseShift(crc, data, pos);
    RecordsWithinData(crc, data);
    assert done + [] == done;
  }

  lemma ParseShift(crc: Bytes -> u32, data: Bytes, pos: nat)
    requires pos <= |data|
    ensures ParseRecord(crc, data, pos) == ParseRecord(crc, data[pos..], 0)
  {
    hide ReadFull, U32At, U64At;
    ShiftRead(data, pos, 0, HEADER);
    match ReadFull(data, pos, HEADER)
    case Got(h) =>
      LengthRead(data, pos, HEADER);
      var keySize, valSize: nat := U32At(h[8..12]), U32At(h[12..16]);
      ShiftRead(data, pos, HEADER, keySize);
      ShiftRead(data, pos, HEADER + keySize, valSize);
    case _ =>
  }

  lemma LengthRead(data: Bytes, pos: nat, n: nat)
    ensures ReadFull(data, pos, n).Got? ==> |ReadFull(data, pos, n).value| == n
  {
  }

  lemma ShiftRead(data: Bytes, pos: nat, at: nat, n: nat)
    requires pos <= |data|
    ensures ReadFull(data, pos + at, n) == ReadFull(data[pos..], at, n)
  {
    if pos + at + n <= |data| {
      assert data[pos..][at..at + n] == data[pos + at..pos + at + n];
    }
  }

  // ---------- what recovery means for a log ----------

  /** Recovering any byte prefix of a log: the map of the longest run of whole records, and
      the file is cut to exactly their length. */
  lemma RecoverTornLog(crc: Bytes -> u32, rs: seq<Record>, n: nat)
    requires AllFit(rs) && n <= |LogBytes(crc, rs)|
    ensures var torn := LogBytes(crc, rs)[..n]; var whole := rs[..WholeRecords(rs, n)];
      && Replay(crc, torn) == ToMap(EntriesOf(whole))
      && ValidOffset(Records(crc, torn)) == |LogBytes(crc, whole)| <= n
      && torn[..ValidOffset(Records(crc, torn))] == LogBytes(crc, whole)
  {
    hide Records, LogBytes, ValidOffset, ToMap;
    var j := WholeRecords(rs, n);
    var whole := rs[..j];
    TornLogRecords(crc, rs, n);
    WholeRecordsIsLongest(rs, n);
    ValidOffsetIsTotalSize(whole);
    LogSize(crc, whole);
    LogBytesConcat(crc, whole, rs[j..]);
    assert rs == whole + rs[j..];
  }

  /** Recovery twice is recovery once, for any bytes whose record sizes do not wrap. */
  lemma RecoverIdempotent(crc: Bytes -> u32, data: Bytes)
    requires AllFit(Records(crc, data))
    ensures ValidOffset(Records(crc, data)) <= |data|
    ensures var cut := ValidOffset(Records(crc, data));
      && Records(crc, data[..cut]) == Records(crc, data)
      && Replay(crc, data[..cut]) == Replay(crc, data)
  {
    hide Records, ValidOffset, ToMap;
    ValidOffsetIsTotalSize(Records(crc, data));
    RecordsThenAppend(crc, data, []);
    var cut := TotalSize(Records(crc, data));
    assert data[..cut] + [] == data[..cut];
    NoRecords(crc);
  }

  lemma NoRecords(crc: Bytes -> u32)
    ensures Records(crc, []) == []
  {
  }

  lemma OneRecord(crc: Bytes -> u32, r: Record)
    requires Fits(r)
    ensures Records(crc, RecordBytes(crc, r)) == [r]
  {
    hide ParseRecord, RecordBytes;
    var more := RecordBytes(crc, r);
    ParseWritten(crc, r, []);
    assert more + [] == more && more[Size(r)..] == [];
    NoRecords(crc);
  }

  /** Appending to a recovered log overrides its map, for any bytes it was recovered from. */
  lemma RecoverAppendRecover(crc: Bytes -> u32, data: Bytes, r: Record)
    requires AllFit(Records(crc, data)) && Fits(r)
    ensures ValidOffset(Records(crc, data)) <= |data|
    ensures var cut := ValidOffset(Records(crc, data));
      Replay(crc, data[..cut] + RecordBytes(crc, r)) == Replay(crc, data)[r.key := r.val]
  {
    hide Records, ValidOffset, ToMap;
    var rs, more := Records(crc, data), RecordBytes(crc, r);
    ValidOffsetIsTotalSize(rs);
    RecordsThenAppend(crc, data, more);
    OneRecord(crc, r);
    EntriesOfAppend(rs, r);
  }

  lemma EntriesOfAppend(rs: seq<Record>, r: Record)
    ensures ToMap(EntriesOf(rs + [r])) == ToMap(EntriesOf(rs))[r.key := r.val]
  {
    assert EntriesOf(rs + [r])[..|rs|] == EntriesOf(rs);
  }

  // ---------- appending to a torn log ----------

  lemma LogBytesAppend(crc: Bytes -> u32, rs: seq<Record>, r: Record)
    ensures LogBytes(crc, rs + [r]) == LogBytes(crc, rs) + RecordBytes(crc, r)
  {
    hide RecordBytes;
    LogBytesConcat(crc, rs, [r]);
    assert [r][1..] == [] && LogBytes(crc, [r]) == RecordBytes(crc, r) + [];
  }

  lemma Unread(crc: Bytes -> u32, data: Bytes)
    requires ParseRecord(crc, data, 0) == None
    ensures Records(crc, data) == []
  {
  }

  /** What is appended to any bytes is never read if the record that stood there is still
      rejected. */
  lemma RejectedTail(crc: Bytes -> u32, data: Bytes, more: Bytes)
    requires ParseRecord(crc, data + more, TotalSize(Records(crc, data))) == None
    ensures Records(crc, data + more) == Records(crc, data)
  {
    hide ParseRecord, Records, TotalSize;
    var rs := Records(crc, data);
    RecordsWithinData(crc, data);
    var rest := data[TotalSize(rs)..] + more;
    RecordsThenAppend(crc, data, rest);
    assert data[..TotalSize(rs)] + rest == data + more;
    ParseShift(crc, data + more, TotalSize(rs));
    assert (data + more)[TotalSize(rs)..] == rest;
    Unread(crc, rest);
    assert rs + [] == rs;
  }

  /** If the header got through, whatever is appended behind a record cut short is taken for the
      rest of it; that is accepted exactly when there are enough bytes and they have the
      checksum of what was lost. */
  lemma CompletedTail(crc: Bytes -> u32, data: Bytes, r: Record, n: nat, more: Bytes)
    requires Fits(r) && HEADER <= n < Size(r)
    ensures var log, start, middle, end := data + RecordBytes(crc, r)[..n] + more, |data| + HEADER, |data| + HEADER + |r.key|, |data| + Size(r);
      ParseRecord(crc, log, |data|) ==
        if n + |more| < Size(r) || crc(log[start..end]) != crc(r.key + r.val) then None
        else Some(Record(r.seqNum, log[start..middle], log[middle..end]))
  {
    hide U32Bytes, U64Bytes, U32At, U64At, Header, RecordBytes;
    var log := data + RecordBytes(crc, r)[..n] + more;
    HeaderParts(crc, r);
    HeaderFirst(crc, r);
    assert log[|data|..|data| + HEADER] == RecordBytes(crc, r)[..HEADER];
    var start, middle, end := |data| + HEADER, |data| + HEADER + |r.key|, |data| + Size(r);
    if end <= |log| {
      assert log[start..middle] + log[middle..end] == log[start..end];
    }
  }

  lemma HeaderFirst(crc: Bytes -> u32, r: Record)
    ensures RecordBytes(crc, r)[..HEADER] == Header(crc, r)
  {
    hide Header;
  }

  // ---------- sizes ----------

  /** In less than 4 GiB no record's size wraps around. */
  lemma {:induction false} ShortLogFits(crc: Bytes -> u32, data: Bytes)
    requires |data| < TWO32
    ensures AllFit(Records(crc, data))
    decreases |data|
  {
    var p := ParseRecord(crc, data, 0);
    if p.Some? {
      ShortLogFits(crc, data[Size(p.value)..]);
    }
  }

  lemma {:induction false} TotalSizeWithout(rs: seq<Record>, i: nat)
    requires i < |rs|
    ensures TotalSize(rs) == TotalSize(rs[..i] + rs[i + 1..]) + Size(rs[i])
  {
    var rest := rs[..i] + rs[i + 1..];
    if i == 0 {
      assert rest == rs[1..];
    } else {
      TotalSizeWithout(rs[1..], i - 1);
      assert rest[1..] == rs[1..][..i - 1] + rs[1..][i..];
    }
  }

  /** Records of some of the entries that a log leaves, each key once, take no more space than
      the log. */
  lemma {:induction false} CopiesAreNoLonger(rs: seq<Record>, copied: seq<Record>)
    requires forall i, j :: 0 <= i < j < |copied| ==> copied[i].key != copied[j].key
    requires forall i :: 0 <= i < |copied| ==>
      copied[i].key in ToMap(EntriesOf(rs)) && ToMap(EntriesOf(rs))[copied[i].key] == copied[i].val
    ensures TotalSize(copied) <= TotalSize(rs)
  {
    hide ToMap;
    if rs == [] {
      assert copied == [] by { NothingWritten(); }
    } else {
      var n := |rs| - 1;
      var pre, last := rs[..n], rs[n];
      assert rs == pre + [last];
      EntriesOfAppend(pre, last);
      TotalSizeWithout(rs, n);
      assert rs[..n] + rs[n + 1..] == pre;
      if i :| 0 <= i < |copied| && copied[i].key == last.key {
        TotalSizeWithout(copied, i);
        CopiesAreNoLonger(pre, copied[..i] + copied[i + 1..]);
      } else {
        CopiesAreNoLonger(pre, copied);
      }
    }
  }

  lemma NothingWritten()
    ensures ToMap(EntriesOf([])) == map[]
  {
  }

  /** A record cut short behind a whole log is not read. */
  lemma TornTail(crc: Bytes -> u32, data: Bytes, r: Record, n: nat)
    requires TotalSize(Records(crc, data)) == |data| && Fits(r) && n < Size(r)
    ensures Records(crc, data + RecordBytes(crc, r)[..n]) == Records(crc, data)
  {
    hide ParseRecord, RecordBytes, Records, TotalSize;
    var torn := RecordBytes(crc, r)[..n];
    RecordsThenAppend(crc, data, torn);
    assert data[..|data|] == data;
    ParseTorn(crc, r, n);
    Unread(crc, torn);
    assert Records(crc, data) + [] == Records(crc, data);
  }
}
