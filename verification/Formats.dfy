/** The bytes of the files and of the snapshot stream, position by position. */
module Formats {
  import opened ByteStrings
  import opened Entries
  import opened Bloom
  import opened SsTable
  import SsTableRoundTrip
  import Snapshots
  import Wal

  /** Here stand w bytes of a number: its digits to the base 256, the last one first. */
  ghost predicate Spells(data: Bytes, pos: nat, w: nat, n: nat) {
    pos + w <= |data| && forall i :: 0 <= i < w ==> data[pos + i] as int == n / Pow256(i) % 256
  }

  lemma U32Spells(n: nat)
    ensures Spells(U32Bytes(n), 0, 4, n % TWO32)
  {
    forall i | 0 <= i < 4 ensures U32Bytes(n)[0 + i] as int == n % TWO32 / Pow256(i) % 256 {
      LittleEndianByte(n % TWO32, 4, i);
    }
  }

  lemma U64Spells(n: nat)
    ensures Spells(U64Bytes(n), 0, 8, n % TWO64)
  {
    forall i | 0 <= i < 8 ensures U64Bytes(n)[0 + i] as int == n % TWO64 / Pow256(i) % 256 {
      LittleEndianByte(n % TWO64, 8, i);
    }
  }

  lemma HeldSpells(data: Bytes, pos: nat, x: Bytes, w: nat, n: nat)
    requires Holds(data, pos, x) && |x| == w && Spells(x, 0, w, n)
    ensures Spells(data, pos, w, n)
  {
    hide Pow256;
    forall i | 0 <= i < w ensures data[pos + i] as int == n / Pow256(i) % 256 {
      assert data[pos + i] == data[pos..pos + w][i] == x[0 + i];
    }
  }

  lemma HeldU32(data: Bytes, pos: nat, n: nat)
    requires Holds(data, pos, U32Bytes(n))
    ensures Spells(data, pos, 4, n % TWO32)
  {
    hide Spells, U32Bytes;
    U32Spells(n);
    HeldSpells(data, pos, U32Bytes(n), 4, n % TWO32);
  }

  lemma HeldU64(data: Bytes, pos: nat, n: nat)
    requires Holds(data, pos, U64Bytes(n))
    ensures Spells(data, pos, 8, n % TWO64)
  {
    hide Spells, U64Bytes;
    U64Spells(n);
    HeldSpells(data, pos, U64Bytes(n), 8, n % TWO64);
  }

  // ---------- table files ----------

  /** A record: the length of the key, the length of the value, the key, the value. */
  lemma RecordLayout(data: Bytes, pos: nat, e: Entry<Bytes>)
    requires Holds(data, pos, RecordBytes(e)) && Fits(e)
    ensures Spells(data, pos, 4, |e.key|) && Spells(data, pos + 4, 4, |e.val|)
    ensures Holds(data, pos + 8, e.key) && Holds(data, pos + 8 + |e.key|, e.val)
  {
    hide Holds, Spells, U32Bytes;
    var k, v := U32Bytes(|e.key|), U32Bytes(|e.val|);
    assert RecordBytes(e) == k + (v + (e.key + e.val));
    HoldsParts(data, pos, k, v + (e.key + e.val));
    HoldsParts(data, pos + 4, v, e.key + e.val);
    HoldsParts(data, pos + 8, e.key, e.val);
    HeldU32(data, pos, |e.key|);
    HeldU32(data, pos + 4, |e.val|);
  }

  /** The records follow one another from the start of the file, in the order of the entries:
      each starts where the one before it ends. */
  lemma DataLayout(hash: Bytes -> u32, es: seq<Entry<Bytes>>, i: nat)
    requires KeysFit(|es|) && i < |es| && Fits(es[i])
    ensures var data, pos, e := FileBytes(hash, es), SsTableRoundTrip.Offset(es, i), es[i];
      && SsTableRoundTrip.Offset(es, 0) == 0 && SsTableRoundTrip.Offset(es, i + 1) == pos + 8 + |e.key| + |e.val|
      && Spells(data, pos, 4, |e.key|) && Spells(data, pos + 4, 4, |e.val|)
      && Holds(data, pos + 8, e.key) && Holds(data, pos + 8 + |e.key|, e.val)
  {
    hide Holds, Spells, DataBytes, DataSize, RecordBytes, FileBytes;
    SsTableRoundTrip.OffsetStep(es, i);
    SsTableRoundTrip.FileParts(hash, es);
    SsTableRoundTrip.RecordHeld(es, FileBytes(hash, es), i);
    RecordLayout(FileBytes(hash, es), SsTableRoundTrip.Offset(es, i), es[i]);
  }

  /** Behind the records stand the length of the filter and the filter, then the number of index
      entries and these; the last 16 bytes say where the index and where the filter begins. */
  lemma FileLayout(hash: Bytes -> u32, es: seq<Entry<Bytes>>)
    requires KeysFit(|es|)
    ensures OffsetsNatural(Index(es))
    ensures var data, bits, filterAt := FileBytes(hash, es), Filter(hash, es), SsTableRoundTrip.Offset(es, |es|);
      var indexAt := filterAt + 4 + |bits|;
      && Spells(data, filterAt, 4, |bits|) && Holds(data, filterAt + 4, bits)
      && Spells(data, indexAt, 4, |Index(es)|) && Holds(data, indexAt + 4, IndexEntriesBytes(Index(es)))
      && |data| >= 16 && Spells(data, |data| - 16, 8, indexAt % TWO64) && Spells(data, |data| - 8, 8, filterAt % TWO64)
  {
    hide Holds, Spells, DataBytes, DataSize, Filter, FileBytes, Index, IndexEntriesBytes, U32Bytes, U64Bytes;
    SsTableRoundTrip.OffsetStep(es, |es|);
    SsTableRoundTrip.FileParts(hash, es);
    var data, bits, filterAt := FileBytes(hash, es), Filter(hash, es), SsTableRoundTrip.Offset(es, |es|);
    FewEnough(es);
    HeldU32(data, filterAt, |bits|);
    HeldU32(data, filterAt + 4 + |bits|, |Index(es)|);
    FooterHeld(data, filterAt + 4 + |bits|, filterAt);
    HeldU64(data, |data| - 16, filterAt + 4 + |bits|);
    HeldU64(data, |data| - 8, filterAt);
  }

  lemma FewEnough(es: seq<Entry<Bytes>>)
    requires KeysFit(|es|)
    ensures FilterSize(|es|) < TWO32 && |Index(es)| < TWO32
  {
    IndexOffsets(es);
  }

  lemma FooterHeld(data: Bytes, indexAt: nat, filterAt: nat)
    requires |data| >= 16 && data[|data| - 16..|data| - 8] == U64Bytes(indexAt) && data[|data| - 8..] == U64Bytes(filterAt)
    ensures Holds(data, |data| - 16, U64Bytes(indexAt)) && Holds(data, |data| - 8, U64Bytes(filterAt))
  {
    hide U64Bytes;
  }

  /** An index entry: the length of the key, the key, the offset of the record. */
  lemma IndexEntryLayout(index: seq<IndexEntry>, j: nat)
    requires OffsetsNatural(index) && j < |index| && |index[j].key| < TWO32 && index[j].offset < TWO64
    ensures var data, pos, e := IndexEntriesBytes(index), |IndexEntriesBytes(index[..j])|, index[j];
      && Spells(data, pos, 4, |e.key|) && Holds(data, pos + 4, e.key) && Spells(data, pos + 4 + |e.key|, 8, e.offset)
      && |IndexEntriesBytes(index[..j + 1])| == pos + 12 + |e.key| && (j + 1 == |index| ==> |data| == pos + 12 + |e.key|)
  {
    hide Holds, Spells, U32Bytes, U64Bytes;
    var data, pos, e := IndexEntriesBytes(index), |IndexEntriesBytes(index[..j])|, index[j];
    IndexEntryHeld(index, j);
    var k, o := U32Bytes(|e.key|), U64Bytes(e.offset);
    assert IndexEntryBytes(e) == k + (e.key + o);
    HoldsParts(data, pos, k, e.key + o);
    HoldsParts(data, pos + 4, e.key, o);
    HeldU32(data, pos, |e.key|);
    HeldU64(data, pos + 4 + |e.key|, e.offset);
    assert index[..j + 1][..j] == index[..j];
    assert index[..|index|] == index;
  }

  lemma {:induction false} IndexEntryHeld(index: seq<IndexEntry>, j: nat)
    requires OffsetsNatural(index) && j < |index|
    ensures Holds(IndexEntriesBytes(index), |IndexEntriesBytes(index[..j])|, IndexEntryBytes(index[j]))
  {
    hide IndexEntryBytes;
    var n := |index| - 1;
    var pre, last := IndexEntriesBytes(index[..n]), IndexEntryBytes(index[n]);
    if j == n {
      HoldsMiddle(pre, last, []);
      assert pre + last + [] == pre + last;
    } else {
      IndexEntryHeld(index[..n], j);
      assert index[..n][..j] == index[..j];
      HoldsMore(pre, |IndexEntriesBytes(index[..j])|, IndexEntryBytes(index[j]), last);
    }
  }

  lemma HoldsMore(data: Bytes, pos: nat, x: Bytes, more: Bytes)
    requires Holds(data, pos, x)
    ensures Holds(data + more, pos, x)
  {
    assert (data + more)[pos..pos + |x|] == data[pos..pos + |x|];
  }

  /** The filter's set bits are the positions of the keys' hashes. */
  lemma FilterBits(hash: Bytes -> u32, es: seq<Entry<Bytes>>, n: nat)
    requires KeysFit(|es|) && n < 8 * FilterSize(|es|)
    ensures 8 * FilterSize(|es|) < TWO32
    ensures TestBit(Filter(hash, es), n) <==> exists i :: 0 <= i < |es| && IsPosition(hash(es[i].key), 8 * FilterSize(|es|), n)
  {
    hide TestBit, WithHashes, IsPosition, FilterSize;
    FilterSizeFits(|es|);
    var bits, hs := Zeros(FilterSize(|es|)), Hashes(hash, es);
    WithHashesExact(bits, hs, n);
    NoBits(FilterSize(|es|), n);
    if h :| h in hs && IsPosition(h, 8 * FilterSize(|es|), n) {
      var i :| 0 <= i < |hs| && hs[i] == h;
    }
    assert forall i :: 0 <= i < |es| ==> hs[i] == hash(es[i].key) && hs[i] in hs;
  }

  // ---------- reading any bytes as a table file ----------

  lemma SpelledU64(data: Bytes, pos: nat, n: nat)
    requires Spells(data, pos, 8, n) && n < TWO64
    ensures U64At(data[pos..pos + 8]) == n
  {
    hide Pow256, LittleEndian, FromLittleEndian;
    var bs := data[pos..pos + 8];
    U64RoundTrip(n);
    forall i | 0 <= i < 8 ensures bs[i] == U64Bytes(n)[i] {
      LittleEndianByte(n, 8, i);
      assert data[pos + i] == bs[i];
    }
    assert bs == U64Bytes(n);
  }

  /** Up to which position a file is scanned: a file of at most 16 bytes to its end, a longer one
      as far as its last eight bytes say, as a signed number. */
  lemma ScanLimit(data: Bytes, n: nat)
    requires |data| > 16 ==> Spells(data, |data| - 8, 8, n) && n < TWO64
    ensures Limit(data) == if |data| <= 16 then |data| else if n < 0x8000_0000_0000_0000 then n else n - 0x1_0000_0000_0000_0000
  {
    if |data| > 16 {
      SpelledU64(data, |data| - 8, n);
      assert data[|data| - 8..|data| - 8 + 8] == data[|data| - 8..];
    }
  }

  /** A file of less than 16 bytes has an empty index and no filter. In a longer one that can be
      loaded, the filter is what stands behind its length at the second offset of the footer, and
      the index begins at the first. */
  lemma LoadedParts(data: Bytes, indexAt: nat, filterAt: nat)
    requires |data| >= 16 ==> Spells(data, |data| - 16, 8, indexAt) && indexAt < TWO64
    requires |data| >= 16 ==> Spells(data, |data| - 8, 8, filterAt) && filterAt < TWO64
    ensures |data| < 16 ==> Load(data) == Loaded([], None)
    ensures |data| >= 16 && Load(data).Loaded? ==>
      && indexAt + 4 <= |data| && filterAt + 4 <= |data| && Load(data).filter.Some?
      && Spells(data, filterAt, 4, |Load(data).filter.value|) && Holds(data, filterAt + 4, Load(data).filter.value)
      && Spells(data, indexAt, 4, |Load(data).index|) && ReadIndex(data, indexAt + 4, |Load(data).index|) == Some(Load(data).index)
  {
    hide Spells, ReadIndexEntry, U64At, U32At;
    if |data| >= 16 {
      SpelledU64(data, |data| - 16, indexAt);
      SpelledU64(data, |data| - 8, filterAt);
      assert data[|data| - 8..|data| - 8 + 8] == data[|data| - 8..];
      if Load(data).Loaded? {
        ReadSpells(data, filterAt);
        ReadSpells(data, indexAt);
        ReadIndexLength(data, indexAt + 4, ReadU32(data, indexAt).value);
      }
    }
  }

  lemma ReadSpells(data: Bytes, pos: nat)
    requires ReadU32(data, pos).Got?
    ensures pos + 4 <= |data| && Spells(data, pos, 4, ReadU32(data, pos).value)
  {
    hide Pow256, LittleEndian, FromLittleEndian;
    var bs := data[pos..pos + 4];
    FromLittleEndianRoundTrip(bs);
    forall i | 0 <= i < 4 ensures data[pos + i] as int == FromLittleEndian(bs) / Pow256(i) % 256 {
      LittleEndianByte(FromLittleEndian(bs), 4, i);
      assert data[pos + i] == bs[i];
    }
  }

  lemma {:induction false} ReadIndexLength(data: Bytes, pos: nat, n: nat)
    requires ReadIndex(data, pos, n).Some?
    ensures |ReadIndex(data, pos, n).value| == n
    decreases n
  {
    hide ReadIndexEntry;
    if n > 0 {
      ReadIndexLength(data, ReadIndexEntry(data, pos).value.1, n - 1);
    }
  }

  // ---------- the log ----------

  /** A log record: the sequence number, the length of the key, the length of the value and the
      checksum of key and value, then the key and the value. */
  lemma LogRecordLayout(crc: Bytes -> u32, data: Bytes, pos: nat, r: Wal.Record)
    requires Holds(data, pos, Wal.RecordBytes(crc, r)) && Wal.Fits(r)
    ensures Spells(data, pos, 8, r.seqNum) && Spells(data, pos + 8, 4, |r.key|) && Spells(data, pos + 12, 4, |r.val|)
    ensures Spells(data, pos + 16, 4, crc(r.key + r.val)) && Holds(data, pos + 20, r.key) && Holds(data, pos + 20 + |r.key|, r.val)
    ensures |Wal.RecordBytes(crc, r)| == 20 + |r.key| + |r.val|
  {
    hide Holds, Spells, U32Bytes, U64Bytes;
    var q, k, v, c := U64Bytes(r.seqNum), U32Bytes(|r.key|), U32Bytes(|r.val|), U32Bytes(crc(r.key + r.val));
    assert Wal.RecordBytes(crc, r) == q + (k + (v + (c + (r.key + r.val))));
    HoldsParts(data, pos, q, k + (v + (c + (r.key + r.val))));
    HoldsParts(data, pos + 8, k, v + (c + (r.key + r.val)));
    HoldsParts(data, pos + 12, v, c + (r.key + r.val));
    HoldsParts(data, pos + 16, c, r.key + r.val);
    HoldsParts(data, pos + 20, r.key, r.val);
    HeldU64(data, pos, r.seqNum);
    HeldU32(data, pos + 8, |r.key|);
    HeldU32(data, pos + 12, |r.val|);
    HeldU32(data, pos + 16, crc(r.key + r.val));
  }

  // ---------- the snapshot stream ----------

  /** The messages of a stream follow one another, each behind its length. */
  lemma StreamLayout(messages: seq<Bytes>, i: nat)
    requires i < |messages| && |messages[i]| < TWO32
    ensures var stream, pos := Snapshots.StreamOf(messages), |Snapshots.StreamOf(messages[..i])|;
      && Spells(stream, pos, 4, |messages[i]|) && Holds(stream, pos + 4, messages[i])
      && |Snapshots.StreamOf(messages[..i + 1])| == pos + 4 + |messages[i]|
  {
    hide Holds, Spells, U32Bytes;
    var before, frame, rest := Snapshots.StreamOf(messages[..i]), Snapshots.Frame(messages[i]), Snapshots.StreamOf(messages[i + 1..]);
    Snapshots.StreamAppend(messages[..i], messages[i]);
    assert messages[..i] + [messages[i]] == messages[..i + 1];
    StreamSplits(messages[..i + 1], messages[i + 1..]);
    assert messages[..i + 1] + messages[i + 1..] == messages;
    HoldsMiddle(before, frame, rest);
    HoldsParts(Snapshots.StreamOf(messages), |before|, U32Bytes(|messages[i]|), messages[i]);
    HeldU32(Snapshots.StreamOf(messages), |before|, |messages[i]|);
  }

  lemma {:induction false} StreamSplits(a: seq<Bytes>, b: seq<Bytes>)
    ensures Snapshots.StreamOf(a + b) == Snapshots.StreamOf(a) + Snapshots.StreamOf(b)
  {
    hide Snapshots.Frame;
    if a == [] {
      assert a + b == b;
    } else {
      assert (a + b)[1..] == a[1..] + b;
      StreamSplits(a[1..], b);
    }
  }
}
