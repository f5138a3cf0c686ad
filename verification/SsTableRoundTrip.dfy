/** Reading a table file back recovers exactly what was written to it. */
module SsTableRoundTrip {
  import opened ByteStrings
  import opened Entries
  import opened Bloom
  import opened SsTable

  /** Where the i-th record starts. */
  function Offset(es: seq<Entry<Bytes>>, i: nat): nat
    requires i <= |es|
  {
    DataSize(es[..i])
  }

  lemma OffsetStep(es: seq<Entry<Bytes>>, i: nat)
    ensures i < |es| ==> Offset(es, i + 1) == Offset(es, i) + Size(es[i])
    ensures Offset(es, 0) == 0 && Offset(es, |es|) == DataSize(es)
  {
    if i < |es| {
      assert es[..i + 1][..i] == es[..i];
    }
    assert es[..|es|] == es;
  }

  lemma {:induction false} OffsetsMonotone(es: seq<Entry<Bytes>>, i: nat, j: nat)
    requires i <= j <= |es|
    ensures Offset(es, i) + 8 * (j - i) <= Offset(es, j)
  {
    if i < j {
      OffsetStep(es, j - 1);
      OffsetsMonotone(es, i, j - 1);
    }
  }

  lemma {:induction false} DataBytesPrefix(es: seq<Entry<Bytes>>, i: nat)
    requires i <= |es|
    ensures Offset(es, i) <= DataSize(es) && DataBytes(es)[..Offset(es, i)] == DataBytes(es[..i])
  {
    if i == |es| {
      assert es[..i] == es;
    } else {
      DataBytesPrefix(es[..|es| - 1], i);
      assert es[..|es| - 1][..i] == es[..i];
      var pre := DataBytes(es[..|es| - 1]);
      assert DataBytes(es)[..|pre|] == pre;
    }
  }

  lemma DataBytesStep(es: seq<Entry<Bytes>>, i: nat)
    requires i < |es|
    ensures DataBytes(es[..i + 1]) == DataBytes(es[..i]) + RecordBytes(es[i])
  {
    assert es[..i + 1][..i] == es[..i];
  }

  /** A file that starts with the data block holds record i at its offset. */
  lemma RecordHeld(es: seq<Entry<Bytes>>, data: Bytes, i: nat)
    requires i < |es| && Holds(data, 0, DataBytes(es))
    ensures Holds(data, Offset(es, i), RecordBytes(es[i]))
  {
    hide DataBytes, DataSize, RecordBytes;
    OffsetStep(es, i);
    DataBytesPrefix(es, i + 1);
    DataBytesStep(es, i);
    var all, upto, before := DataBytes(es), DataBytes(es[..i + 1]), DataBytes(es[..i]);
    HoldsMiddle(before, RecordBytes(es[i]), []);
    assert before + RecordBytes(es[i]) + [] == upto;
    assert Holds(all, 0, upto);
    HoldsInside(all, 0, upto, Offset(es, i), RecordBytes(es[i]));
    HoldsInside(data, 0, all, Offset(es, i), RecordBytes(es[i]));
  }

  /** A record read where it was written. */
  lemma NextWritten(data: Bytes, pos: nat, e: Entry<Bytes>)
    requires Holds(data, pos, RecordBytes(e)) && Fits(e)
    ensures ReadU32(data, pos) == Got(|e.key|) && ReadU32(data, pos + 4) == Got(|e.val|)
    ensures ReadFull(data, pos + 8, |e.key|) == Got(e.key)
    ensures ReadFull(data, pos + 8 + |e.key|, |e.val|) == Got(e.val)
    ensures NextRecord(data, pos) == Record(e)
  {
    hide Holds, ReadFull, ReadU32, U32Bytes;
    var k, v := U32Bytes(|e.key|), U32Bytes(|e.val|);
    HoldsParts(data, pos, k + v + e.key, e.val);
    HoldsParts(data, pos, k + v, e.key);
    HoldsParts(data, pos, k, v);
    ReadHeldU32(data, pos, |e.key|);
    ReadHeldU32(data, pos + 4, |e.val|);
    ReadHeld(data, pos + 8, e.key);
    ReadHeld(data, pos + 8 + |e.key|, e.val);
  }

  /** A sequential scan from record i yields the records from i on, and stops at the limit. */
  lemma {:induction false} ScanWritten(es: seq<Entry<Bytes>>, data: Bytes, i: nat)
    requires i <= |es| && Holds(data, 0, DataBytes(es))
    requires forall j :: 0 <= j < |es| ==> Fits(es[j])
    ensures Scan(data, Offset(es, i), Offset(es, i), DataSize(es)) == es[i..]
    ensures ScanStop(data, Offset(es, i), Offset(es, i), DataSize(es)) == AtLimit
    decreases |es| - i
  {
    hide DataBytes, DataSize, NextRecord, RecordBytes, Holds;
    OffsetStep(es, if i < |es| then i else 0);
    if i < |es| {
      OffsetsMonotone(es, i + 1, |es|);
      RecordHeld(es, data, i);
      NextWritten(data, Offset(es, i), es[i]);
      ScanWritten(es, data, i + 1);
      assert es[i..] == [es[i]] + es[i + 1..];
    } else {
      assert es[..i] == es;
    }
  }

  // ---------- the index ----------

  lemma {:induction false} IndexEntriesPrefix(index: seq<IndexEntry>, i: nat)
    requires OffsetsNatural(index) && i <= |index|
    ensures var a := IndexEntriesBytes(index[..i]);
      |a| <= |IndexEntriesBytes(index)| && IndexEntriesBytes(index)[..|a|] == a
    ensures i < |index| ==> IndexEntriesBytes(index[..i + 1]) == IndexEntriesBytes(index[..i]) + IndexEntryBytes(index[i])
  {
    if i == |index| {
      assert index[..i] == index;
    } else {
      assert index[..i + 1][..i] == index[..i];
      var pre := index[..|index| - 1];
      IndexEntriesPrefix(pre, i);
      assert pre[..i] == index[..i];
      assert IndexEntriesBytes(index)[..|IndexEntriesBytes(pre)|] == IndexEntriesBytes(pre);
    }
  }

  lemma IndexEntryRead(data: Bytes, pos: nat, e: IndexEntry)
    requires 0 <= e.offset < TWO63 && |e.key| < TWO32 && Holds(data, pos, IndexEntryBytes(e))
    ensures ReadIndexEntry(data, pos) == Some((e, pos + |IndexEntryBytes(e)|))
  {
    hide Holds, ReadFull, ReadU32, ReadU64, U32Bytes, U64Bytes;
    var k, o := U32Bytes(|e.key|), U64Bytes(e.offset);
    HoldsParts(data, pos, k + e.key, o);
    HoldsParts(data, pos, k, e.key);
    ReadHeldU32(data, pos, |e.key|);
    ReadHeld(data, pos + 4, e.key);
    ReadHeldU64(data, pos + 4 + |e.key|, e.offset);
  }

  lemma NoIndexEntries()
    ensures IndexEntriesBytes([]) == []
  {
  }

  ghost predicate IndexFits(index: seq<IndexEntry>) {
    forall i :: 0 <= i < |index| ==> 0 <= index[i].offset < TWO63 && |index[i].key| < TWO32
  }

  lemma {:induction false} IndexRead(data: Bytes, start: nat, index: seq<IndexEntry>, i: nat)
    requires IndexFits(index) && i <= |index|
    requires Holds(data, start, IndexEntriesBytes(index))
    ensures ReadIndex(data, start + |IndexEntriesBytes(index[..i])|, |index| - i) == Some(index[i..])
    decreases |index| - i
  {
    hide IndexEntriesBytes, IndexEntryBytes, ReadIndexEntry, Holds;
    if i < |index| {
      IndexEntriesPrefix(index, i);
      IndexEntriesPrefix(index, i + 1);
      var all, a := IndexEntriesBytes(index), IndexEntriesBytes(index[..i]);
      EntryHeld(data, start, all, a, IndexEntryBytes(index[i]));
      IndexEntryRead(data, start + |a|, index[i]);
      IndexRead(data, start, index, i + 1);
      assert index[i..] == [index[i]] + index[i + 1..];
    }
  }

  lemma EntryHeld(data: Bytes, start: nat, all: Bytes, a: Bytes, x: Bytes)
    requires Holds(data, start, all) && |a + x| <= |all| && all[..|a + x|] == a + x
    ensures Holds(data, start + |a|, x)
  {
    HoldsMiddle(a, x, []);
    assert a + x + [] == a + x;
    HoldsInside(all, 0, a + x, |a|, x);
    HoldsInside(data, start, all, |a|, x);
  }

  lemma {:induction false} IndexOfFittingEntries(es: seq<Entry<Bytes>>)
    requires forall i :: 0 <= i < |es| ==> Fits(es[i])
    requires DataSize(es) < TWO63
    ensures IndexFits(Index(es))
  {
    if es != [] {
      IndexOfFittingEntries(es[..|es| - 1]);
    }
  }

  // ---------- the whole file ----------

  /** The parts of a file, where the footer says they are. */
  lemma FileParts(hash: Bytes -> u32, es: seq<Entry<Bytes>>)
    requires KeysFit(|es|)
    ensures OffsetsNatural(Index(es))
    ensures var f := FileBytes(hash, es); var bits := Filter(hash, es);
      var filterAt := DataSize(es); var indexAt := filterAt + 4 + |bits|; var n := |f|;
      && n >= indexAt + 4 + FOOTER && Holds(f, 0, DataBytes(es))
      && Holds(f, filterAt, U32Bytes(|bits|)) && Holds(f, filterAt + 4, bits)
      && Holds(f, indexAt, U32Bytes(|Index(es)|))
      && Holds(f, indexAt + 4, IndexEntriesBytes(Index(es)))
      && f[n - 16..n - 8] == U64Bytes(indexAt) && f[n - 8..] == U64Bytes(filterAt)
  {
    hide Holds, U32Bytes, U64Bytes, DataBytes, IndexEntriesBytes, Filter, Index;
    IndexOffsets(es);
    var f, bits := FileBytes(hash, es), Filter(hash, es);
    var a, b, c := DataBytes(es), FilterBlock(bits), IndexBlock(Index(es));
    var d := Footer(|a| + 4 + |bits|, |a|);
    FileCuts(a, b, c, d);
    HoldsParts(f, |a|, U32Bytes(|bits|), bits);
    HoldsParts(f, |a| + |b|, U32Bytes(|Index(es)|), IndexEntriesBytes(Index(es)));
    assert d[..8] == U64Bytes(|a| + 4 + |bits|) && d[8..] == U64Bytes(|a|);
  }

  lemma FileCuts(a: Bytes, b: Bytes, c: Bytes, d: Bytes)
    requires |d| == FOOTER
    ensures var f := a + b + c + d; var n := |f|;
      && Holds(f, 0, a) && Holds(f, |a|, b) && Holds(f, |a| + |b|, c)
      && n >= 16 && f[n - 16..n - 8] == d[..8] && f[n - 8..] == d[8..]
  {
    var f := a + b + c + d;
    assert f[|a|..|a| + |b|] == b;
    assert f[|a| + |b|..|a| + |b| + |c|] == c;
  }

  /** The footer alone. */
  lemma FileFooter(hash: Bytes -> u32, es: seq<Entry<Bytes>>)
    requires KeysFit(|es|)
    ensures var f := FileBytes(hash, es); var n := |f|;
      && n > DataSize(es) + 4 + |Filter(hash, es)| + FOOTER
      && f[n - 16..n - 8] == U64Bytes(DataSize(es) + 4 + |Filter(hash, es)|) && f[n - 8..] == U64Bytes(DataSize(es))
  {
    FileParts(hash, es);
  }

  /** The sizes of a file that fits its format. */
  lemma FileSizes(hash: Bytes -> u32, es: seq<Entry<Bytes>>)
    requires FitsTable(es)
    ensures |Filter(hash, es)| < TWO32 && |Index(es)| < TWO32
    ensures DataSize(es) + 4 + |Filter(hash, es)| < TWO63
  {
    hide FileBytes, Filter, Index, DataSize;
    DataSizeBound(es);
    FilterSizeFits(|es|);
    IndexOffsets(es);
  }

  /** The limit in the footer is the end of the data block. */
  lemma LimitOfFile(hash: Bytes -> u32, es: seq<Entry<Bytes>>)
    requires FitsTable(es)
    ensures Limit(FileBytes(hash, es)) == DataSize(es)
  {
    hide FileBytes, U64At, U64Bytes, DataSize, Filter;
    FileFooter(hash, es);
    FileSizes(hash, es);
    U64RoundTrip(DataSize(es));
  }

  /** Iterator and ReadAll yield exactly the entries, and stop at the filter offset. */
  lemma TableRoundTrip(hash: Bytes -> u32, es: seq<Entry<Bytes>>)
    requires FitsTable(es)
    ensures TableEntries(FileBytes(hash, es)) == es
    ensures TableStop(FileBytes(hash, es)) == AtLimit
  {
    hide FileBytes, Holds, DataSize, Scan, ScanStop, Limit, Index, IndexEntriesBytes, Filter;
    var f := FileBytes(hash, es);
    FileParts(hash, es);
    LimitOfFile(hash, es);
    OffsetStep(es, 0);
    ScanWritten(es, f, 0);
    assert es[0..] == es;
  }

  /** The reads of loadIndex, one by one. */
  lemma LoadReads(data: Bytes, indexAt: nat, filterAt: nat, bits: Bytes, index: seq<IndexEntry>)
    requires |data| >= FOOTER && indexAt < TWO63 && filterAt < TWO63
    requires U64At(data[|data| - 16..|data| - 8]) == indexAt && U64At(data[|data| - 8..]) == filterAt
    requires |bits| < TWO32 && |index| < TWO32
    requires ReadU32(data, filterAt) == Got(|bits|) && ReadFull(data, filterAt + 4, |bits|) == Got(bits)
    requires ReadU32(data, indexAt) == Got(|index|) && ReadIndex(data, indexAt + 4, |index|) == Some(index)
    ensures Load(data) == Loaded(index, Some(bits))
  {
    hide ReadIndex, ReadU32, ReadFull, U64At;
  }

  /** loadIndex recovers exactly the index and the filter that were built. */
  lemma LoadRoundTrip(hash: Bytes -> u32, es: seq<Entry<Bytes>>)
    requires FitsTable(es)
    ensures Load(FileBytes(hash, es)) == Loaded(Index(es), Some(Filter(hash, es)))
  {
    hide FileBytes, Holds, DataSize, ReadIndex, Index, IndexEntriesBytes, Filter, U32Bytes, U64Bytes, U64At, ReadU32,
      ReadFull, Load;
    var f, index, bits := FileBytes(hash, es), Index(es), Filter(hash, es);
    var filterAt, indexAt := DataSize(es), DataSize(es) + 4 + |bits|;
    FileParts(hash, es);
    FileSizes(hash, es);
    U64RoundTrip(filterAt);
    U64RoundTrip(indexAt);
    IndexOfFittingEntries(es);
    ReadHeldU32(f, filterAt, |bits|);
    ReadHeld(f, filterAt + 4, bits);
    ReadHeldU32(f, indexAt, |index|);
    NoIndexEntries();
    IndexRead(f, indexAt + 4, index, 0);
    assert index[..0] == [] && index[0..] == index;
    LoadReads(f, indexAt, filterAt, bits, index);
  }
}
