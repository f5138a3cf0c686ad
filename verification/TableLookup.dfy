/** Point lookup in a table file: filter, sparse index, forward scan. */
module TableLookup {
  import opened ByteStrings
  import opened Entries
  import opened Bloom
  import opened SsTable
  import opened SsTableRoundTrip

  // ---------- the lookup, for any bytes ----------

  /** The forward scan. It knows no limit: it ends at a larger key or at a read error. */
  function ScanFor(data: Bytes, pos: nat, key: Bytes): Option<Bytes>
    decreases |data| - pos
  {
    match ReadU32(data, pos)
    case Got(keySize) =>
      (match ReadU32(data, pos + 4)
       case Got(valSize) =>
         (match ReadFull(data, pos + 8, keySize)
          case Got(k) =>
            if k == key then
              (match ReadFull(data, pos + 8 + keySize, valSize)
               case Got(v) => Some(v)
               case _ => None)
            else if Lt(key, k) then None
            else ScanFor(data, pos + 8 + keySize + valSize, key)
          case _ => None)
       case _ => None)
    case _ => None
  }

  /** How many records the scan compares its key with. */
  function ScanCount(data: Bytes, pos: nat, key: Bytes): nat
    decreases |data| - pos
  {
    match ReadU32(data, pos)
    case Got(keySize) =>
      (match ReadU32(data, pos + 4)
       case Got(valSize) =>
         (match ReadFull(data, pos + 8, keySize)
          case Got(k) => if k == key || Lt(key, k) then 1 else 1 + ScanCount(data, pos + 8 + keySize + valSize, key)
          case _ => 0)
       case _ => 0)
    case _ => 0
  }

  ghost predicate SortedIndex(index: seq<IndexEntry>) {
    forall i, j :: 0 <= i < j < |index| ==> Lt(index[i].key, index[j].key)
  }

  /** The offset of the last index entry that is not above the key, or 0. */
  function IndexOffset(index: seq<IndexEntry>, key: Bytes): int {
    if index == [] then 0
    else if !Lt(key, index[|index| - 1].key) then index[|index| - 1].offset
    else IndexOffset(index[..|index| - 1], key)
  }

  /** A filter whose bit count is a multiple of 2^32 would divide by zero. */
  predicate UsableFilter(filter: Option<Bytes>) {
    filter.Some? && filter.value != [] ==> BitLength(filter.value) != 0
  }

  ghost function Lookup(hash: Bytes -> u32, index: seq<IndexEntry>, filter: Option<Bytes>, data: Bytes, key: Bytes)
    : Option<Bytes>
    requires UsableFilter(filter)
  {
    if filter.Some? && !Contains(filter.value, hash(key)) then None
    else
      var start := IndexOffset(index, key);
      if start < 0 then None else ScanFor(data, start, key)
  }

  // ---------- where the index leads ----------

  /** The positions of the records that have an index entry. */
  function Positions(es: seq<Entry<Bytes>>): (ps: seq<nat>)
    ensures forall i :: 0 <= i < |ps| ==> ps[i] < |es|
    ensures forall i, j :: 0 <= i < j < |ps| ==> ps[i] < ps[j]
    ensures es != [] ==> ps != []
  {
    if es == [] then []
    else
      var pre := es[..|es| - 1];
      if StartsInterval(DataSize(pre), LastIndexPos(pre)) then Positions(pre) + [|pre|] else Positions(pre)
  }

  ghost predicate IndexAt(es: seq<Entry<Bytes>>, index: seq<IndexEntry>, ps: seq<nat>, i: nat) {
    i < |ps| == |index| && ps[i] < |es| && index[i] == IndexEntry(es[ps[i]].key, Offset(es, ps[i]))
  }

  lemma OffsetInPrefix(es: seq<Entry<Bytes>>, i: nat)
    requires es != [] && i < |es|
    ensures Offset(es, i) == Offset(es[..|es| - 1], i)
  {
    assert es[..|es| - 1][..i] == es[..i];
  }

  /** Index entries belong to records; the first one to the first record. */
  lemma {:induction false} PositionsOfIndex(es: seq<Entry<Bytes>>)
    ensures |Positions(es)| == |Index(es)|
    ensures forall i :: 0 <= i < |Positions(es)| ==> IndexAt(es, Index(es), Positions(es), i)
    ensures es != [] ==> Positions(es)[0] == 0
  {
    if es != [] {
      var pre, ps := es[..|es| - 1], Positions(es);
      PositionsOfIndex(pre);
      assert pre == [] ==> Positions(pre) == [];
      forall i | 0 <= i < |ps| ensures IndexAt(es, Index(es), ps, i) {
        OffsetInPrefix(es, ps[i]);
        OffsetStep(pre, 0);
        assert i < |Positions(pre)| ==> IndexAt(pre, Index(pre), Positions(pre), i);
      }
    }
  }

  /** The builder's last index position is the offset of the last indexed record. */
  lemma {:induction false} LastPosition(es: seq<Entry<Bytes>>)
    requires es != []
    ensures LastIndexPos(es) == Offset(es, Positions(es)[|Positions(es)| - 1])
  {
    var pre, ps := es[..|es| - 1], Positions(es);
    OffsetInPrefix(es, ps[|ps| - 1]);
    OffsetStep(pre, 0);
    if pre != [] {
      LastPosition(pre);
    }
  }

  /** Record r belongs to interval i: at or after its index entry, before the next one. */
  ghost predicate InInterval(es: seq<Entry<Bytes>>, i: nat, r: nat) {
    var ps := Positions(es);
    i < |ps| && ps[i] <= r < |es| && (i + 1 < |ps| ==> r < ps[i + 1])
  }

  /** Every record starts less than 1024 bytes after the index entry of its interval. */
  lemma {:induction false} IntervalsAreShort(es: seq<Entry<Bytes>>, i: nat, r: nat)
    requires InInterval(es, i, r)
    ensures Offset(es, r) < Offset(es, Positions(es)[i]) + 1024
  {
    var pre, ps := es[..|es| - 1], Positions(es);
    OffsetInPrefix(es, r);
    OffsetInPrefix(es, ps[i]);
    OffsetStep(pre, 0);
    if r < |pre| {
      IntervalsAreShort(pre, i, r);
    } else if pre != [] {
      LastPosition(pre);
    }
  }

  /** Index entries are at least 1024 bytes apart. */
  lemma {:induction false} IndexSpacing(es: seq<Entry<Bytes>>, i: nat)
    requires 0 < i < |Positions(es)|
    ensures Offset(es, Positions(es)[i]) >= Offset(es, Positions(es)[i - 1]) + 1024
  {
    var pre, ps := es[..|es| - 1], Positions(es);
    OffsetInPrefix(es, ps[i]);
    OffsetInPrefix(es, ps[i - 1]);
    OffsetStep(pre, 0);
    OffsetsMonotone(pre, 0, |pre|);
    if i < |Positions(pre)| {
      IndexSpacing(pre, i);
    } else {
      LastPosition(pre);
    }
  }

  // ---------- the scan over the records of a table ----------

  /** The first record that is not below the key. */
  function FirstNotBelow(es: seq<Entry<Bytes>>, key: Bytes): (t: nat)
    ensures t <= |es| && (t < |es| ==> !Lt(es[t].key, key))
    ensures forall j :: 0 <= j < t ==> Lt(es[j].key, key)
  {
    if es == [] || !Lt(es[0].key, key) then 0 else 1 + FirstNotBelow(es[1..], key)
  }

  /** Looking at one record. */
  lemma ScanOne(es: seq<Entry<Bytes>>, data: Bytes, i: nat, key: Bytes)
    requires i < |es| && Holds(data, 0, DataBytes(es)) && Fits(es[i])
    ensures ScanFor(data, Offset(es, i), key) ==
      if es[i].key == key then Some(es[i].val)
      else if Lt(key, es[i].key) then None
      else ScanFor(data, Offset(es, i + 1), key)
    ensures ScanCount(data, Offset(es, i), key) ==
      if es[i].key == key || Lt(key, es[i].key) then 1 else 1 + ScanCount(data, Offset(es, i + 1), key)
  {
    hide DataBytes, DataSize, RecordBytes, Holds, ReadU32, ReadFull, Lt;
    RecordHeld(es, data, i);
    NextWritten(data, Offset(es, i), es[i]);
    OffsetStep(es, i);
  }

  /** Records below the key are skipped. */
  lemma {:induction false} ScanSkips(es: seq<Entry<Bytes>>, data: Bytes, a: nat, t: nat, key: Bytes)
    requires a <= t <= |es| && Holds(data, 0, DataBytes(es))
    requires forall j :: a <= j < t ==> Fits(es[j]) && Lt(es[j].key, key)
    ensures ScanFor(data, Offset(es, a), key) == ScanFor(data, Offset(es, t), key)
    ensures ScanCount(data, Offset(es, a), key) == t - a + ScanCount(data, Offset(es, t), key)
    decreases t - a
  {
    hide DataBytes, Offset, Holds, ScanFor, ScanCount;
    if a < t {
      LtAsymmetric(es[a].key, key);
      LtIrreflexive(key);
      ScanOne(es, data, a, key);
      ScanSkips(es, data, a + 1, t, key);
    }
  }

  /** Where the index sends a search: to a record with nothing but smaller keys before it. */
  lemma {:induction false} IndexChoice(index: seq<IndexEntry>, key: Bytes)
    ensures (forall j :: 0 <= j < |index| ==> Lt(key, index[j].key)) ==> IndexOffset(index, key) == 0
    ensures (exists j :: 0 <= j < |index| && !Lt(key, index[j].key)) ==>
      exists i :: 0 <= i < |index| && Chosen(index, key, i)
  {
    if index != [] {
      var n := |index| - 1;
      if !Lt(key, index[n].key) {
        assert Chosen(index, key, n);
      } else {
        IndexChoice(index[..n], key);
        if exists j :: 0 <= j < n && !Lt(key, index[j].key) {
          var j :| 0 <= j < n && !Lt(key, index[j].key);
          assert !Lt(key, index[..n][j].key);
          var i :| 0 <= i < n && Chosen(index[..n], key, i);
          assert Chosen(index, key, i);
        }
      }
    }
  }

  ghost predicate Chosen(index: seq<IndexEntry>, key: Bytes, i: nat) {
    i < |index| && !Lt(key, index[i].key) && IndexOffset(index, key) == index[i].offset
    && forall j :: i < j < |index| ==> Lt(key, index[j].key)
  }

  /** Record a is where the search of key starts, in interval i of the index. */
  ghost predicate SearchStarts(es: seq<Entry<Bytes>>, key: Bytes, a: nat) {
    && a <= FirstNotBelow(es, key) && a < |es|
    && IndexOffset(Index(es), key) == Offset(es, a)
    && FirstNotBelow(es, key) - a <= 128
  }

  /** The search that starts at the record of index entry i. */
  lemma StartOfInterval(es: seq<Entry<Bytes>>, key: Bytes, i: nat)
    requires Sorted(es) && Chosen(Index(es), key, i)
    ensures i < |Positions(es)| && SearchStarts(es, key, Positions(es)[i])
  {
    hide Index, Sorted, LastIndexPos, DataSize;
    var index, ps, t := Index(es), Positions(es), FirstNotBelow(es, key);
    PositionsOfIndex(es);
    assert IndexAt(es, index, ps, i);
    var a := ps[i];
    StartNotAfter(es, key, a);
    if t > a {
      if i + 1 < |ps| {
        assert IndexAt(es, index, ps, i + 1);
        LtAsymmetric(key, es[ps[i + 1]].key);
      }
      IntervalsAreShort(es, i, t - 1);
      OffsetsMonotone(es, a, t - 1);
    }
  }

  lemma IndexLeadsBefore(es: seq<Entry<Bytes>>, key: Bytes) returns (a: nat)
    requires Sorted(es) && es != []
    ensures SearchStarts(es, key, a)
  {
    hide Positions, Index, Sorted, DataSize;
    var index, ps := Index(es), Positions(es);
    PositionsOfIndex(es);
    IndexChoice(index, key);
    OffsetStep(es, 0);
    if exists j :: 0 <= j < |index| && !Lt(key, index[j].key) {
      var i :| 0 <= i < |index| && Chosen(index, key, i);
      StartOfInterval(es, key, i);
      a := ps[i];
    } else {
      a := 0;
      assert IndexAt(es, index, ps, 0);
      LtAsymmetric(key, es[0].key);
    }
  }

  /** A record that is not above the key does not come after the first one not below it. */
  lemma StartNotAfter(es: seq<Entry<Bytes>>, key: Bytes, a: nat)
    requires Sorted(es) && a < |es| && !Lt(key, es[a].key)
    ensures a <= FirstNotBelow(es, key)
  {
    var t := FirstNotBelow(es, key);
    if t < a {
      LtTotal(es[t].key, key);
      if Lt(key, es[t].key) {
        LtTransitive(key, es[t].key, es[a].key);
      }
    }
  }

  // ---------- the lookup in a table that was built ----------

  /** The key is not above the last one, or the filter rejects it. */
  ghost predicate SafeProbe(hash: Bytes -> u32, es: seq<Entry<Bytes>>, key: Bytes)
    requires KeysFit(|es|)
  {
    FilterSizeFits(|es|);
    (es != [] && !Lt(es[|es| - 1].key, key)) || !Contains(Filter(hash, es), hash(key))
  }

  /** What Reader.Get computes on the file of a table. */
  ghost function TableGet(hash: Bytes -> u32, es: seq<Entry<Bytes>>, key: Bytes): Option<Bytes>
    requires KeysFit(|es|)
  {
    FilterSizeFits(|es|);
    Lookup(hash, Index(es), Some(Filter(hash, es)), FileBytes(hash, es), key)
  }

  lemma {:induction false} HashesAt(hash: Bytes -> u32, es: seq<Entry<Bytes>>, i: nat)
    requires KeysFit(|es|) && i < |es|
    ensures BitLength(Filter(hash, es)) != 0
    ensures Contains(Filter(hash, es), hash(es[i].key))
  {
    FilterSizeFits(|es|);
    assert Hashes(hash, es)[i] == hash(es[i].key);
    NoFalseNegatives(Zeros(FilterSize(|es|)), Hashes(hash, es), hash(es[i].key));
  }

  /** An empty table has a filter that rejects every key. */
  lemma EmptyFilterRejects(hash: Bytes -> u32, key: Bytes)
    ensures BitLength(Filter(hash, [])) != 0 && !Contains(Filter(hash, []), hash(key))
  {
    FilterSizeFits(0);
    var bits := Filter(hash, []);
    assert bits == Zeros(FilterSize(0));
    assert !TestBit(bits, Probe(bits, hash(key), 0));
  }

  /** Membership of a key in a sorted run, seen from the first record not below it. */
  lemma FirstNotBelowFinds(es: seq<Entry<Bytes>>, key: Bytes)
    requires Sorted(es)
    ensures var t := FirstNotBelow(es, key);
      && (key in ToMap(es) <==> t < |es| && es[t].key == key)
      && (t < |es| && es[t].key == key ==> ToMap(es)[key] == es[t].val)
      && (t < |es| && es[t].key != key ==> Lt(key, es[t].key))
      && (t < |es| <==> es != [] && !Lt(es[|es| - 1].key, key))
  {
    hide FirstNotBelow, Lt, ToMap;
    var t := FirstNotBelow(es, key);
    SortedLookup(es);
    LtIrreflexive(key);
    if t < |es| {
      LtTotal(es[t].key, key);
      NotBelowToEnd(es, key, t);
    }
    if key in ToMap(es) {
      var j :| 0 <= j < |es| && es[j].key == key;
      StartNotAfter(es, key, j);
      if t < j {
        SortedPair(es, t, j);
      }
    }
  }

  lemma SortedPair(es: seq<Entry<Bytes>>, i: nat, j: nat)
    requires Sorted(es) && i < j < |es|
    ensures Lt(es[i].key, es[j].key)
  {
  }

  lemma NotBelowToEnd(es: seq<Entry<Bytes>>, key: Bytes, t: nat)
    requires Sorted(es) && t < |es| && !Lt(es[t].key, key)
    ensures !Lt(es[|es| - 1].key, key)
  {
    if t < |es| - 1 && Lt(es[|es| - 1].key, key) {
      LtTransitive(es[t].key, es[|es| - 1].key, key);
    }
  }

  // ---------- behind the data block ----------

  lemma FilterHasFourBytes(hash: Bytes -> u32, es: seq<Entry<Bytes>>)
    requires KeysFit(|es|)
    ensures |Filter(hash, es)| >= 4
  {
  }

  /** What a scan that runs into the filter block takes for the next record's key: the rest of
      the filter, and the first field of the index block. */
  function TrailerKey(hash: Bytes -> u32, es: seq<Entry<Bytes>>): Bytes
    requires KeysFit(|es|)
  {
    FilterHasFourBytes(hash, es);
    Filter(hash, es)[4..] + U32Bytes(|Index(es)|)
  }

  /** Where that record's value starts and ends; its size is the first bytes of the filter. */
  function TrailerValue(hash: Bytes -> u32, es: seq<Entry<Bytes>>): (nat, nat)
    requires KeysFit(|es|)
  {
    FilterHasFourBytes(hash, es);
    var start: nat := DataSize(es) + 8 + |Filter(hash, es)|;
    (start, start + U32At(Filter(hash, es)[..4]))
  }

  /** That value would end behind the end of the file. */
  ghost predicate SkipsPastEnd(hash: Bytes -> u32, es: seq<Entry<Bytes>>)
    requires KeysFit(|es|)
  {
    TrailerValue(hash, es).1 > |FileBytes(hash, es)|
  }

  /** The four reads behind the last record. */
  lemma TrailerReads(hash: Bytes -> u32, es: seq<Entry<Bytes>>)
    requires FitsTable(es)
    ensures var f := FileBytes(hash, es); var n := |Filter(hash, es)|; var (start, end) := TrailerValue(hash, es);
      && 4 <= n < TWO32 && ReadU32(f, DataSize(es)) == Got(n) && start <= |f|
      && ReadU32(f, DataSize(es) + 4) == Got(U32At(Filter(hash, es)[..4]))
      && ReadFull(f, DataSize(es) + 8, n) == Got(TrailerKey(hash, es)) && end - start == U32At(Filter(hash, es)[..4])
  {
    hide FileBytes, Filter, Index, IndexEntriesBytes, U32Bytes, U64Bytes, U32At, DataSize, DataBytes;
    var f, bits, at, count := FileBytes(hash, es), Filter(hash, es), DataSize(es), U32Bytes(|Index(es)|);
    FilterHasFourBytes(hash, es);
    FileParts(hash, es);
    FileSizes(hash, es);
    ReadHeldU32(f, at, |bits|);
    TrailerCut(f, at + 4, bits, count);
    assert ReadFull(f, at + 4, 4) == Got(bits[..4]);
    assert ReadFull(f, at + 8, |bits|) == Got(bits[4..] + count);
  }

  lemma TrailerCut(f: Bytes, pos: nat, bits: Bytes, count: Bytes)
    requires |bits| >= 4 && |count| == 4 && Holds(f, pos, bits) && Holds(f, pos + |bits|, count)
    ensures pos + |bits| + 4 <= |f|
    ensures f[pos..pos + 4] == bits[..4] && f[pos + 4..pos + 4 + |bits|] == bits[4..] + count
  {
    var n := |bits|;
    assert f[pos..pos + 4] == f[pos..pos + n][..4];
    assert f[pos + 4..pos + n] == f[pos..pos + n][4..];
    assert f[pos + 4..pos + 4 + n] == f[pos + 4..pos + n] + f[pos + n..pos + n + 4];
  }

  /** The scan from the end of the data block on. */
  lemma ScanPastData(hash: Bytes -> u32, es: seq<Entry<Bytes>>, key: Bytes)
    requires FitsTable(es)
    ensures var f := FileBytes(hash, es); var (start, end) := TrailerValue(hash, es);
      ScanFor(f, DataSize(es), key) ==
        if SkipsPastEnd(hash, es) || Lt(key, TrailerKey(hash, es)) then None
        else if key == TrailerKey(hash, es) then Some(f[start..end])
        else ScanFor(f, end, key)
  {
    hide FileBytes, Filter, DataSize, U32At, TrailerKey, Lt;
    TrailerReads(hash, es);
    LtIrreflexive(key);
  }

  /** The lookup finds the key, or nothing, as the table's map says: the key is stored, or not
      above the last one, or rejected by the filter, or below what a scan takes for the next
      record; or what it takes for that record does not fit into the file. */
  ghost predicate Safe(hash: Bytes -> u32, es: seq<Entry<Bytes>>, key: Bytes)
    requires KeysFit(|es|)
  {
    key in ToMap(es) || SafeProbe(hash, es, key) || SkipsPastEnd(hash, es) || Lt(key, TrailerKey(hash, es))
  }

  /** Reader.Get on a table built from a sorted run, in every case: for a safe key it is the
      table's map; the key behind the data block is found there; and for any other key the scan
      goes on behind that one's value. */
  lemma LookupExact(hash: Bytes -> u32, es: seq<Entry<Bytes>>, key: Bytes)
    requires Sorted(es) && FitsTable(es)
    ensures var f := FileBytes(hash, es); var (start, end) := TrailerValue(hash, es);
      TableGet(hash, es, key) ==
        if Safe(hash, es, key) then MapGet(ToMap(es), key)
        else if key == TrailerKey(hash, es) then Some(f[start..end])
        else ScanFor(f, end, key)
  {
    hide FileBytes, Filter, Contains, ScanFor, Holds, DataBytes, DataSize, Index, IndexOffset, Lt, Sorted, ToMap,
      FirstNotBelow, TrailerKey, TrailerValue;
    ProbeExact(hash, es, key);
    if !SafeProbe(hash, es, key) && key !in ToMap(es) {
      ScanPastData(hash, es, key);
    }
  }

  lemma ProbeExact(hash: Bytes -> u32, es: seq<Entry<Bytes>>, key: Bytes)
    requires Sorted(es) && FitsTable(es)
    ensures TableGet(hash, es, key) ==
      if SafeProbe(hash, es, key) || key in ToMap(es) then MapGet(ToMap(es), key)
      else ScanFor(FileBytes(hash, es), DataSize(es), key)
  {
    hide FileBytes, Filter, Contains, ScanFor, Holds, DataBytes, DataSize, Index, IndexOffset, Lt, Sorted, ToMap,
      FirstNotBelow;
    FilterSizeFits(|es|);
    FirstNotBelowFinds(es, key);
    var t := FirstNotBelow(es, key);
    if key in ToMap(es) {
      HashesAt(hash, es, t);
    }
    if es == [] {
      EmptyFilterRejects(hash, key);
    } else if Contains(Filter(hash, es), hash(key)) {
      FileParts(hash, es);
      var a := IndexLeadsBefore(es, key);
      ScanSkips(es, FileBytes(hash, es), a, t, key);
      OffsetStep(es, 0);
      if t < |es| {
        ScanOne(es, FileBytes(hash, es), t, key);
      }
    }
  }

  /** If what a scan takes for a record behind the data block does not fit into the file, the
      lookup is right for every key. */
  lemma LookupCorrect(hash: Bytes -> u32, es: seq<Entry<Bytes>>, key: Bytes)
    requires Sorted(es) && FitsTable(es) && SkipsPastEnd(hash, es)
    ensures TableGet(hash, es, key) == MapGet(ToMap(es), key)
  {
    LookupExact(hash, es, key);
  }

  /** If it does fit, that record's key is found unless it is not above the last key or the
      filter rejects it, for any hash. */
  lemma PhantomIff(hash: Bytes -> u32, es: seq<Entry<Bytes>>)
    requires Sorted(es) && FitsTable(es)
    ensures var key := TrailerKey(hash, es);
      TableGet(hash, es, key) != MapGet(ToMap(es), key) <==> !SkipsPastEnd(hash, es) && !SafeProbe(hash, es, key)
  {
    hide FileBytes, Filter, Contains, TableGet, TrailerKey, TrailerValue, Lt, ToMap, SkipsPastEnd;
    var key := TrailerKey(hash, es);
    LookupExact(hash, es, key);
    LtIrreflexive(key);
    if key in ToMap(es) && es != [] {
      LastKeyIsMaximum(es, key);
      LtAsymmetric(key, es[|es| - 1].key);
    }
    EmptyMap(es);
  }

  lemma EmptyMap(es: seq<Entry<Bytes>>)
    ensures es == [] ==> ToMap(es) == map[]
  {
  }

  /** A lookup of a key that is not above the last one compares at most 129 records. */
  lemma LookupIsShort(hash: Bytes -> u32, es: seq<Entry<Bytes>>, key: Bytes)
    requires Sorted(es) && FitsTable(es) && es != [] && !Lt(es[|es| - 1].key, key)
    ensures IndexOffset(Index(es), key) >= 0
    ensures ScanCount(FileBytes(hash, es), IndexOffset(Index(es), key), key) <= 129
  {
    hide FileBytes, ScanCount, Holds, DataBytes, Index, IndexOffset, Lt, Sorted, ToMap, FirstNotBelow;
    FirstNotBelowFinds(es, key);
    var t := FirstNotBelow(es, key);
    var a := IndexLeadsBefore(es, key);
    FileParts(hash, es);
    ScanSkips(es, FileBytes(hash, es), a, t, key);
    ScanOne(es, FileBytes(hash, es), t, key);
  }
}
