/** The k-way merge: sorted runs, newest first, into one sorted run where the newest entry
    of each key wins. */
module Merging {
  import opened ByteStrings
  import opened Disk
  import opened Entries
  import opened Bloom
  import opened SsTable
  import opened Tables
  import opened MergeHeaps

  type Stream = seq<Entry<Bytes>>

  /** Runs are listed newest first; of several entries for a key the newest run's counts. */
  function NewestWins(runs: seq<Stream>): map<Bytes, Bytes> {
    if runs == [] then map[] else NewestWins(runs[1..]) + ToMap(runs[0])
  }

  /** Stream i is the newest one that has the key. */
  ghost predicate NewestWith(runs: seq<Stream>, key: Bytes, i: nat) {
    i < |runs| && key in ToMap(runs[i]) && forall j :: 0 <= j < i ==> key !in ToMap(runs[j])
  }

  lemma {:induction false} NewestWinsAt(runs: seq<Stream>, key: Bytes, i: nat)
    requires NewestWith(runs, key, i)
    ensures key in NewestWins(runs) && NewestWins(runs)[key] == ToMap(runs[i])[key]
  {
    if i > 0 {
      assert runs[1..][i - 1] == runs[i];
      assert forall j :: 0 <= j < i - 1 ==> runs[1..][j] == runs[j + 1];
      NewestWinsAt(runs[1..], key, i - 1);
    }
  }

  lemma {:induction false} NewestWinsKeys(runs: seq<Stream>, key: Bytes)
    ensures key in NewestWins(runs) <==> exists i: nat :: NewestWith(runs, key, i)
  {
    if runs != [] {
      NewestWinsKeys(runs[1..], key);
      if key in ToMap(runs[0]) {
        assert NewestWith(runs, key, 0);
      } else {
        if i: nat :| NewestWith(runs[1..], key, i) {
          assert NewestWith(runs, key, i + 1) by {
            assert runs[i + 1] == runs[1..][i];
            assert forall j :: 0 < j < i + 1 ==> runs[j] == runs[1..][j - 1];
          }
        }
        if i: nat :| NewestWith(runs, key, i) {
          assert NewestWith(runs[1..], key, i - 1) by {
            assert runs[i] == runs[1..][i - 1];
          }
        }
      }
    }
  }

  lemma AgreeOffUnion(a: map<Bytes, Bytes>, b: map<Bytes, Bytes>, m: map<Bytes, Bytes>, key: Bytes)
    requires a - {key} == b - {key}
    ensures (a + m) - {key} == (b + m) - {key} && (m + a) - {key} == (m + b) - {key}
  {
    assert forall k :: k in (a - {key}) <==> k in a && k != key;
    assert forall k :: k in (b - {key}) <==> k in b && k != key;
    assert forall k :: k != key && k in a ==> a[k] == (a - {key})[k] == (b - {key})[k] == b[k];
  }

  /** Changing one run only at one key changes the union at most at that key. */
  lemma {:induction false} NewestWinsUpdate(runs: seq<Stream>, i: nat, run: Stream, key: Bytes)
    requires i < |runs| && ToMap(run) == ToMap(runs[i]) - {key}
    ensures NewestWins(runs[i := run]) - {key} == NewestWins(runs) - {key}
  {
    hide ToMap;
    if i == 0 {
      assert runs[i := run][1..] == runs[1..];
      AgreeOffUnion(ToMap(run), ToMap(runs[0]), NewestWins(runs[1..]), key);
    } else {
      assert runs[i := run][1..] == runs[1..][i - 1 := run];
      NewestWinsUpdate(runs[1..], i - 1, run, key);
      AgreeOffUnion(NewestWins(runs[1..][i - 1 := run]), NewestWins(runs[1..]), ToMap(runs[0]), key);
    }
  }

  lemma {:induction false} NothingLeft(runs: seq<Stream>)
    requires forall i :: 0 <= i < |runs| ==> runs[i] == []
    ensures NewestWins(runs) == map[]
  {
    if runs != [] {
      NothingLeft(runs[1..]);
    }
  }

  lemma FirstIsLeast(run: Stream)
    requires Sorted(run) && run != []
    ensures forall k :: k in ToMap(run) ==> k == run[0].key || Lt(run[0].key, k)
    ensures forall i :: 0 < i < |run| ==> run[i].key != run[0].key
    ensures run[0].key in ToMap(run) && ToMap(run)[run[0].key] == run[0].val
  {
    LtIrreflexive(run[0].key);
    SortedLookup(run);
  }

  /** Dropping the first entry of a sorted run. */
  lemma DropFirst(run: Stream)
    requires Sorted(run) && run != []
    ensures Sorted(run[1..]) && ToMap(run[1..]) == ToMap(run) - {run[0].key}
    ensures run[0].key in ToMap(run) && ToMap(run)[run[0].key] == run[0].val
    ensures forall k :: k in ToMap(run) ==> k == run[0].key || Lt(run[0].key, k)
  {
    hide Lt;
    FirstIsLeast(run);
    var first, rest := [run[0]], run[1..];
    ToMapConcat(first, rest);
    assert run == first + rest;
    assert first[..0] == [];
    assert ToMap(first) == map[run[0].key := run[0].val];
    NotWritten(rest, run[0].key);
  }

  // ---------- the invariant of the merge ----------

  function HeadOf(pending: seq<Stream>, i: nat): Item
    requires i < |pending| && pending[i] != []
  {
    Item(pending[i][0].key, pending[i][0].val, i)
  }

  ghost predicate AllSorted(runs: seq<Stream>) {
    forall i :: 0 <= i < |runs| ==> Sorted(runs[i])
  }

  ghost predicate NotBelow(runs: seq<Stream>, key: Bytes) {
    forall i, k :: 0 <= i < |runs| && k in ToMap(runs[i]) ==> !Lt(k, key)
  }

  /** What has been written, together with what is still pending, is the union. */
  ghost predicate Halfway(union: map<Bytes, Bytes>, pending: seq<Stream>, out: Stream) {
    && AllSorted(pending) && Sorted(out)
    && (out != [] ==> NotBelow(pending, out[|out| - 1].key))
    && union == NewestWins(pending) + ToMap(out)
  }

  /** The head of pending run i is at most the head of every other. */
  ghost predicate LeastHead(pending: seq<Stream>, i: nat) {
    && i < |pending| && pending[i] != []
    && forall j :: 0 <= j < |pending| && pending[j] != [] ==> AtMost(HeadOf(pending, i), HeadOf(pending, j))
  }

  /** The least head is not above any pending key, and its run is the newest that has it. */
  lemma LeastHeadIsNewest(pending: seq<Stream>, i: nat)
    requires AllSorted(pending) && LeastHead(pending, i)
    ensures NotBelow(pending, pending[i][0].key)
    ensures NewestWith(pending, pending[i][0].key, i)
  {
    var key := pending[i][0].key;
    DropFirst(pending[i]);
    LtIrreflexive(key);
    forall j, k | 0 <= j < |pending| && k in ToMap(pending[j])
      ensures !Lt(k, key)
      ensures k == key ==> i <= j
    {
      DropFirst(pending[j]);
      AtMostIs(HeadOf(pending, i), HeadOf(pending, j));
      LtAsymmetric(key, k);
      var h := pending[j][0].key;
      if Lt(key, h) && h != k {
        LtTransitive(key, h, k);
      }
    }
  }

  lemma PendingAfter(pending: seq<Stream>, i: nat, key: Bytes)
    requires AllSorted(pending) && i < |pending| && pending[i] != [] && NotBelow(pending, key)
    ensures AllSorted(pending[i := pending[i][1..]]) && NotBelow(pending[i := pending[i][1..]], key)
  {
    DropFirst(pending[i]);
  }

  /** The least head repeats the last key written: an older version, which is skipped. */
  lemma SkipOlder(union: map<Bytes, Bytes>, pending: seq<Stream>, out: Stream, i: nat)
    requires Halfway(union, pending, out) && LeastHead(pending, i)
    requires out != [] && out[|out| - 1].key == pending[i][0].key
    ensures Halfway(union, pending[i := pending[i][1..]], out)
  {
    hide NewestWins, Sorted, AtMost, NotBelow;
    var key, pending' := pending[i][0].key, pending[i := pending[i][1..]];
    PendingAfter(pending, i, key);
    DropFirst(pending[i]);
    NewestWinsUpdate(pending, i, pending[i][1..], key);
    SortedLookup(out);
    var a, b := NewestWins(pending'), NewestWins(pending);
    SameButAt(a, b, key, ToMap(out));
  }

  lemma SameButAt(a: map<Bytes, Bytes>, b: map<Bytes, Bytes>, key: Bytes, over: map<Bytes, Bytes>)
    requires a - {key} == b - {key} && key in over
    ensures a + over == b + over
  {
    assert forall k :: k in (a - {key}) <==> k in a && k != key;
    assert forall k :: k in (b - {key}) <==> k in b && k != key;
    assert forall k :: k != key && k in a ==> a[k] == (a - {key})[k] == (b - {key})[k] == b[k];
  }

  /** The least head is a new key: it is written. */
  lemma WriteNewest(union: map<Bytes, Bytes>, pending: seq<Stream>, out: Stream, i: nat)
    requires Halfway(union, pending, out) && LeastHead(pending, i)
    requires out != [] ==> out[|out| - 1].key != pending[i][0].key
    ensures Halfway(union, pending[i := pending[i][1..]], out + [pending[i][0]])
  {
    hide NewestWins, AtMost;
    var e, key, pending' := pending[i][0], pending[i][0].key, pending[i := pending[i][1..]];
    LeastHeadIsNewest(pending, i);
    PendingAfter(pending, i, key);
    DropFirst(pending[i]);
    NewestWinsUpdate(pending, i, pending[i][1..], key);
    NewestWinsAt(pending, key, i);
    AppendLarger(out, e, pending, i);
    SameButAt(NewestWins(pending'), NewestWins(pending), key, ToMap(out)[key := e.val]);
    WrittenEarlier(out, key);
    assert ToMap(out + [e]) == ToMap(out)[key := e.val] by {
      assert (out + [e])[..|out|] == out;
    }
  }

  lemma AppendLarger(out: Stream, e: Entry<Bytes>, pending: seq<Stream>, i: nat)
    requires Sorted(out) && i < |pending| && e.key in ToMap(pending[i])
    requires out != [] ==> NotBelow(pending, out[|out| - 1].key) && out[|out| - 1].key != e.key
    ensures forall j :: 0 <= j < |out| ==> Lt(out[j].key, e.key)
    ensures Sorted(out + [e])
  {
    if out != [] {
      var last := out[|out| - 1].key;
      LtTotal(last, e.key);
      forall j | 0 <= j < |out| ensures Lt(out[j].key, e.key) {
        if j < |out| - 1 {
          LtTransitive(out[j].key, last, e.key);
        }
      }
    }
  }

  lemma WrittenEarlier(out: Stream, key: Bytes)
    requires forall j :: 0 <= j < |out| ==> Lt(out[j].key, key)
    ensures key !in ToMap(out)
  {
    LtIrreflexive(key);
    NotWritten(out, key);
  }

  // ---------- the heap and the iterators during the merge ----------

  ghost predicate IsHead(pending: seq<Stream>, x: Item) {
    x.iterIdx < |pending| && pending[x.iterIdx] != [] && x == HeadOf(pending, x.iterIdx)
  }

  /** The heap holds the head of every non-empty pending run, once. */
  ghost predicate HeapHolds(items: multiset<Item>, pending: seq<Stream>) {
    forall x :: items[x] == if IsHead(pending, x) then 1 else 0
  }

  lemma HeadPushed(items: multiset<Item>, pending: seq<Stream>, i: nat, run: Stream)
    requires HeapHolds(items, pending) && i < |pending| && pending[i] == []
    ensures run == [] ==> HeapHolds(items, pending[i := run])
    ensures run != [] ==> HeapHolds(items + multiset{HeadOf(pending[i := run], i)}, pending[i := run])
  {
    forall x: Item ensures x.iterIdx != i ==> IsHead(pending[i := run], x) == IsHead(pending, x) {}
  }

  lemma HeadPopped(items: multiset<Item>, pending: seq<Stream>, x: Item)
    requires HeapHolds(items, pending) && x in items
    requires forall y :: y in items ==> AtMost(x, y)
    ensures IsHead(pending, x) && LeastHead(pending, x.iterIdx)
    ensures HeapHolds(items - multiset{x}, pending[x.iterIdx := []])
  {
    hide AtMost;
    assert items[x] > 0;
    forall j | 0 <= j < |pending| && pending[j] != [] ensures AtMost(x, HeadOf(pending, j)) {
      assert IsHead(pending, HeadOf(pending, j));
      assert items[HeadOf(pending, j)] == 1;
    }
    forall y: Item ensures y.iterIdx != x.iterIdx ==> IsHead(pending[x.iterIdx := []], y) == IsHead(pending, y) {}
  }

  lemma HeapEmpty(items: multiset<Item>, pending: seq<Stream>)
    requires HeapHolds(items, pending) && items == multiset{}
    ensures forall i :: 0 <= i < |pending| ==> pending[i] == []
  {
    forall i | 0 <= i < |pending| ensures pending[i] == [] {
      if pending[i] != [] {
        assert IsHead(pending, HeadOf(pending, i));
        assert false;
      }
    }
  }

  function TotalLength(runs: seq<Stream>): nat {
    if runs == [] then 0 else |runs[0]| + TotalLength(runs[1..])
  }

  lemma {:induction false} TotalLengthUpdate(runs: seq<Stream>, i: nat, run: Stream)
    requires i < |runs|
    ensures TotalLength(runs[i := run]) == TotalLength(runs) - |runs[i]| + |run|
  {
    if i == 0 {
      assert runs[i := run][1..] == runs[1..];
    } else {
      assert runs[i := run][1..] == runs[1..][i - 1 := run];
      TotalLengthUpdate(runs[1..], i - 1, run);
    }
  }

  /** The scan ended without an error: at its limit, or with io.EOF. */
  predicate Clean(stop: Stop) {
    stop.AtLimit? || stop.eof
  }

  ghost predicate Ready(it: TableIterator, run: Stream, stop: Stop)
    reads it
  {
    it.Rest() == run && it.Stop() == stop && it.err == None
  }

  ghost predicate Distinct<T>(s: seq<T>) {
    forall i, j :: 0 <= i < j < |s| ==> s[i] != s[j]
  }

  /** Iterators whose head is in the heap stand right behind it. */
  ghost predicate Attached(iters: seq<TableIterator>, pending: seq<Stream>, stops: seq<Stop>)
    reads iters
  {
    && |iters| == |pending| == |stops| && Distinct(iters)
    && forall i :: 0 <= i < |iters| && pending[i] != [] ==> Ready(iters[i], pending[i][1..], stops[i])
  }

  /** Moves iterator i on and pushes what it stands on, or reports its error. */
  method PushNext(h: MergeHeap, iters: seq<TableIterator>, i: nat, ghost pending: seq<Stream>, ghost stops: seq<Stop>, ghost run: Stream)
    returns (failed: bool)
    requires IsHeap(h.items) && HeapHolds(multiset(h.items), pending)
    requires Attached(iters, pending, stops) && i < |iters| && pending[i] == [] && Ready(iters[i], run, stops[i])
    modifies h, iters[i]
    ensures !failed ==> IsHeap(h.items) && HeapHolds(multiset(h.items), pending[i := run])
    ensures !failed ==> Attached(iters, pending[i := run], stops)
    ensures !failed && run == [] ==> Clean(stops[i])
    ensures failed ==> run == [] && !Clean(stops[i])
  {
    hide IsHeap, HeapHolds;
    HeadPushed(multiset(h.items), pending, i, run);
    var it := iters[i];
    var more := it.Next();
    if more {
      h.Push(Item(it.key, it.val, i));
      failed := false;
    } else {
      failed := it.Error();
    }
  }

  /** The runs the iterators stand before, and how their scans will end. */
  ghost function Streams(iters: seq<TableIterator>): (runs: seq<Stream>)
    reads iters
    ensures |runs| == |iters| && forall i :: 0 <= i < |iters| ==> runs[i] == iters[i].Rest()
  {
    seq(|iters|, i requires 0 <= i < |iters| reads iters => iters[i].Rest())
  }

  ghost function Stops(iters: seq<TableIterator>): (stops: seq<Stop>)
    reads iters
    ensures |stops| == |iters| && forall i :: 0 <= i < |iters| ==> stops[i] == iters[i].Stop()
  {
    seq(|iters|, i requires 0 <= i < |iters| reads iters => iters[i].Stop())
  }

  ghost predicate AllClean(stops: seq<Stop>) {
    forall i :: 0 <= i < |stops| ==> Clean(stops[i])
  }

  /** Exhausted runs ended cleanly. */
  ghost predicate CleanSoFar(pending: seq<Stream>, stops: seq<Stop>, n: nat) {
    n <= |pending| == |stops| && forall i :: 0 <= i < n && pending[i] == [] ==> Clean(stops[i])
  }

  /** The first loop of Merge: one item per file. */
  method Seed(h: MergeHeap, iters: seq<TableIterator>) returns (failed: bool, ghost pending: seq<Stream>)
    requires h.items == [] && Distinct(iters) && forall i :: 0 <= i < |iters| ==> iters[i].err == None
    modifies h, iters
    ensures !failed ==> pending == old(Streams(iters)) && IsHeap(h.items) && HeapHolds(multiset(h.items), pending)
    ensures !failed ==> Attached(iters, pending, old(Stops(iters))) && CleanSoFar(pending, old(Stops(iters)), |iters|)
    ensures failed ==> !AllClean(old(Stops(iters)))
  {
    ghost var streams, stops := Streams(iters), Stops(iters);
    pending := seq(|iters|, _ => []);
    var i := 0;
    while i < |iters|
      invariant i <= |iters| == |pending| == |stops| && IsHeap(h.items) && HeapHolds(multiset(h.items), pending)
      invariant Attached(iters, pending, stops) && CleanSoFar(pending, stops, i)
      invariant forall j :: 0 <= j < i ==> pending[j] == streams[j]
      invariant forall j :: i <= j < |iters| ==> pending[j] == [] && Ready(iters[j], streams[j], stops[j])
    {
      failed := PushNext(h, iters, i, pending, stops, streams[i]);
      if failed {
        return true, pending;
      }
      pending := pending[i := streams[i]];
      i := i + 1;
    }
    failed := false;
    assert pending == streams;
  }

  function LastKey(out: Stream): Option<Bytes> {
    if out == [] then None else Some(out[|out| - 1].key)
  }

  lemma LastKeyAdded(out: Stream, e: Entry<Bytes>)
    ensures LastKey(out + [e]) == Some(e.key) && |out + [e]| == |out| + 1
  {
  }

  /** Writes the item unless it is an older version of the last key written. */
  method WriteUnlessOlder(builder: Builder, item: Item, lastKey: Option<Bytes>, ghost pending: seq<Stream>, ghost union: map<Bytes, Bytes>)
    returns (newLastKey: Option<Bytes>)
    requires builder.Valid() && lastKey == LastKey(builder.entries)
    requires IsHead(pending, item) && LeastHead(pending, item.iterIdx) && Halfway(union, pending, builder.entries)
    modifies builder, builder.file
    ensures builder.Valid() && newLastKey == LastKey(builder.entries)
    ensures Halfway(union, pending[item.iterIdx := pending[item.iterIdx][1..]], builder.entries)
    ensures |builder.entries| <= old(|builder.entries|) + 1
  {
    hide Builder.Valid, LeastHead, Halfway;
    newLastKey := lastKey;
    ghost var out := builder.entries;
    if lastKey == None || lastKey.value != item.key {
      WriteNewest(union, pending, out, item.iterIdx);
      builder.Add(item.key, item.val);
      newLastKey := Some(item.key);
      LastKeyAdded(out, Entry(item.key, item.val));
    } else {
      SkipOlder(union, pending, out, item.iterIdx);
    }
  }

  /** One round of the main loop: pop, write, advance the iterator the item came from. */
  method MergeOne(h: MergeHeap, iters: seq<TableIterator>, builder: Builder, lastKey: Option<Bytes>,
                  ghost pending: seq<Stream>, ghost stops: seq<Stop>, ghost union: map<Bytes, Bytes>)
    returns (failed: bool, newLastKey: Option<Bytes>, ghost pending': seq<Stream>)
    requires h.items != [] && IsHeap(h.items) && HeapHolds(multiset(h.items), pending)
    requires Attached(iters, pending, stops) && CleanSoFar(pending, stops, |iters|)
    requires builder.Valid() && lastKey == LastKey(builder.entries) && Halfway(union, pending, builder.entries)
    modifies h, iters, builder, builder.file
    ensures failed ==> !AllClean(stops)
    ensures !failed ==> IsHeap(h.items) && HeapHolds(multiset(h.items), pending')
    ensures !failed ==> Attached(iters, pending', stops) && CleanSoFar(pending', stops, |iters|)
    ensures !failed ==> builder.Valid() && newLastKey == LastKey(builder.entries) && Halfway(union, pending', builder.entries)
    ensures !failed ==> TotalLength(pending') == TotalLength(pending) - 1
    ensures |builder.entries| <= old(|builder.entries|) + 1
  {
    hide IsHeap, HeapHolds, Halfway, LeastHead, Builder.Valid, AtMost, TotalLength, LastKey;
    ghost var items := multiset(h.items);
    var item := h.Pop();
    HeadPopped(items, pending, item);
    ghost var i, rest := item.iterIdx, pending[item.iterIdx][1..];
    TotalLengthUpdate(pending, i, rest);
    newLastKey := WriteUnlessOlder(builder, item, lastKey, pending, union);
    assert pending[i := []][i := rest] == pending[i := rest];
    failed := PushNext(h, iters, item.iterIdx, pending[i := []], stops, rest);
    pending' := pending[i := rest];
  }

  /** Merges sorted runs, newest first, into one table file. */
  method Merge(iters: seq<TableIterator>, builder: Builder) returns (ok: bool)
    requires Distinct(iters) && forall i :: 0 <= i < |iters| ==> iters[i].err == None
    requires AllSorted(Streams(iters)) && KeysFit(TotalLength(Streams(iters)))
    requires builder.Valid() && builder.entries == []
    modifies iters, builder, builder.file, builder.dir`tables
    ensures ok <==> AllClean(old(Stops(iters)))
    ensures ok ==> Sorted(builder.entries) && ToMap(builder.entries) == NewestWins(old(Streams(iters)))
    ensures ok ==> InByteOrder(builder.entries)
    ensures ok ==> KeysFit(|builder.entries|)
    ensures builder.dir.tables == if ok
      then old(builder.dir.tables)[builder.timestamp := FileBytes(builder.hash, builder.entries)]
      else old(builder.dir.tables)
  {
    hide IsHeap, HeapHolds, Builder.Valid, TotalLength, NewestWins, FileBytes, KeysFit;
    ghost var streams, stops := Streams(iters), Stops(iters);
    var h := new MergeHeap();
    var failed, pending := Seed(h, iters);
    if failed {
      return false;
    }
    MergeStarts(streams);
    var lastKey: Option<Bytes> := None;
    while h.items != []
      invariant fresh(h) && builder.Valid() && builder.dir.tables == old(builder.dir.tables)
      invariant IsHeap(h.items) && HeapHolds(multiset(h.items), pending)
      invariant Attached(iters, pending, stops) && CleanSoFar(pending, stops, |iters|)
      invariant Halfway(NewestWins(streams), pending, builder.entries)
      invariant lastKey == LastKey(builder.entries)
      invariant |builder.entries| + TotalLength(pending) <= TotalLength(streams)
      decreases TotalLength(pending)
    {
      failed, lastKey, pending := MergeOne(h, iters, builder, lastKey, pending, stops, NewestWins(streams));
      if failed {
        return false;
      }
    }
    HeapEmpty(multiset(h.items), pending);
    MergeEnds(NewestWins(streams), pending, builder.entries);
    FewerKeysFit(|builder.entries|, TotalLength(streams));
    SortedIsByteOrder(builder.entries);
    builder.Finish();
    return true;
  }

  lemma MergeStarts(streams: seq<Stream>)
    requires AllSorted(streams)
    ensures Halfway(NewestWins(streams), streams, [])
  {
  }

  lemma MergeEnds(union: map<Bytes, Bytes>, pending: seq<Stream>, out: Stream)
    requires Halfway(union, pending, out) && forall i :: 0 <= i < |pending| ==> pending[i] == []
    ensures Sorted(out) && ToMap(out) == union
  {
    NothingLeft(pending);
  }

  lemma FewerKeysFit(n: nat, m: nat)
    requires n <= m && KeysFit(m)
    ensures KeysFit(n)
  {
  }
}
