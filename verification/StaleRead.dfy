/** A run of the source, with no crash and no failure, after which Get returns a value that has
    been overwritten three times; and two short runs on which reopening shows something else
    than was written. */
module StaleRead {
  import opened ByteStrings
  import opened Entries
  import opened Bloom
  import opened Store
  import opened Machine
  import opened Recovery
  import opened Selection
  import opened Counterexamples
  import EngineState
  import SsTable
  import Compaction
  import Tables

  // ---------- a whole compaction from a quiet state ----------

  /** Four removals after a swap. */
  lemma FourRemoves(events: seq<Event>, s: State, inputs: seq<int>, merged: Run)
    requires |inputs| == 4 && s.compact == Removing(inputs, merged, 0) && Exec(false, Init(), events) == Some(s)
    ensures Exec(false, Init(), events + [Remove, Remove, Remove, Remove]) == Some(s.(
      dir := s.dir.(tables := s.dir.tables - {inputs[0]} - {inputs[1]} - {inputs[2]} - {inputs[3]}), compact := CompactIdle))
  {
    hide Exec;
    ExecOne(false, Init(), events, s, Remove);
    var s1 := Next(false, s, Remove);
    ExecOne(false, Init(), events + [Remove], s1, Remove);
    var s2 := Next(false, s1, Remove);
    ExecOne(false, Init(), events + [Remove] + [Remove], s2, Remove);
    var s3 := Next(false, s2, Remove);
    ExecOne(false, Init(), events + [Remove] + [Remove] + [Remove], s3, Remove);
    assert events + [Remove, Remove, Remove, Remove] == events + [Remove] + [Remove] + [Remove] + [Remove];
  }

  /** Selection, merge and swap. */
  lemma UpToTheSwap(events: seq<Event>, tables: map<int, Table>, runs: seq<Run>, clock: int, picked: seq<nat>, merged: Run)
    requires Exec(false, Init(), events) == Some(Quiet(tables, runs, clock)) && MaySelect(Quiet(tables, runs, clock), picked)
    requires MergedOf(Picks(runs, picked), tables) == merged
    ensures Exec(false, Init(), events + [Select(picked), Merge, Swap]) ==
      Some(Quiet(tables[merged.timestamp := merged.table], Splice(runs, picked, merged), clock).(
        compact := Removing(Timestamps(Picks(runs, picked)), merged, 0)))
  {
    hide Exec, Splice, MergedOf, Picks, Timestamps;
    var s := Quiet(tables, runs, clock);
    ExecOne(false, Init(), events, s, Select(picked));
    var s1 := Next(false, s, Select(picked));
    ExecOne(false, Init(), events + [Select(picked)], s1, Merge);
    var s2 := Next(false, s1, Merge);
    ExecOne(false, Init(), events + [Select(picked)] + [Merge], s2, Swap);
    assert events + [Select(picked), Merge, Swap] == events + [Select(picked)] + [Merge] + [Swap];
  }

  // ---------- the run ----------

  /** The table of one flush: one key, one of eight values. */
  function Flushed(vs: seq<Bytes>, i: nat): Run
    requires i < |vs|
  {
    Run(i, map[K := vs[i]])
  }

  function FlushesOf(vs: seq<Bytes>, from: nat, to: nat): seq<Event>
    requires from <= to <= |vs|
  {
    if from == to then [] else FlushesOf(vs, from, to - 1) + FlushOf(K, vs[to - 1], to - 1)
  }

  function TablesUpTo(vs: seq<Bytes>, tables: map<int, Table>, from: nat, to: nat): map<int, Table>
    requires from <= to <= |vs|
  {
    if from == to then tables else TablesUpTo(vs, tables, from, to - 1)[to - 1 := map[K := vs[to - 1]]]
  }

  function RunsUpTo(vs: seq<Bytes>, runs: seq<Run>, from: nat, to: nat): seq<Run>
    requires from <= to <= |vs|
  {
    if from == to then runs else RunsUpTo(vs, runs, from, to - 1) + [Flushed(vs, to - 1)]
  }

  lemma {:induction false} AfterFlushes(vs: seq<Bytes>, events: seq<Event>, tables: map<int, Table>, runs: seq<Run>, from: nat, to: nat)
    requires from <= to <= |vs| && Exec(false, Init(), events) == Some(Quiet(tables, runs, from))
    ensures Exec(false, Init(), events + FlushesOf(vs, from, to)) ==
      Some(Quiet(TablesUpTo(vs, tables, from, to), RunsUpTo(vs, runs, from, to), to))
  {
    hide Exec;
    if from == to {
      assert events + [] == events;
    } else {
      AfterFlushes(vs, events, tables, runs, from, to - 1);
      var before := events + FlushesOf(vs, from, to - 1);
      FlushCycle(false, before, TablesUpTo(vs, tables, from, to - 1), RunsUpTo(vs, runs, from, to - 1), to - 1, K, vs[to - 1]);
      assert events + FlushesOf(vs, from, to) == before + FlushOf(K, vs[to - 1], to - 1);
    }
  }

  const FIRST: seq<nat> := [1, 2, 3, 4]
  const SECOND: seq<nat> := [0, 2, 3, 4]

  /** The run up to its first selection: five flushes. */
  function UpToFirst(vs: seq<Bytes>): seq<Event>
    requires |vs| == 8
  {
    FlushesOf(vs, 0, 5)
  }

  /** Up to its second: a compaction of the last four, and three more flushes. */
  function UpToSecond(vs: seq<Bytes>): seq<Event>
    requires |vs| == 8
  {
    UpToFirst(vs) + [Select(FIRST), Merge, Swap] + [Remove, Remove, Remove, Remove] + FlushesOf(vs, 5, 8)
  }

  /** The whole run ends with a compaction across the gap that the first one's removal has left. */
  function StaleRun(vs: seq<Bytes>): seq<Event>
    requires |vs| == 8
  {
    UpToSecond(vs) + [Select(SECOND), Merge, Swap]
  }

  lemma FiveFlushed(vs: seq<Bytes>)
    requires |vs| == 8
    ensures RunsUpTo(vs, [], 0, 5) == [Flushed(vs, 0), Flushed(vs, 1), Flushed(vs, 2), Flushed(vs, 3), Flushed(vs, 4)]
    ensures TablesUpTo(vs, map[], 0, 5) ==
      map[0 := map[K := vs[0]], 1 := map[K := vs[1]], 2 := map[K := vs[2]], 3 := map[K := vs[3]], 4 := map[K := vs[4]]]
  {
    assert RunsUpTo(vs, [], 0, 1) == [Flushed(vs, 0)];
    assert RunsUpTo(vs, [], 0, 2) == [Flushed(vs, 0), Flushed(vs, 1)];
    assert RunsUpTo(vs, [], 0, 3) == [Flushed(vs, 0), Flushed(vs, 1), Flushed(vs, 2)];
    assert RunsUpTo(vs, [], 0, 4) == [Flushed(vs, 0), Flushed(vs, 1), Flushed(vs, 2), Flushed(vs, 3)];
    var t0: map<int, Table> := map[];
    assert TablesUpTo(vs, t0, 0, 0) == t0;
    assert TablesUpTo(vs, t0, 0, 1) == map[0 := map[K := vs[0]]];
    assert TablesUpTo(vs, t0, 0, 2) == map[0 := map[K := vs[0]], 1 := map[K := vs[1]]];
    assert TablesUpTo(vs, t0, 0, 3) == map[0 := map[K := vs[0]], 1 := map[K := vs[1]], 2 := map[K := vs[2]]];
    assert TablesUpTo(vs, t0, 0, 4) == map[0 := map[K := vs[0]], 1 := map[K := vs[1]], 2 := map[K := vs[2]], 3 := map[K := vs[3]]];
  }

  /** What is left of the directory after the first compaction: one file. */
  function OneTable(vs: seq<Bytes>): map<int, Table>
    requires |vs| == 8
  {
    map[0 := map[K := vs[0]]]
  }

  /** The list then: the oldest reader, and the merged one, whose file is gone. */
  function TwoRuns(vs: seq<Bytes>): seq<Run>
    requires |vs| == 8
  {
    [Flushed(vs, 0), Flushed(vs, 4)]
  }

  lemma ThreeMoreFlushed(vs: seq<Bytes>)
    requires |vs| == 8
    ensures RunsUpTo(vs, TwoRuns(vs), 5, 8) == [Flushed(vs, 0), Flushed(vs, 4), Flushed(vs, 5), Flushed(vs, 6), Flushed(vs, 7)]
    ensures TablesUpTo(vs, OneTable(vs), 5, 8) ==
      map[0 := map[K := vs[0]], 5 := map[K := vs[5]], 6 := map[K := vs[6]], 7 := map[K := vs[7]]]
  {
    var r, t := TwoRuns(vs), OneTable(vs);
    assert RunsUpTo(vs, r, 5, 6) == [Flushed(vs, 0), Flushed(vs, 4), Flushed(vs, 5)];
    assert RunsUpTo(vs, r, 5, 7) == [Flushed(vs, 0), Flushed(vs, 4), Flushed(vs, 5), Flushed(vs, 6)];
    assert TablesUpTo(vs, t, 5, 6) == map[0 := map[K := vs[0]], 5 := map[K := vs[5]]];
    assert TablesUpTo(vs, t, 5, 7) == map[0 := map[K := vs[0]], 5 := map[K := vs[5]], 6 := map[K := vs[6]]];
  }

  /** Four tables of one key merge into the newest. */
  lemma UnionOfKey(a: Run, b: Run, c: Run, d: Run, v: Bytes)
    requires a.table.Keys == b.table.Keys == c.table.Keys == {K} && d.table == map[K := v]
    ensures UnionRuns([a, b, c, d]) == map[K := v]
  {
    hide UnionRuns;
    assert [a, b, c, d] == [] + [a] + [b] + [c] + [d];
    UnionAppend([], a);
    UnionAppend([] + [a], b);
    UnionAppend([] + [a] + [b], c);
    UnionAppend([] + [a] + [b] + [c], d);
  }

  lemma FirstMaySelect(vs: seq<Bytes>, tables: map<int, Table>, runs: seq<Run>)
    requires |vs| == 8 && |runs| == 5 && forall i :: 0 <= i < 5 ==> runs[i] == Flushed(vs, i) && i in tables
    ensures MaySelect(Quiet(tables, runs, 5), FIRST)
  {
  }

  lemma FirstRemovals(vs: seq<Bytes>, tables: map<int, Table>)
    requires |vs| == 8 && tables.Keys == {0, 1, 2, 3, 4} && tables[0] == map[K := vs[0]]
    ensures tables[4 := map[K := vs[4]]] - {1} - {2} - {3} - {4} == OneTable(vs)
  {
  }

  lemma SpliceFirst(runs: seq<Run>, merged: Run)
    requires |runs| == 5
    ensures Splice(runs, FIRST, merged) == [runs[0], merged]
  {
    hide Splice;
    assert Increasing(FIRST, 5) && Contiguous(FIRST);
    SpliceContiguous(runs, FIRST, merged);
  }

  lemma FirstMerge(vs: seq<Bytes>)
    requires |vs| == 8
    ensures var runs, tables := RunsUpTo(vs, [], 0, 5), TablesUpTo(vs, map[], 0, 5);
      && |runs| == 5 && MaySelect(Quiet(tables, runs, 5), FIRST)
      && MergedOf(Picks(runs, FIRST), tables) == Flushed(vs, 4)
      && Splice(runs, FIRST, Flushed(vs, 4)) == TwoRuns(vs)
      && Timestamps(Picks(runs, FIRST)) == [1, 2, 3, 4]
      && tables[4 := map[K := vs[4]]] - {1} - {2} - {3} - {4} == OneTable(vs)
  {
    hide UnionRuns, PresentRuns, Splice, RunsUpTo, TablesUpTo, MaySelect;
    FiveFlushed(vs);
    var runs, tables := RunsUpTo(vs, [], 0, 5), TablesUpTo(vs, map[], 0, 5);
    FirstMaySelect(vs, tables, runs);
    FirstRemovals(vs, tables);
    var group := Picks(runs, FIRST);
    assert group == [Flushed(vs, 1), Flushed(vs, 2), Flushed(vs, 3), Flushed(vs, 4)];
    PresentAre(group, tables);
    UnionOfKey(Flushed(vs, 1), Flushed(vs, 2), Flushed(vs, 3), Flushed(vs, 4), vs[4]);
    SpliceFirst(runs, Flushed(vs, 4));
  }

  /** The second compaction puts the newest value where the oldest was, below the missing file's
      reader. */
  lemma SecondMerge(vs: seq<Bytes>)
    requires |vs| == 8
    ensures var runs, tables := RunsUpTo(vs, TwoRuns(vs), 5, 8), TablesUpTo(vs, OneTable(vs), 5, 8);
      && MaySelect(Quiet(tables, runs, 8), SECOND)
      && MergedOf(Picks(runs, SECOND), tables) == Flushed(vs, 7)
      && Splice(runs, SECOND, Flushed(vs, 7)) == [Flushed(vs, 7), Flushed(vs, 4)]
  {
    hide UnionRuns, PresentRuns, Splice;
    ThreeMoreFlushed(vs);
    var runs, tables := RunsUpTo(vs, TwoRuns(vs), 5, 8), TablesUpTo(vs, OneTable(vs), 5, 8);
    var group := Picks(runs, SECOND);
    assert group == [Flushed(vs, 0), Flushed(vs, 5), Flushed(vs, 6), Flushed(vs, 7)];
    PresentAre(group, tables);
    UnionOfKey(Flushed(vs, 0), Flushed(vs, 5), Flushed(vs, 6), Flushed(vs, 7), vs[7]);
    SpliceGap(runs, Flushed(vs, 7));
  }

  lemma SpliceGap(runs: seq<Run>, merged: Run)
    requires |runs| == 5
    ensures Splice(runs, SECOND, merged) == [merged, runs[1]]
  {
    hide Splice;
    SpliceStep(runs, SECOND, merged, 0);
    assert SECOND[0] == 0 && 1 !in SECOND && SECOND[1] == 2 && SECOND[2] == 3 && SECOND[3] == 4;
    assert Splice(runs[..1], SECOND, merged) == [merged];
    SpliceStep(runs, SECOND, merged, 1);
    forall i | 2 <= i < 5 ensures Splice(runs[..i + 1], SECOND, merged) == Splice(runs[..i], SECOND, merged) {
      SpliceStep(runs, SECOND, merged, i);
      assert SECOND[0] < i && SECOND[i - 1] == i;
    }
    assert Splice(runs[..5], SECOND, merged) == Splice(runs[..3 + 1], SECOND, merged) == Splice(runs[..2 + 1], SECOND, merged);
  }

  lemma StaleState(vs: seq<Bytes>) returns (s: State)
    requires |vs| == 8
    ensures Exec(false, Init(), UpToFirst(vs)) == Some(Quiet(TablesUpTo(vs, map[], 0, 5), RunsUpTo(vs, [], 0, 5), 5))
    ensures Exec(false, Init(), UpToSecond(vs)) ==
      Some(Quiet(TablesUpTo(vs, OneTable(vs), 5, 8), RunsUpTo(vs, TwoRuns(vs), 5, 8), 8))
    ensures Exec(false, Init(), StaleRun(vs)) == Some(s)
    ensures s.mem == Memory(map[], None, [Flushed(vs, 7), Flushed(vs, 4)])
  {
    hide Exec, MaySelect, Splice, MergedOf, Picks, Timestamps, FlushesOf, TablesUpTo, RunsUpTo;
    var runs, tables := RunsUpTo(vs, [], 0, 5), TablesUpTo(vs, map[], 0, 5);
    FirstMerge(vs);
    SecondMerge(vs);
    ExecNone(false);
    AfterFlushes(vs, [], map[], [], 0, 5);
    var e1 := FlushesOf(vs, 0, 5);
    assert [] + e1 == e1;
    UpToTheSwap(e1, tables, runs, 5, FIRST, Flushed(vs, 4));
    var e2 := e1 + [Select(FIRST), Merge, Swap];
    var t := Quiet(tables[4 := map[K := vs[4]]], TwoRuns(vs), 5).(compact := Removing([1, 2, 3, 4], Flushed(vs, 4), 0));
    FourRemoves(e2, t, [1, 2, 3, 4], Flushed(vs, 4));
    var e3 := e2 + [Remove, Remove, Remove, Remove];
    assert Exec(false, Init(), e3) == Some(Quiet(OneTable(vs), TwoRuns(vs), 5));
    AfterFlushes(vs, e3, OneTable(vs), TwoRuns(vs), 5, 8);
    var e4 := e3 + FlushesOf(vs, 5, 8);
    UpToTheSwap(e4, TablesUpTo(vs, OneTable(vs), 5, 8), RunsUpTo(vs, TwoRuns(vs), 5, 8), 8, SECOND, Flushed(vs, 7));
    s := Exec(false, Init(), StaleRun(vs)).value;
  }

  lemma {:induction false} PlainFlushes(vs: seq<Bytes>, events: seq<Event>, from: nat, to: nat)
    requires from < to <= |vs| && forall i :: 0 <= i < |vs| ==> vs[i] != []
    ensures PlainAfter(map[], events + FlushesOf(vs, from, to)) == PlainAfter(map[], events)[K := vs[to - 1]]
  {
    hide PlainAfter;
    var before := events + FlushesOf(vs, from, to - 1);
    assert events + FlushesOf(vs, from, to) == before + FlushOf(K, vs[to - 1], to - 1);
    PlainFlush(before, vs[to - 1], to - 1);
    if from == to - 1 {
      assert before == events;
    } else {
      PlainFlushes(vs, events, from, to - 1);
    }
  }

  ghost predicate NoWritesIn(events: seq<Event>) {
    forall i :: 0 <= i < |events| ==> !events[i].Put? && !events[i].Delete?
  }

  lemma {:induction false} PlainKept(events: seq<Event>, more: seq<Event>)
    requires NoWritesIn(more)
    ensures PlainAfter(map[], events + more) == PlainAfter(map[], events)
  {
    if more == [] {
      assert events + more == events;
    } else {
      var n := |more| - 1;
      assert (events + more)[..|events + more| - 1] == events + more[..n];
      PlainKept(events, more[..n]);
    }
  }

  lemma StalePlain(vs: seq<Bytes>)
    requires |vs| == 8 && forall i :: 0 <= i < |vs| ==> vs[i] != []
    ensures PlainAfter(map[], StaleRun(vs)) == map[K := vs[7]]
  {
    hide PlainAfter, FlushesOf;
    var e1 := FlushesOf(vs, 0, 5);
    assert [] + e1 == e1;
    PlainFlushes(vs, [], 0, 5);
    NoWrites();
    var e2 := e1 + [Select(FIRST), Merge, Swap];
    PlainKept(e1, [Select(FIRST), Merge, Swap]);
    var e3 := e2 + [Remove, Remove, Remove, Remove];
    PlainKept(e2, [Remove, Remove, Remove, Remove]);
    PlainFlushes(vs, e3, 5, 8);
    PlainKept(e3 + FlushesOf(vs, 5, 8), [Select(SECOND), Merge, Swap]);
  }

  lemma {:induction false} FlushesClean(vs: seq<Bytes>, from: nat, to: nat)
    requires from <= to <= |vs| && forall i :: 0 <= i < |vs| ==> vs[i] != []
    ensures CleanEvents(FlushesOf(vs, from, to))
  {
    if from < to {
      FlushesClean(vs, from, to - 1);
    }
  }

  /** For any eight non-empty values: the run is possible, and Get returns the fifth value,
      though the key has been overwritten three times since. */
  lemma GetReturnsOverwrittenValue(vs: seq<Bytes>)
    requires |vs| == 8 && forall i :: 0 <= i < |vs| ==> vs[i] != []
    ensures Exec(false, Init(), StaleRun(vs)).Some? && CleanEvents(StaleRun(vs))
    ensures Get(Exec(false, Init(), StaleRun(vs)).value.mem, K) == Some(vs[4])
    ensures MapGet(PlainAfter(map[], StaleRun(vs)), K) == Some(vs[7])
  {
    hide Exec, FlushesOf, PlainAfter;
    var s := StaleState(vs);
    StalePlain(vs);
    FlushesClean(vs, 0, 5);
    FlushesClean(vs, 5, 8);
    assert [Flushed(vs, 7), Flushed(vs, 4)] == [Flushed(vs, 7)] + [Flushed(vs, 4)];
    LookupAppend([Flushed(vs, 7)], Flushed(vs, 4), K);
  }

  // ---------- the selections of the run are those of the source ----------

  /** The size of a table file of one entry of this key. */
  function FileSize(v: Bytes): nat {
    |v| + 126
  }

  lemma FileSizeIs(hash: Bytes -> u32, v: Bytes)
    ensures KeysFit(1) && |SsTable.FileBytes(hash, [Entry(K, v)])| == FileSize(v)
  {
    var es := [Entry(K, v)];
    assert es[..0] == [];
    var index := SsTable.Index(es);
    assert SsTable.DataSize(es[..0]) == 0 && SsTable.Index(es[..0]) == [];
    assert index == [SsTable.IndexEntry(K, 0)];
    assert index[..0] == [];
    SsTable.IndexOffsets(es);
    assert |SsTable.IndexEntriesBytes(index)| == 13;
    assert SsTable.DataSize(es) == 9 + |v|;
  }

  /** The first, sixth, seventh and eighth value are long, the others short. */
  predicate LongAndShort(vs: seq<Bytes>) {
    && |vs| == 8
    && (forall i :: 0 <= i < 8 ==> 0 < |vs[i]| < 40 * MB)
    && (forall i :: 0 <= i < 8 ==> (|vs[i]| >= 10 * MB <==> i == 0 || i >= 5))
    && (forall i :: 0 <= i < 8 ==> |vs[i]| < 10 * MB ==> |vs[i]| < 9 * MB)
  }

  /** A table file that holds this one entry. */
  lemma OneKeyFile(hash: Bytes -> u32, data: Bytes, v: Bytes)
    requires EngineState.WellFormed(hash, data) && EngineState.TableOf(data) == map[K := v]
    ensures |data| == FileSize(v)
  {
    hide SsTable.FileBytes, SsTable.TableEntries, FileSize;
    FileSizeIs(hash, v);
    assert Sorted([Entry(K, v)]) && [Entry(K, v)][..0] == [] && ToMap([Entry(K, v)]) == map[K := v];
    SortedRunUnique(SsTable.TableEntries(data), [Entry(K, v)]);
  }

  /** What stat finds for readers and files that stand for the state. */
  lemma SizeOf(hash: Bytes -> u32, readers: seq<Tables.Reader>, files: map<int, Bytes>, runs: seq<Run>, tables: map<int, Table>, i: nat, v: Bytes)
    requires EngineState.RunsOf(readers) == runs && EngineState.TablesOf(files) == tables
    requires forall t :: t in files ==> EngineState.WellFormed(hash, files[t])
    requires i < |runs| && (runs[i].timestamp in tables ==> tables[runs[i].timestamp] == map[K := v])
    ensures Compaction.SizesOf(readers, files)[i] == if runs[i].timestamp in tables then Some(FileSize(v)) else None
  {
    hide EngineState.WellFormed, EngineState.TableOf, FileSize;
    if runs[i].timestamp in tables {
      OneKeyFile(hash, files[runs[i].timestamp], v);
    }
  }

  /** The readers' names at both selections; each file holds the value of its number. */
  ghost predicate HoldValues(vs: seq<Bytes>, runs: seq<Run>, tables: map<int, Table>, names: seq<nat>) {
    && |vs| == 8 && |runs| == |names| == 5
    && forall i :: 0 <= i < 5 ==>
         runs[i].timestamp == names[i] < 8 && (names[i] in tables ==> tables[names[i]] == map[K := vs[names[i]]])
  }

  lemma NamesAtFirst(vs: seq<Bytes>)
    requires |vs| == 8
    ensures HoldValues(vs, RunsUpTo(vs, [], 0, 5), TablesUpTo(vs, map[], 0, 5), [0, 1, 2, 3, 4])
    ensures TablesUpTo(vs, map[], 0, 5).Keys == {0, 1, 2, 3, 4}
  {
    hide TablesUpTo, RunsUpTo;
    FiveFlushed(vs);
  }

  lemma NamesAtSecond(vs: seq<Bytes>)
    requires |vs| == 8
    ensures HoldValues(vs, RunsUpTo(vs, TwoRuns(vs), 5, 8), TablesUpTo(vs, OneTable(vs), 5, 8), [0, 4, 5, 6, 7])
    ensures TablesUpTo(vs, OneTable(vs), 5, 8).Keys == {0, 5, 6, 7}
  {
    hide TablesUpTo, RunsUpTo;
    ThreeMoreFlushed(vs);
  }

  ghost predicate SizesFound(vs: seq<Bytes>, sizes: Sizes, present: set<int>, names: seq<nat>) {
    && |vs| == 8 && |sizes| == |names| == 5
    && forall i :: 0 <= i < 5 ==> names[i] < 8 && sizes[i] == if names[i] in present then Some(FileSize(vs[names[i]])) else None
  }

  lemma SizesByName(vs: seq<Bytes>, hash: Bytes -> u32, readers: seq<Tables.Reader>, files: map<int, Bytes>, runs: seq<Run>,
                    tables: map<int, Table>, names: seq<nat>)
    requires HoldValues(vs, runs, tables, names) && EngineState.RunsOf(readers) == runs && EngineState.TablesOf(files) == tables
    requires forall t :: t in files ==> EngineState.WellFormed(hash, files[t])
    ensures SizesFound(vs, Compaction.SizesOf(readers, files), tables.Keys, names)
  {
    hide EngineState.WellFormed, EngineState.TablesOf, FileSize;
    forall i: nat | i < 5
      ensures Compaction.SizesOf(readers, files)[i] == if names[i] in tables then Some(FileSize(vs[names[i]])) else None
    {
      SizeOf(hash, readers, files, runs, tables, i, vs[names[i]]);
    }
  }

  lemma FirstGroup(vs: seq<Bytes>, sizes: Sizes)
    requires LongAndShort(vs) && SizesFound(vs, sizes, {0, 1, 2, 3, 4}, [0, 1, 2, 3, 4])
    ensures IsGroup(sizes, FIRST, 0) && forall g, t :: IsGroup(sizes, g, t) ==> g == FIRST
  {
    hide IsGroup;
    OnlyGroup(sizes, FIRST, 0);
  }

  lemma SecondGroup(vs: seq<Bytes>, sizes: Sizes)
    requires LongAndShort(vs) && SizesFound(vs, sizes, {0, 5, 6, 7}, [0, 4, 5, 6, 7])
    ensures IsGroup(sizes, SECOND, 1) && forall g, t :: IsGroup(sizes, g, t) ==> g == SECOND
  {
    hide IsGroup;
    OnlyGroup(sizes, SECOND, 1);
  }

  /** At either selection of the run, the search over any readers and files that stand for the
      state then finds just the group that the run takes. */
  lemma SelectionsAreForced(vs: seq<Bytes>, hash: Bytes -> u32, readers: seq<Tables.Reader>, files: map<int, Bytes>, second: bool)
    requires LongAndShort(vs) && forall t :: t in files ==> EngineState.WellFormed(hash, files[t])
    requires var s := Exec(false, Init(), if second then UpToSecond(vs) else UpToFirst(vs));
      s.Some? && EngineState.RunsOf(readers) == s.value.mem.runs && EngineState.TablesOf(files) == s.value.dir.tables
    ensures var sizes, group, tier := Compaction.SizesOf(readers, files), if second then SECOND else FIRST, if second then 1 else 0;
      IsGroup(sizes, group, tier) && forall g, t :: IsGroup(sizes, g, t) ==> g == group
  {
    hide Exec, EngineState.WellFormed, EngineState.TablesOf, EngineState.RunsOf, TablesUpTo, RunsUpTo, IsGroup, UpToFirst, UpToSecond,
      Compaction.SizesOf, HoldValues, SizesFound;
    var _ := StaleState(vs);
    if second {
      NamesAtSecond(vs);
      SizesByName(vs, hash, readers, files, RunsUpTo(vs, TwoRuns(vs), 5, 8), TablesUpTo(vs, OneTable(vs), 5, 8), [0, 4, 5, 6, 7]);
      SecondGroup(vs, Compaction.SizesOf(readers, files));
    } else {
      NamesAtFirst(vs);
      SizesByName(vs, hash, readers, files, RunsUpTo(vs, [], 0, 5), TablesUpTo(vs, map[], 0, 5), [0, 1, 2, 3, 4]);
      FirstGroup(vs, Compaction.SizesOf(readers, files));
    }
  }

  /** Of five readers exactly four are of one tier, and the fifth is missing or stands first. */
  lemma OnlyGroup(sizes: Sizes, group: seq<nat>, tier: nat)
    requires |sizes| == 5 && ((group == FIRST && !InTier(sizes, 0, tier)) || (group == SECOND && sizes[1].None?))
    requires forall i :: 0 <= i < 4 ==> InTier(sizes, group[i], tier)
    ensures IsGroup(sizes, group, tier) && forall g, t :: IsGroup(sizes, g, t) ==> g == group
  {
    forall g, t | IsGroup(sizes, g, t) ensures g == group {
      assert InTier(sizes, g[0], t) && InTier(sizes, g[1], t) && InTier(sizes, g[2], t) && InTier(sizes, g[3], t);
      assert g[0] < g[1] < g[2] < g[3] < 5;
      assert InTier(sizes, group[0], tier) && InTier(sizes, group[1], tier) && InTier(sizes, group[2], tier) && InTier(sizes, group[3], tier);
    }
  }

  // ---------- two short runs ----------

  /** Two writes of a key around a rotation, then a crash: the older value is back. */
  lemma OlderValueReturns(a: Bytes, b: Bytes)
    requires a != [] && b != [] && a != b
    ensures var events := [Put(K, Data(a)), Rotate, Put(K, Data(b))];
      && Exec(true, Init(), events).Some? && CleanEvents(events)
      && MapGet(PlainAfter(map[], events), K) == Some(b)
      && ReopenedView(Exec(true, Init(), events).value.dir, K) == Some(a)
  {
    hide Exec, ReopenedView, PlainAfter;
    var e1, e2, e3 := Put(K, Data(a)), Rotate, Put(K, Data(b));
    ExecNone(true);
    var s1 := Machine.Next(true, Init(), e1);
    ExecOne(true, Init(), [], Init(), e1);
    assert s1.mem.active == map[K := Data(a)] && K in s1.mem.active;
    var s2 := Machine.Next(true, s1, e2);
    ExecOne(true, Init(), [] + [e1], s1, e2);
    ExecOne(true, Init(), [] + [e1] + [e2], s2, e3);
    assert [e1, e2, e3] == [] + [e1] + [e2] + [e3];
    ReopenedAt(Machine.Next(true, s2, e3).dir, K);
    NoWrites();
    PlainAppend([], e1);
    PlainAppend([] + [e1], e2);
    PlainAppend([] + [e1] + [e2], e3);
  }

  /** A deletion and a crash: Get finds the key again, with an empty value. */
  lemma TombstoneIsFound()
    ensures var events := [Delete(K)];
      && Exec(true, Init(), events).Some?
      && MapGet(PlainAfter(map[], events), K) == None
      && Get(Open(Exec(true, Init(), events).value.dir), K) == Some([])
      && ReopenedView(Exec(true, Init(), events).value.dir, K) == None
  {
    hide Exec, ReopenedView, PlainAfter;
    ExecNone(true);
    ExecOne(true, Init(), [], Init(), Delete(K));
    assert [] + [Delete(K)] == [Delete(K)];
    ReopenedGet(Machine.Next(true, Init(), Delete(K)).dir, K);
    NoWrites();
    PlainAppend([], Delete(K));
  }
}
