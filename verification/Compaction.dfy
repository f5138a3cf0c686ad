/** What a compaction reads and writes, in terms of files and readers. */
module Compaction {
  import opened ByteStrings
  import opened Disk
  import opened Entries
  import opened Bloom
  import opened SsTable
  import opened SsTableRoundTrip
  import opened Tables
  import opened Store
  import opened EngineState
  import opened Selection
  import Machine
  import Merging

  // ---------- selection ----------

  /** What os.Stat finds under the readers' names. */
  function SizesOf(readers: seq<Reader>, files: map<int, Bytes>): (sizes: Sizes)
    ensures |sizes| == |readers|
    ensures forall i :: 0 <= i < |readers| ==>
      sizes[i] == if readers[i].timestamp in files then Some(|files[readers[i].timestamp]|) else None
  {
    seq(|readers|, i requires 0 <= i < |readers| =>
      if readers[i].timestamp in files then Some(|files[readers[i].timestamp]|) else None)
  }

  lemma PicksAreRuns(readers: seq<Reader>, picked: seq<nat>)
    requires forall i :: 0 <= i < |picked| ==> picked[i] < |readers|
    ensures RunsOf(Picks(readers, picked)) == Picks(RunsOf(readers), picked)
  {
  }

  /** A group of one tier is a selection that the state machine allows. */
  lemma GroupMayBeSelected(s: Machine.State, readers: seq<Reader>, files: map<int, Bytes>, picked: seq<nat>, tier: nat)
    requires s.mem.runs == RunsOf(readers) && s.dir.tables == TablesOf(files)
    requires IsGroup(SizesOf(readers, files), picked, tier)
    ensures Machine.MaySelect(s, picked)
  {
    var sizes := SizesOf(readers, files);
    assert forall r :: 0 <= r < |readers| ==> (Machine.HasFile(s, r) <==> sizes[r].Some?);
    forall i | 0 <= i < |picked| ensures Machine.HasFile(s, picked[i]) {
      assert InTier(sizes, picked[i], tier);
    }
  }

  ghost predicate FilesPresent(files: seq<Reader>, tables: map<int, Bytes>) {
    forall i :: 0 <= i < |files| ==> files[i].timestamp in tables
  }

  lemma GroupIsPresent(readers: seq<Reader>, files: map<int, Bytes>, picked: seq<nat>, tier: nat)
    requires IsGroup(SizesOf(readers, files), picked, tier)
    ensures picked != [] && FilesPresent(Picks(readers, picked), files)
  {
    forall i | 0 <= i < |picked| ensures readers[picked[i]].timestamp in files {
      assert InTier(SizesOf(readers, files), picked[i], tier);
    }
  }

  // ---------- merging ----------

  /** The entries of the files, newest first. */
  ghost function Inputs(files: seq<Reader>, tables: map<int, Bytes>): (runs: seq<Merging.Stream>)
    requires FilesPresent(files, tables)
    ensures |runs| == |files|
    ensures forall i :: 0 <= i < |files| ==> runs[i] == TableEntries(tables[files[|files| - 1 - i].timestamp])
  {
    if files == [] then []
    else [TableEntries(tables[files[|files| - 1].timestamp])] + Inputs(files[..|files| - 1], tables)
  }

  /** Newest-wins over the inputs is the union of the runs, oldest first. */
  lemma {:induction false} InputsUnion(files: seq<Reader>, tables: map<int, Bytes>)
    requires FilesPresent(files, tables)
    ensures Merging.NewestWins(Inputs(files, tables)) == UnionRuns(PresentRuns(RunsOf(files), TablesOf(tables)))
  {
    hide TableEntries, ToMap, UnionRuns, PresentRuns, RunsOf, TablesOf;
    var runs := RunsOf(files);
    PresentNone(runs, TablesOf(tables));
    if files == [] {
      assert runs[..0] == runs;
    } else {
      var n := |files| - 1;
      InputsUnion(files[..n], tables);
      PresentStep(files, tables, n);
      assert runs[..n] == RunsOf(files[..n]);
      assert Inputs(files, tables)[1..] == Inputs(files[..n], tables);
    }
  }

  lemma TablesWith(files: map<int, Bytes>, t: int, data: Bytes)
    ensures TablesOf(files[t := data]) == TablesOf(files)[t := TableOf(data)]
  {
  }

  ghost predicate TableFits(m: Table) {
    forall k :: k in m ==> Fits(Entry(k, m[k]))
  }

  lemma FittingTable(es: seq<Entry<Bytes>>)
    requires Sorted(es)
    ensures TableFits(ToMap(es)) <==> forall i :: 0 <= i < |es| ==> Fits(es[i])
  {
    SortedLookup(es);
    forall i | 0 <= i < |es| && TableFits(ToMap(es)) ensures Fits(es[i]) {
      assert es[i].key in ToMap(es);
    }
  }

  lemma {:induction false} FittingUnion(runs: seq<Merging.Stream>)
    requires forall i :: 0 <= i < |runs| ==> TableFits(ToMap(runs[i]))
    ensures TableFits(Merging.NewestWins(runs))
  {
    hide ToMap;
    if runs != [] {
      FittingUnion(runs[1..]);
    }
  }

  /** The merged entries fit a table again. */
  lemma MergedFits(runs: seq<Merging.Stream>, es: seq<Entry<Bytes>>)
    requires forall i :: 0 <= i < |runs| ==> Sorted(runs[i]) && FitsTable(runs[i])
    requires Sorted(es) && ToMap(es) == Merging.NewestWins(runs) && KeysFit(|es|)
    ensures FitsTable(es)
  {
    hide ToMap, Sorted, Merging.NewestWins, KeysFit;
    forall i | 0 <= i < |runs| ensures TableFits(ToMap(runs[i])) {
      FittingTable(runs[i]);
    }
    FittingUnion(runs);
    FittingTable(es);
  }

  ghost predicate InputsFit(files: seq<Reader>, tables: map<int, Bytes>) {
    FilesPresent(files, tables) ==> KeysFit(Merging.TotalLength(Inputs(files, tables)))
  }

  /** Iterators over the files opened by name, newest first; none if a file is missing. */
  method OpenInputs(dir: DataDir, files: seq<Reader>) returns (iters: seq<TableIterator>, ok: bool)
    ensures ok <==> FilesPresent(files, dir.tables)
    ensures ok ==> fresh(iters) && Merging.Distinct(iters) && Merging.Streams(iters) == Inputs(files, dir.tables)
    ensures ok ==> forall i :: 0 <= i < |iters| ==>
      iters[i].err == None && iters[i].Stop() == TableStop(dir.tables[files[|files| - 1 - i].timestamp])
  {
    hide TableEntries, TableStop, TableIterator.Rest, TableIterator.Stop;
    iters := [];
    var i := |files|;
    while i > 0
      invariant 0 <= i <= |files| && |iters| == |files| - i && fresh(iters) && Merging.Distinct(iters)
      invariant forall k :: i <= k < |files| ==> files[k].timestamp in dir.tables
      invariant forall j :: 0 <= j < |iters| ==>
        && iters[j].err == None && iters[j].Rest() == TableEntries(dir.tables[files[|files| - 1 - j].timestamp])
        && iters[j].Stop() == TableStop(dir.tables[files[|files| - 1 - j].timestamp])
    {
      i := i - 1;
      var iter := files[i].NewIterator(dir);
      if iter == null {
        return iters, false;
      }
      iters := iters + [iter];
    }
    return iters, true;
  }

  lemma InputsAreGood(hash: Bytes -> u32, files: seq<Reader>, tables: map<int, Bytes>)
    requires FilesPresent(files, tables) && forall t :: t in tables ==> WellFormed(hash, tables[t])
    ensures forall i :: 0 <= i < |files| ==> Sorted(Inputs(files, tables)[i]) && FitsTable(Inputs(files, tables)[i])
    ensures forall i :: 0 <= i < |files| ==> TableStop(tables[files[i].timestamp]) == AtLimit
  {
    hide FileBytes, TableEntries, TableStop, Sorted, FitsTable;
    forall i | 0 <= i < |files| ensures TableStop(tables[files[i].timestamp]) == AtLimit {
      WellFormedLoads(hash, tables[files[i].timestamp]);
    }
  }

  /** Merges the files into one under the newest one's name and opens it. Nothing is done if
      one of them is missing. */
  method MergeFiles(hash: Bytes -> u32, dir: DataDir, files: seq<Reader>) returns (merged: Reader?)
    requires files != [] && InputsFit(files, dir.tables)
    requires forall t :: t in dir.tables ==> WellFormed(hash, dir.tables[t])
    modifies dir`tables
    ensures merged == null <==> !FilesPresent(files, old(dir.tables))
    ensures merged == null ==> dir.tables == old(dir.tables)
    ensures merged != null ==>
      && fresh(ReaderObjects(merged)) && ReaderReady(hash, merged)
      && merged.timestamp == files[|files| - 1].timestamp
      && TableOf(merged.data) == UnionRuns(PresentRuns(RunsOf(files), TablesOf(old(dir.tables))))
      && dir.tables == old(dir.tables)[merged.timestamp := merged.data]
  {
    hide WellFormed, TableEntries, TableStop, Inputs, Sorted, ToMap, Merging.NewestWins, Merging.TotalLength,
      KeysFit, FitsTable,
      UnionRuns, PresentRuns, FileBytes, Builder.Valid, Reader.Valid, Load, TableIterator.Rest, TableIterator.Stop;
    ghost var tables := dir.tables;
    var iters, present := OpenInputs(dir, files);
    if !present {
      return null;
    }
    InputsAreGood(hash, files, tables);
    InputsUnion(files, tables);
    var builder := new Builder(hash, dir, files[|files| - 1].timestamp);
    var ok := Merging.Merge(iters, builder);
    MergedFits(Inputs(files, tables), builder.entries);
    FileIsWellFormed(hash, builder.entries);
    WellFormedLoads(hash, dir.tables[builder.timestamp]);
    merged := NewReader(hash, dir, builder.timestamp);
  }

  // ---------- the new list of readers ----------

  lemma PickedReader(readers: seq<Reader>, picked: seq<nat>, i: nat)
    requires Merging.Distinct(readers) && Increasing(picked, |readers|) && i < |readers|
    ensures readers[i] in Picks(readers, picked) <==> i in picked
  {
    if i in picked {
      var j :| 0 <= j < |picked| && picked[j] == i;
      assert Picks(readers, picked)[j] == readers[i];
    }
  }

  /** The list so far: what is in it, and which runs it stands for. */
  ghost predicate Rebuilt(readers: seq<Reader>, picked: seq<nat>, merged: Reader, i: nat, inserted: bool, list: seq<Reader>) {
    && i <= |readers| && Merging.Distinct(list)
    && (forall r :: r in list ==> r == merged || r in readers[..i])
    && (merged in list <==> inserted)
    && (inserted <==> exists j :: 0 <= j < |picked| && picked[j] < i)
    && RunsOf(list) == Splice(RunsOf(readers)[..i], picked, RunOf(merged))
  }

  lemma RebuiltStep(readers: seq<Reader>, picked: seq<nat>, merged: Reader, i: nat, inserted: bool, list: seq<Reader>)
    requires Merging.Distinct(readers) && Increasing(picked, |readers|) && merged !in readers && i < |readers|
    requires Rebuilt(readers, picked, merged, i, inserted, list)
    ensures i !in picked ==> Rebuilt(readers, picked, merged, i + 1, inserted, list + [readers[i]])
    ensures i in picked && inserted ==> Rebuilt(readers, picked, merged, i + 1, inserted, list)
    ensures i in picked && !inserted ==> Rebuilt(readers, picked, merged, i + 1, true, list + [merged])
  {
    hide Splice, TableOf;
    SpliceStep(RunsOf(readers), picked, RunOf(merged), i);
    assert readers[..i + 1] == readers[..i] + [readers[i]];
    assert readers[i] !in readers[..i];
    assert RunsOf(list + [readers[i]]) == RunsOf(list) + [RunOf(readers[i])];
    assert RunsOf(list + [merged]) == RunsOf(list) + [RunOf(merged)];
  }

  lemma RebuiltEnds(readers: seq<Reader>, picked: seq<nat>, merged: Reader, list: seq<Reader>)
    ensures Rebuilt(readers, picked, merged, 0, false, [])
    ensures RunsOf(readers)[..|readers|] == RunsOf(readers) && readers[..|readers|] == readers
  {
    assert RunsOf(readers)[..0] == [] && RunsOf([]) == [];
  }

  /** The list in which the merged reader takes the place of the first of the files. */
  method Rebuild(readers: seq<Reader>, files: seq<Reader>, merged: Reader, ghost picked: seq<nat>) returns (list: seq<Reader>)
    requires Merging.Distinct(readers) && Increasing(picked, |readers|) && merged !in readers
    requires files == Picks(readers, picked)
    ensures Merging.Distinct(list) && forall r :: r in list ==> r == merged || r in readers
    ensures RunsOf(list) == Splice(RunsOf(readers), picked, RunOf(merged))
  {
    hide Rebuilt, Splice, RunsOf;
    RebuiltEnds(readers, picked, merged, []);
    list := [];
    var compacted := set r | r in files;
    var inserted := false;
    var i := 0;
    while i < |readers|
      invariant i <= |readers| && Rebuilt(readers, picked, merged, i, inserted, list)
    {
      RebuiltStep(readers, picked, merged, i, inserted, list);
      PickedReader(readers, picked, i);
      if readers[i] in compacted {
        if !inserted {
          list := list + [merged];
          inserted := true;
        }
      } else {
        list := list + [readers[i]];
      }
      i := i + 1;
    }
    RebuiltIs(readers, picked, merged, inserted, list);
  }

  lemma RebuiltIs(readers: seq<Reader>, picked: seq<nat>, merged: Reader, inserted: bool, list: seq<Reader>)
    requires Rebuilt(readers, picked, merged, |readers|, inserted, list)
    ensures Merging.Distinct(list) && forall r :: r in list ==> r == merged || r in readers
    ensures RunsOf(list) == Splice(RunsOf(readers), picked, RunOf(merged))
  {
    RebuiltEnds(readers, picked, merged, list);
  }

  // ---------- removing the inputs ----------

  function TimestampsOf(files: seq<Reader>): set<int> {
    set r | r in files :: r.timestamp
  }

  /** The loop at the end of a compaction, as it is in the source: it removes every input by
      name, and the newest input's name is the merged file's. */
  method RemoveInputs(dir: DataDir, files: seq<Reader>)
    modifies dir`tables
    ensures dir.tables == old(dir.tables) - TimestampsOf(files)
  {
    var i := 0;
    while i < |files|
      invariant i <= |files| && dir.tables == old(dir.tables) - TimestampsOf(files[..i])
    {
      assert TimestampsOf(files[..i + 1]) == TimestampsOf(files[..i]) + {files[i].timestamp};
      dir.tables := dir.tables - {files[i].timestamp};
      i := i + 1;
    }
    assert files[..|files|] == files;
  }

  /** The merged file is among those removed. */
  lemma RemovedToo(tables: map<int, Table>, merged: Reader, files: seq<Reader>)
    requires files != [] && merged.timestamp == files[|files| - 1].timestamp
    ensures tables[merged.timestamp := RunOf(merged).table] - TimestampsOf(files) == tables - TimestampsOf(files)
  {
    assert merged.timestamp in TimestampsOf(files);
  }
}
