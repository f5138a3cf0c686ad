/** What the directory alone means: the full scan, and reopening after a crash at any step. */
module Recovery {
  import opened ByteStrings
  import opened Entries
  import opened Store
  import opened Machine

  // ---------- the invariant of the directory, when removal spares the merged file ----------

  ghost predicate AllPresent(s: State) {
    forall i :: 0 <= i < |s.mem.runs| ==> HasFile(s, i)
  }

  /** inputs[i] is still to be removed, and is not the merged file. */
  predicate Leftover(c: CompactPc, t: int) {
    c.Removing? && c.next < |c.inputs| && t in c.inputs[c.next..] && t != c.merged.timestamp
  }

  /** While inputs are being removed, the merged run is among the readers, and each file
      still to be removed is older and has no key that the merged run lacks. */
  ghost predicate RemovingInv(s: State) {
    s.compact.Removing? ==>
      && s.compact.merged in s.mem.runs
      && (forall i :: 0 <= i < |s.mem.runs| ==> !Leftover(s.compact, s.mem.runs[i].timestamp))
      && forall t :: t in s.dir.tables && Leftover(s.compact, t) ==>
           t < s.compact.merged.timestamp && s.dir.tables[t].Keys <= s.compact.merged.table.Keys
  }

  /** Every file belongs to a reader, to the flush in progress, or to the compaction's rest. */
  ghost predicate NoStrays(s: State) {
    forall t :: t in s.dir.tables ==>
      || (exists i :: 0 <= i < |s.mem.runs| && s.mem.runs[i].timestamp == t)
      || s.flush == Built(t)
      || Leftover(s.compact, t)
  }

  /** The logs hold what the memtables hold; the log set aside outlives its memtable, but
      then the readers already answer as it does. */
  ghost predicate LogsMatch(s: State) {
    && s.dir.log == Payloads(s.mem.active)
    && match s.flush
       case FlushIdle => s.dir.flushing == None
       case Rotated => s.mem.immutable.Some? && s.dir.flushing == Some(Payloads(s.mem.immutable.value))
       case Built(_) => s.mem.immutable.Some? && s.dir.flushing == Some(Payloads(s.mem.immutable.value))
       case Published =>
         s.dir.flushing.Some? && forall k :: k in s.dir.flushing.value ==> LookupRuns(s.mem.runs, k) == Some(s.dir.flushing.value[k])
  }

  ghost predicate DirInv(s: State) {
    Inv(s) && AllPresent(s) && RemovingInv(s) && NoStrays(s) && LogsMatch(s)
  }

  lemma WriteKeepsDir(s: State, e: Event)
    requires DirInv(s) && (e.Put? || e.Delete?) && Inv(Next(true, s, e))
    ensures DirInv(Next(true, s, e))
  {
    hide Inv;
    var s' := Next(true, s, e);
    forall i | 0 <= i < |s.mem.runs| ensures HasFile(s', i) {
      assert HasFile(s, i);
    }
  }

  lemma RotateKeepsDir(s: State)
    requires DirInv(s) && Enabled(s, Rotate) && Inv(Next(true, s, Rotate))
    ensures DirInv(Next(true, s, Rotate))
  {
    hide Inv;
    var s' := Next(true, s, Rotate);
    forall i | 0 <= i < |s.mem.runs| ensures HasFile(s', i) {
      assert HasFile(s, i);
    }
  }

  lemma DropLogKeepsDir(s: State)
    requires DirInv(s) && Enabled(s, DropLog) && Inv(Next(true, s, DropLog))
    ensures DirInv(Next(true, s, DropLog))
  {
    hide Inv;
    var s' := Next(true, s, DropLog);
    forall i | 0 <= i < |s.mem.runs| ensures HasFile(s', i) {
      assert HasFile(s, i);
    }
  }

  /** A new file does not collide with anything. */
  lemma BuildIsNew(s: State, timestamp: int)
    requires Inv(s) && timestamp >= s.clock && !s.flush.Built?
    ensures !Leftover(s.compact, timestamp)
    ensures forall i :: 0 <= i < |s.mem.runs| ==> s.mem.runs[i].timestamp != timestamp
  {
  }

  lemma BuildKeepsDir(s: State, timestamp: int)
    requires DirInv(s) && Enabled(s, Build(timestamp)) && Inv(Next(true, s, Build(timestamp)))
    ensures DirInv(Next(true, s, Build(timestamp)))
  {
    BuildIsNew(s, timestamp);
    hide Inv;
    var s' := Next(true, s, Build(timestamp));
    forall i | 0 <= i < |s.mem.runs| ensures HasFile(s', i) {
      assert HasFile(s, i);
    }
  }

  lemma PublishKeepsDir(s: State)
    requires DirInv(s) && Enabled(s, Publish) && Inv(Next(true, s, Publish))
    ensures DirInv(Next(true, s, Publish))
  {
    var s', ts, runs := Next(true, s, Publish), s.flush.timestamp, s.mem.runs;
    var run := Run(ts, Payloads(s.mem.immutable.value));
    assert s'.mem.runs == runs + [run] && (runs + [run])[..|runs|] == runs;
    assert !Leftover(s.compact, ts);
    assert RemovingInv(s');
    forall i | 0 <= i < |runs| ensures HasFile(s', i) {
      assert HasFile(s, i);
    }
    assert NoStrays(s') by {
      assert s'.mem.runs[|runs|].timestamp == ts;
      assert forall i :: 0 <= i < |runs| ==> s'.mem.runs[i] == runs[i];
    }
  }

  lemma SelectKeepsDir(s: State, picked: seq<nat>)
    requires DirInv(s) && Enabled(s, Select(picked)) && Inv(Next(true, s, Select(picked)))
    ensures DirInv(Next(true, s, Select(picked)))
  {
    hide Inv;
    var s' := Next(true, s, Select(picked));
    forall i | 0 <= i < |s.mem.runs| ensures HasFile(s', i) {
      assert HasFile(s, i);
    }
  }

  lemma MergeKeepsDir(s: State)
    requires DirInv(s) && Enabled(s, Merge) && Inv(Next(true, s, Merge))
    ensures DirInv(Next(true, s, Merge))
  {
    hide Inv, MergedRun;
    var s', runs := Next(true, s, Merge), s.mem.runs;
    var last := s.compact.picked[|s.compact.picked| - 1];
    assert s'.compact.merged.timestamp == runs[last].timestamp by {
      MergedRunName(runs, s.compact.picked, s.dir.tables);
    }
    assert HasFile(s, last);
    forall i | 0 <= i < |runs| ensures HasFile(s', i) {
      assert HasFile(s, i);
    }
  }

  lemma MergedRunName(runs: seq<Run>, picked: seq<nat>, tables: map<int, Table>)
    requires picked != [] && forall i :: 0 <= i < |picked| ==> picked[i] < |runs|
    ensures MergedRun(runs, picked, tables).timestamp == runs[picked[|picked| - 1]].timestamp
  {
  }

  /** Which readers are left after a swap, and which inputs have become leftovers. */
  lemma SwapKeepsDir(s: State)
    requires DirInv(s) && Enabled(s, Swap) && Inv(Next(true, s, Swap))
    ensures DirInv(Next(true, s, Swap))
  {
    hide UnionRuns, LookupRuns, Splice, RunsOrdered;
    var s', runs := Next(true, s, Swap), s.mem.runs;
    var picked, merged := s.compact.picked, s.compact.merged;
    SpliceContiguous(runs, picked, merged);
    assert AllPresent(s') && merged in s'.mem.runs by { SplicedRuns(s, s'); }
    SplicedStrays(s, s');
    SplicedLeftovers(s, s');
    if s.flush.Published? {
      forall k | k in s.dir.flushing.value ensures LookupRuns(s'.mem.runs, k) == Some(s.dir.flushing.value[k]) {
        SpliceKeepsLookups(runs, picked, merged, k);
      }
    }
  }

  lemma SplicedRuns(s: State, s': State)
    requires Inv(s) && AllPresent(s) && Enabled(s, Swap) && s' == Next(true, s, Swap)
    ensures AllPresent(s') && s.compact.merged in s'.mem.runs
  {
    hide UnionRuns, Splice, RunsOrdered, FilesMatch;
    var runs, picked, merged, r := s.mem.runs, s.compact.picked, s.compact.merged, s'.mem.runs;
    SpliceContiguous(runs, picked, merged);
    var a := picked[0];
    assert r[a] == merged;
    forall i | 0 <= i < |r| ensures HasFile(s', i) {
      var j := if i < a then i else i + |picked| - 1;
      assert i != a ==> r[i] == runs[j];
      assert HasFile(s, j);
    }
  }

  lemma SplicedStrays(s: State, s': State)
    requires Inv(s) && NoStrays(s) && Enabled(s, Swap) && s' == Next(true, s, Swap)
    ensures NoStrays(s')
  {
    hide UnionRuns, Splice, RunsOrdered, FilesMatch;
    var runs, picked, merged, r := s.mem.runs, s.compact.picked, s.compact.merged, s'.mem.runs;
    SpliceContiguous(runs, picked, merged);
    var a, b := picked[0], picked[0] + |picked|;
    forall t | t in s'.dir.tables
      ensures (exists i :: 0 <= i < |r| && r[i].timestamp == t) || s'.flush == Built(t) || Leftover(s'.compact, t)
    {
      if i :| 0 <= i < |runs| && runs[i].timestamp == t {
        if i < a {
          assert r[i] == runs[i];
        } else if i >= b {
          assert r[i - |picked| + 1] == runs[i];
        } else if t == merged.timestamp {
          assert r[a] == merged;
        } else {
          assert picked[i - a] == i;
          assert s'.compact.inputs[i - a] == t;
        }
      }
    }
  }

  /** A leftover is one of the inputs, and not the newest. */
  lemma LeftoverInput(runs: seq<Run>, picked: seq<nat>, merged: Run, t: int) returns (i: nat)
    requires picked != [] && Increasing(picked, |runs|) && merged.timestamp == runs[picked[|picked| - 1]].timestamp
    requires Leftover(Removing(Timestamps(Picks(runs, picked)), merged, 0), t)
    ensures i < |picked| - 1 && runs[picked[i]].timestamp == t
  {
    var inputs := Timestamps(Picks(runs, picked));
    assert inputs[0..] == inputs;
    i :| 0 <= i < |picked| && inputs[i] == t;
  }

  /** No reader is named like an input that went. */
  lemma InputIsGone(runs: seq<Run>, clock: int, picked: seq<nat>, merged: Run, i: nat)
    requires RunsOrdered(runs, clock) && picked != [] && Increasing(picked, |runs|) && Contiguous(picked)
    requires merged.timestamp == runs[picked[|picked| - 1]].timestamp && i < |picked| - 1
    ensures forall j :: 0 <= j < |Splice(runs, picked, merged)| ==> Splice(runs, picked, merged)[j].timestamp != runs[picked[i]].timestamp
    ensures runs[picked[i]].timestamp < merged.timestamp
  {
    hide Splice;
    SpliceContiguous(runs, picked, merged);
    var r, a := Splice(runs, picked, merged), picked[0];
    assert picked[i] == a + i && picked[|picked| - 1] == a + |picked| - 1;
    forall j | 0 <= j < |r| ensures r[j].timestamp != runs[a + i].timestamp {
      assert j < a ==> r[j] == runs[j];
      assert j == a ==> r[j] == merged;
      assert j > a ==> r[j] == runs[j + |picked| - 1];
    }
  }

  /** A leftover's keys are in the merged run. */
  lemma LeftoverKeys(s: State, i: nat)
    requires Inv(s) && s.compact.MergedFile? && i < |s.compact.picked| - 1
    ensures var t := s.mem.runs[s.compact.picked[i]].timestamp;
      t in s.dir.tables && s.dir.tables[t].Keys <= s.compact.merged.table.Keys
  {
    hide UnionRuns, RunsOrdered, FlushInv;
    var runs, picked := s.mem.runs, s.compact.picked;
    var group := Picks(runs, picked);
    UnionHasKeys(group, i);
    assert HasFile(s, picked[i]) && picked[i] != picked[|picked| - 1];
  }

  lemma SplicedLeftovers(s: State, s': State)
    requires Inv(s) && Enabled(s, Swap) && s' == Next(true, s, Swap)
    requires s.compact.merged in s'.mem.runs
    ensures RemovingInv(s')
  {
    hide UnionRuns, Splice, FlushInv, FilesMatch, RunsOrdered, Leftover;
    var runs, picked, merged := s.mem.runs, s.compact.picked, s.compact.merged;
    forall t | Leftover(s'.compact, t)
      ensures t < merged.timestamp && (t in s.dir.tables ==> s.dir.tables[t].Keys <= merged.table.Keys)
      ensures forall j :: 0 <= j < |s'.mem.runs| ==> s'.mem.runs[j].timestamp != t
    {
      var i := LeftoverInput(runs, picked, merged, t);
      InputIsGone(runs, s.clock, picked, merged, i);
      LeftoverKeys(s, i);
    }
  }

  lemma {:induction false} UnionHasKeys(runs: seq<Run>, i: nat)
    requires i < |runs|
    ensures runs[i].table.Keys <= UnionRuns(runs).Keys
  {
    if i < |runs| - 1 {
      UnionHasKeys(runs[..|runs| - 1], i);
    }
  }

  lemma RemoveKeepsDir(s: State)
    requires DirInv(s) && Enabled(s, Remove) && Inv(Next(true, s, Remove))
    ensures DirInv(Next(true, s, Remove))
  {
    hide Inv;
    var s', runs := Next(true, s, Remove), s.mem.runs;
    var Removing(inputs, merged, next) := s.compact;
    var ts := inputs[next];
    assert inputs[next..] == [ts] + inputs[next + 1..];
    assert ts != merged.timestamp ==> Leftover(s.compact, ts);
    forall i | 0 <= i < |runs| ensures HasFile(s', i) {
      assert HasFile(s, i);
    }
    assert forall t :: Leftover(s'.compact, t) ==> Leftover(s.compact, t);
    assert forall t :: Leftover(s.compact, t) && t != ts ==> Leftover(s'.compact, t);
  }

  lemma StepKeepsDir(s: State, e: Event)
    requires DirInv(s) && Enabled(s, e) && Inv(Next(true, s, e))
    ensures DirInv(Next(true, s, e))
  {
    hide DirInv, Inv, Next;
    match e
    case Put(_, _) => WriteKeepsDir(s, e);
    case Delete(_) => WriteKeepsDir(s, e);
    case Rotate => RotateKeepsDir(s);
    case Build(timestamp) => BuildKeepsDir(s, timestamp);
    case Publish => PublishKeepsDir(s);
    case DropLog => DropLogKeepsDir(s);
    case Select(picked) => SelectKeepsDir(s, picked);
    case Merge => MergeKeepsDir(s);
    case Swap => SwapKeepsDir(s);
    case Remove => RemoveKeepsDir(s);
  }

  lemma InitDir()
    ensures DirInv(Init()) && Shows(Init().mem, map[])
  {
  }

  /** Safety over every interleaving when the removal spares the merged file, from any state
      that satisfies the invariant and for any values: no condition on the selection is
      needed, every reader's file stays in place, and the view follows the writes alone. */
  lemma {:induction false} EveryRunIsSafe(s: State, plain: Table, events: seq<Event>)
    requires DirInv(s) && Shows(s.mem, plain) && Exec(true, s, events).Some?
    ensures DirInv(Exec(true, s, events).value)
    ensures Shows(Exec(true, s, events).value.mem, PlainAfter(plain, events))
  {
    hide Inv, Shows, Next;
    if events != [] {
      var e := events[|events| - 1];
      EveryRunIsSafe(s, plain, events[..|events| - 1]);
      var t := Exec(true, s, events[..|events| - 1]).value;
      if e.Select? {
        AllPresentContiguous(t, e.picked);
      }
      StepKeeps(true, t, PlainAfter(plain, events[..|events| - 1]), e);
      StepKeepsDir(t, e);
    }
  }

  // ---------- the full scan ----------

  /** Overwriting the last of some runs by their union changes no lookup. */
  lemma UnionAbsorbs(before: seq<Run>, last: Run, merged: Run, key: Bytes)
    requires merged.table == UnionRuns(before + [last])
    ensures LookupRuns(before + [merged], key) == LookupRuns(before + [last], key)
  {
    LookupIsUnion(before + [last], key);
    LookupConcat(before, [merged], key);
    LookupConcat(before, [last], key);
    LookupOne(merged, key);
    LookupOne(last, key);
  }

  /** The readers, with the replaced file's contents where a merge is waiting to be swapped in. */
  ghost function FileRuns(s: State): (r: seq<Run>)
    ensures |r| == |s.mem.runs|
  {
    seq(|s.mem.runs|, i requires 0 <= i < |s.mem.runs| =>
      if Replaced(s.compact, i) then Run(s.mem.runs[i].timestamp, s.compact.merged.table) else s.mem.runs[i])
  }

  lemma PresentRunsAre(s: State)
    requires Inv(s) && AllPresent(s)
    ensures PresentRuns(s.mem.runs, s.dir.tables) == FileRuns(s)
  {
    forall i | 0 <= i < |s.mem.runs|
      ensures s.mem.runs[i].timestamp in s.dir.tables && s.dir.tables[s.mem.runs[i].timestamp] == FileRuns(s)[i].table
    {
      assert HasFile(s, i);
    }
    OpenedByName(s.mem.runs, s.dir.tables, FileRuns(s));
  }

  lemma {:induction false} OpenedByName(runs: seq<Run>, tables: map<int, Table>, files: seq<Run>)
    requires |runs| == |files|
    requires forall i :: 0 <= i < |runs| ==> runs[i].timestamp in tables && files[i] == Run(runs[i].timestamp, tables[runs[i].timestamp])
    ensures PresentRuns(runs, tables) == files
  {
    if runs != [] {
      OpenedByName(runs[..|runs| - 1], tables, files[..|runs| - 1]);
    }
  }

  /** Overwriting the run at position b - 1 by the union of those from a to b. */
  lemma LastAbsorbs(runs: seq<Run>, a: nat, b: nat, merged: Run, key: Bytes)
    requires a < b <= |runs| && merged.table == UnionRuns(runs[a..b])
    ensures LookupRuns(runs[b - 1 := merged], key) == LookupRuns(runs, key)
  {
    hide LookupRuns, UnionRuns;
    var head, group, last, after := runs[..a], runs[a..b - 1], runs[b - 1], runs[b..];
    assert runs == head + (group + [last]) + after;
    assert runs[b - 1 := merged] == head + (group + [merged]) + after;
    assert runs[a..b] == group + [last];
    UnionAbsorbs(group, last, merged, key);
    LookupConcat(head + (group + [last]), after, key);
    LookupConcat(head + (group + [merged]), after, key);
    LookupConcat(head, group + [last], key);
    LookupConcat(head, group + [merged], key);
  }

  /** Opened by name or by handle, the readers answer alike. */
  lemma FilesAnswerAlike(s: State, key: Bytes)
    requires Inv(s)
    ensures LookupRuns(FileRuns(s), key) == LookupRuns(s.mem.runs, key)
  {
    hide LookupRuns, UnionRuns, RunsOrdered, FilesMatch, FlushInv;
    var runs := s.mem.runs;
    if s.compact.MergedFile? {
      var picked, merged := s.compact.picked, s.compact.merged;
      PickedSlice(runs, picked);
      var a, b := picked[0], picked[0] + |picked|;
      assert picked[|picked| - 1] == b - 1;
      LastAbsorbs(runs, a, b, Run(runs[b - 1].timestamp, merged.table), key);
      assert FileRuns(s) == runs[b - 1 := Run(runs[b - 1].timestamp, merged.table)];
    } else {
      assert FileRuns(s) == runs;
    }
  }

  /** One key of the full scan. */
  lemma ScanAllAt(m: Memory, tables: map<int, Table>, key: Bytes)
    ensures MapGet(ScanAll(m, tables), key) == View(m.(runs := PresentRuns(m.runs, tables)), key)
  {
    LookupIsUnion(PresentRuns(m.runs, tables), key);
  }

  /** ScanAll returns exactly the plain map, in every state in which every reader's file can
      be opened, also while a merged file waits to be swapped in. */
  lemma ScanAllIsPlain(s: State, plain: Table)
    requires Inv(s) && AllPresent(s) && Shows(s.mem, plain)
    ensures ScanAll(s.mem, s.dir.tables) == plain
  {
    hide ScanAll, PresentRuns, Inv;
    forall key ensures MapGet(ScanAll(s.mem, s.dir.tables), key) == MapGet(plain, key) {
      PresentRunsAre(s);
      FilesAnswerAlike(s, key);
      ScanAllAt(s.mem, s.dir.tables, key);
      assert View(s.mem, key) == MapGet(plain, key);
    }
    SameMap(ScanAll(s.mem, s.dir.tables), plain);
  }

  lemma SameMap(a: Table, b: Table)
    requires forall key :: MapGet(a, key) == MapGet(b, key)
    ensures a == b
  {
    assert forall key :: key in a <==> MapGet(a, key).Some?;
    assert forall key :: key in b <==> MapGet(b, key).Some?;
    forall key | key in a ensures key in b && a[key] == b[key] {
      assert MapGet(a, key) == MapGet(b, key);
    }
    forall key | key in b ensures key in a {
      assert MapGet(a, key) == MapGet(b, key);
    }
  }

  // ---------- reopening ----------

  /** The directory's tables in the order of their timestamps. */
  ghost function SortedRuns(tables: map<int, Table>): seq<Run>
    decreases |tables|
  {
    if tables == map[] then []
    else
      var t := Newest(tables.Keys);
      SortedRuns(tables - {t}) + [Run(t, tables[t])]
  }

  ghost function Newest(ts: set<int>): (t: int)
    requires ts != {}
    ensures t in ts && forall u :: u in ts ==> u <= t
  {
    MaximumExists(ts);
    var t :| t in ts && forall u :: u in ts ==> u <= t;
    t
  }

  lemma SomeTimestamp(ts: set<int>)
    ensures ts == {} || exists x :: x in ts
  {
    if !(exists x :: x in ts) {
      assert ts == {};
    }
  }

  lemma {:induction false} MaximumExists(ts: set<int>)
    requires ts != {}
    ensures exists t :: t in ts && forall u :: u in ts ==> u <= t
    decreases |ts|
  {
    SomeTimestamp(ts);
    var x :| x in ts;
    if ts - {x} == {} {
      assert ts == {x};
    } else {
      MaximumExists(ts - {x});
      var t :| t in ts - {x} && forall u :: u in ts - {x} ==> u <= t;
      var m := if t < x then x else t;
      assert m in ts && forall u :: u in ts ==> u <= m by {
        assert forall u :: u in ts ==> u == x || u in ts - {x};
      }
    }
  }

  /** File t is the newest one that has the key. */
  ghost predicate NewestFile(tables: map<int, Table>, key: Bytes, t: int) {
    t in tables && key in tables[t] && forall u :: u in tables && u > t ==> key !in tables[u]
  }

  /** Looking a key up in a reopened directory. */
  lemma {:induction false} SortedRunsLookup(tables: map<int, Table>, key: Bytes)
    ensures forall t :: NewestFile(tables, key, t) ==> LookupRuns(SortedRuns(tables), key) == Some(tables[t][key])
    ensures (forall t :: t in tables ==> key !in tables[t]) ==> LookupRuns(SortedRuns(tables), key) == None
    decreases |tables|
  {
    if tables != map[] {
      var t := Newest(tables.Keys);
      var rest := tables - {t};
      SortedRunsLookup(rest, key);
      assert SortedRuns(tables) == SortedRuns(rest) + [Run(t, tables[t])];
      assert SortedRuns(tables)[..|SortedRuns(rest)|] == SortedRuns(rest);
      if key !in tables[t] {
        forall u | NewestFile(tables, key, u) ensures NewestFile(rest, key, u) {
          assert u in rest && rest[u] == tables[u];
        }
      }
    }
  }

  lemma SortedRunsStep(tables: map<int, Table>)
    ensures SortedRuns(map[]) == []
    ensures tables != map[] ==>
      var t := Newest(tables.Keys); SortedRuns(tables) == SortedRuns(tables - {t}) + [Run(t, tables[t])]
  {
  }

  /** The runs are the files of the directory in the order of their timestamps. */
  ghost predicate ListsFiles(tables: map<int, Table>, runs: seq<Run>) {
    && (forall i, j :: 0 <= i < j < |runs| ==> runs[i].timestamp < runs[j].timestamp)
    && (forall i :: 0 <= i < |runs| ==> runs[i].timestamp in tables && tables[runs[i].timestamp] == runs[i].table)
    && (forall t :: t in tables ==> exists i :: 0 <= i < |runs| && runs[i].timestamp == t)
  }

  lemma NoFiles(tables: map<int, Table>)
    requires ListsFiles(tables, [])
    ensures tables == map[]
  {
    assert forall t :: t !in tables;
  }

  lemma NewestIsLast(tables: map<int, Table>, runs: seq<Run>)
    requires runs != [] && ListsFiles(tables, runs)
    ensures var last := runs[|runs| - 1];
      last.timestamp in tables && tables[last.timestamp] == last.table && Newest(tables.Keys) == last.timestamp
  {
    var last := runs[|runs| - 1].timestamp;
    assert last in tables.Keys;
    var i :| 0 <= i < |runs| && runs[i].timestamp == Newest(tables.Keys);
    assert i == |runs| - 1 || runs[i].timestamp < last;
  }

  lemma FilesOfFirst(tables: map<int, Table>, runs: seq<Run>)
    requires runs != [] && ListsFiles(tables, runs)
    ensures ListsFiles(tables - {runs[|runs| - 1].timestamp}, runs[..|runs| - 1])
  {
    var n := |runs| - 1;
    forall u | u in tables && u != runs[n].timestamp ensures exists j :: 0 <= j < n && runs[..n][j].timestamp == u {
      var j :| 0 <= j < |runs| && runs[j].timestamp == u;
      assert runs[..n][j].timestamp == u;
    }
  }

  /** Reopening lists the files in the order in which the readers were. */
  lemma {:induction false} SortedRunsOrder(tables: map<int, Table>, runs: seq<Run>)
    requires ListsFiles(tables, runs)
    ensures SortedRuns(tables) == runs
    decreases |runs|
  {
    hide SortedRuns, ListsFiles;
    SortedRunsStep(tables);
    if runs == [] {
      NoFiles(tables);
    } else {
      var n := |runs| - 1;
      NewestIsLast(tables, runs);
      FilesOfFirst(tables, runs);
      SortedRunsOrder(tables - {runs[n].timestamp}, runs[..n]);
      assert runs == runs[..n] + [Run(runs[n].timestamp, runs[n].table)];
    }
  }

  /** Open: what is left in wal.log.flushing is appended to wal.log and replayed after it;
      every recovered value is a non-nil slice. */
  ghost function Replayed(d: Directory): Table {
    if d.flushing.Some? then d.log + d.flushing.value else d.log
  }

  ghost function Open(d: Directory): Memory {
    Memory(map k | k in Replayed(d) :: Data(Replayed(d)[k]), None, SortedRuns(d.tables))
  }

  ghost function OpenDirectory(d: Directory): Directory {
    Directory(d.tables, Replayed(d), None)
  }

  /** The directory as it would be if the log held all that Open puts into the memtable: the
      abandoned log's entries, overridden by what is read back from the current log. */
  ghost function Complete(d: Directory, logged: Table): Directory {
    Directory(d.tables, if d.flushing.Some? then d.flushing.value + logged else logged, None)
  }

  /** What Open finds when copies of the abandoned log are not read back, as behind a torn
      tail: the current log overrides the abandoned one. */
  ghost function OpenTorn(d: Directory): Memory {
    Open(Complete(d, d.log))
  }

  /** When the copies are read back, the abandoned log overrides the current one. */
  lemma ReadBack(d: Directory)
    ensures Complete(d, Replayed(d)) == OpenDirectory(d) && Open(OpenDirectory(d)) == Open(d)
  {
    hide SortedRuns;
  }

  /** The length-based view of the store that Open finds in a directory. */
  ghost function ReopenedView(d: Directory, key: Bytes): Option<Bytes> {
    MapGet(ScanAll(Open(d), d.tables), key)
  }

  /** A lookup that succeeds comes from the newest run that has the key. */
  lemma {:induction false} FoundIn(runs: seq<Run>, key: Bytes) returns (i: nat)
    requires LookupRuns(runs, key).Some?
    ensures i < |runs| && key in runs[i].table && LookupRuns(runs, key) == Some(runs[i].table[key])
    ensures forall j :: i < j < |runs| ==> key !in runs[j].table
  {
    if key in runs[|runs| - 1].table {
      i := |runs| - 1;
    } else {
      i := FoundIn(runs[..|runs| - 1], key);
    }
  }

  lemma {:induction false} NotFoundIn(runs: seq<Run>, key: Bytes)
    requires LookupRuns(runs, key).None?
    ensures forall j :: 0 <= j < |runs| ==> key !in runs[j].table
  {
    if runs != [] {
      NotFoundIn(runs[..|runs| - 1], key);
    }
  }

  /** A file with the key belongs to a reader's name, to the flush, or hides behind the merged run. */
  lemma FileOwner(s: State, t: int, key: Bytes) returns (i: nat)
    requires DirInv(s) && t in s.dir.tables && key in s.dir.tables[t] && s.flush != Built(t)
    ensures i < |s.mem.runs| && s.mem.runs[i].timestamp >= t && key in FileRuns(s)[i].table
  {
    hide LookupRuns, UnionRuns;
    if Leftover(s.compact, t) {
      i :| 0 <= i < |s.mem.runs| && s.mem.runs[i] == s.compact.merged;
    } else {
      i :| 0 <= i < |s.mem.runs| && s.mem.runs[i].timestamp == t;
      assert HasFile(s, i);
    }
  }

  /** Looking a key up in the reopened directory finds what the readers find, unless a
      finished but unpublished table has it. */
  lemma DirectoryAnswers(s: State, key: Bytes)
    requires DirInv(s)
    ensures LookupRuns(SortedRuns(s.dir.tables), key) ==
      if s.flush.Built? && key in s.dir.tables[s.flush.timestamp] then Some(s.dir.tables[s.flush.timestamp][key])
      else LookupRuns(s.mem.runs, key)
  {
    hide LookupRuns, UnionRuns, SortedRuns;
    var tables, files := s.dir.tables, FileRuns(s);
    SortedRunsLookup(tables, key);
    FilesAnswerAlike(s, key);
    if s.flush.Built? && key in tables[s.flush.timestamp] {
      UnpublishedIsNewest(s);
      assert NewestFile(tables, key, s.flush.timestamp);
    } else if LookupRuns(files, key).Some? {
      var i := FoundIn(files, key);
      var t := s.mem.runs[i].timestamp;
      assert t in tables && tables[t] == files[i].table by { assert HasFile(s, i); }
      forall u | u in tables && u > t ensures key !in tables[u] {
        if key in tables[u] {
          var j := FileOwner(s, u, key);
          assert j <= i;
          OrderedTimes(s, j, i);
        }
      }
      assert NewestFile(tables, key, t);
    } else {
      NotFoundIn(files, key);
      forall t | t in tables ensures key !in tables[t] {
        if key in tables[t] {
          var j := FileOwner(s, t, key);
        }
      }
    }
  }

  lemma OrderedTimes(s: State, j: nat, i: nat)
    requires Inv(s) && j <= i < |s.mem.runs|
    ensures s.mem.runs[j].timestamp <= s.mem.runs[i].timestamp
  {
  }

  lemma UnpublishedIsNewest(s: State)
    requires DirInv(s) && s.flush.Built?
    ensures forall u :: u in s.dir.tables ==> u <= s.flush.timestamp
  {
    hide LookupRuns, UnionRuns, LogsMatch;
  }

  /** The view after reopening, key by key. */
  lemma ReopenedAt(d: Directory, key: Bytes)
    ensures ReopenedView(d, key) ==
      if key in Replayed(d) then TableAnswer(Some(Replayed(d)[key])) else TableAnswer(LookupRuns(SortedRuns(d.tables), key))
  {
    hide SortedRuns;
    var runs := SortedRuns(d.tables);
    SortedRunsPresent(d.tables);
    LookupIsUnion(runs, key);
    assert forall k :: k in Replayed(d) <==> k in Open(d).active;
  }

  lemma {:induction false} SortedRunsFiles(tables: map<int, Table>, i: nat)
    requires i < |SortedRuns(tables)|
    ensures var r := SortedRuns(tables)[i]; r.timestamp in tables && r.table == tables[r.timestamp]
    decreases |tables|
  {
    if tables != map[] {
      var rest := tables - {Newest(tables.Keys)};
      if i < |SortedRuns(rest)| {
        SortedRunsFiles(rest, i);
      }
    }
  }

  lemma SortedRunsPresent(tables: map<int, Table>)
    ensures PresentRuns(SortedRuns(tables), tables) == SortedRuns(tables)
  {
    forall i | 0 <= i < |SortedRuns(tables)|
      ensures SortedRuns(tables)[i].timestamp in tables && tables[SortedRuns(tables)[i].timestamp] == SortedRuns(tables)[i].table
    {
      SortedRunsFiles(tables, i);
    }
    PresentAre(SortedRuns(tables), tables);
  }

  ghost predicate RewrittenSinceRotation(d: Directory, key: Bytes) {
    d.flushing.Some? && key in d.flushing.value && key in d.log
  }

  /** Crash safety, at every step of every run: reopening shows the plain map for every key,
      except that a key rewritten since the rotation shows its older value again. */
  lemma CrashKeepsView(s: State, plain: Table, key: Bytes)
    requires DirInv(s) && Shows(s.mem, plain)
    ensures !RewrittenSinceRotation(s.dir, key) ==> ReopenedView(s.dir, key) == MapGet(plain, key)
    ensures RewrittenSinceRotation(s.dir, key) ==>
      && ReopenedView(s.dir, key) == TableAnswer(Some(s.dir.flushing.value[key]))
      && MapGet(plain, key) == TableAnswer(Some(s.dir.log[key]))
    ensures ReopenedView(s.dir, key) == MapGet(plain, key) <==>
      (RewrittenSinceRotation(s.dir, key) ==> s.dir.flushing.value[key] == s.dir.log[key])
  {
    hide UnionRuns, ReopenedView, SortedRuns, RunsOrdered, FilesMatch, CompactInv, NoStrays, RemovingInv;
    ReopenedAt(s.dir, key);
    DirectoryAnswers(s, key);
    assert View(s.mem, key) == MapGet(plain, key);
    assert key in s.mem.active <==> key in s.dir.log;
  }

  /** With no log set aside, the reopened store is the plain map. */
  lemma QuietCrashIsPlain(s: State, plain: Table)
    requires DirInv(s) && Shows(s.mem, plain) && s.dir.flushing.None?
    ensures ScanAll(Open(s.dir), s.dir.tables) == plain
  {
    hide ScanAll, DirInv, Shows, Open;
    forall key ensures MapGet(ScanAll(Open(s.dir), s.dir.tables), key) == MapGet(plain, key) {
      CrashKeepsView(s, plain, key);
    }
    SameMap(ScanAll(Open(s.dir), s.dir.tables), plain);
  }

  /** Reopening reproduces the list of readers when nothing is in progress. */
  lemma ReopenedOrder(s: State)
    requires DirInv(s) && s.compact.CompactIdle? && !s.flush.Built?
    ensures Open(s.dir).runs == s.mem.runs
  {
    hide LookupRuns, UnionRuns, SortedRuns, LogsMatch, Open;
    var runs, tables := s.mem.runs, s.dir.tables;
    forall i | 0 <= i < |runs| ensures runs[i].timestamp in tables && tables[runs[i].timestamp] == runs[i].table {
      assert HasFile(s, i);
    }
    forall t | t in tables ensures exists i :: 0 <= i < |runs| && runs[i].timestamp == t {
      assert !Leftover(s.compact, t) && s.flush != Built(t);
    }
    SortedRunsOrder(tables, runs);
    OpenRuns(s.dir);
  }

  lemma OpenRuns(d: Directory)
    ensures Open(d).runs == SortedRuns(d.tables)
  {
  }

  /** A crash while Open is copying the set-aside log, between two records: what has been
      copied is copied again. */
  lemma InterruptedOpen(d: Directory, copied: Table)
    requires d.flushing.Some? && copied.Items <= d.flushing.value.Items
    ensures Replayed(d.(log := d.log + copied)) == Replayed(d)
  {
    forall k | k in copied ensures k in d.flushing.value && d.flushing.value[k] == copied[k] {
      assert (k, copied[k]) in copied.Items;
    }
  }

  /** After reopening, the layered search differs from the scan for exactly the keys whose
      recovered value is empty: a recovered tombstone is found, as an empty value. */
  lemma ReopenedGet(d: Directory, key: Bytes)
    ensures Get(Open(d), key) == ReopenedView(d, key) <==> !(key in Replayed(d) && Replayed(d)[key] == [])
    ensures key in Replayed(d) && Replayed(d)[key] == [] ==> Get(Open(d), key) == Some([]) && ReopenedView(d, key) == None
  {
    hide SortedRuns, ReopenedView;
    ReopenedAt(d, key);
  }
}
