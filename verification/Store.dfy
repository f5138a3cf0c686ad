/** The store as values: what the memtables, the readers and the data directory mean, and
    what each lock-protected section of the engine does to them. */
module Store {
  import opened ByteStrings
  import opened Entries

  type Table = map<Bytes, Bytes>
  type Memtable = map<Bytes, Value>

  const COMPACTION_THRESHOLD: nat := 4

  /** An open reader: the timestamp in its file name, and the contents of its open file. */
  datatype Run = Run(timestamp: int, table: Table)

  /** Readers are listed oldest first. */
  datatype Memory = Memory(active: Memtable, immutable: Option<Memtable>, runs: seq<Run>)

  /** The files on disk: tables by timestamp, and what recovering either log returns. */
  datatype Directory = Directory(tables: map<int, Table>, log: Table, flushing: Option<Table>)

  // ---------- reading ----------

  /** The newest run that has the key decides. */
  function LookupRuns(runs: seq<Run>, key: Bytes): Option<Bytes> {
    if runs == [] then None
    else if key in runs[|runs| - 1].table then Some(runs[|runs| - 1].table[key])
    else LookupRuns(runs[..|runs| - 1], key)
  }

  /** A memtable hides a key only with nil. */
  function MemtableAnswer(v: Value): Option<Bytes> {
    match v
    case Nil => None
    case Data(bs) => Some(bs)
  }

  /** A table hides a key with any empty value. */
  function TableAnswer(found: Option<Bytes>): Option<Bytes> {
    if found == Some([]) then None else found
  }

  /** The layered search, newest layer first. */
  function Get(m: Memory, key: Bytes): Option<Bytes> {
    if key in m.active then MemtableAnswer(m.active[key])
    else if m.immutable.Some? && key in m.immutable.value then MemtableAnswer(m.immutable.value[key])
    else TableAnswer(LookupRuns(m.runs, key))
  }

  /** Entries that are not tombstones. */
  function Live(m: Table): Table {
    map k | k in m && m[k] != [] :: m[k]
  }

  function UnionRuns(runs: seq<Run>): Table {
    if runs == [] then map[] else UnionRuns(runs[..|runs| - 1]) + runs[|runs| - 1].table
  }

  /** The runs whose file can still be opened by name, with the contents of that file. */
  function PresentRuns(runs: seq<Run>, tables: map<int, Table>): seq<Run> {
    if runs == [] then []
    else
      var pre, last := PresentRuns(runs[..|runs| - 1], tables), runs[|runs| - 1];
      if last.timestamp in tables then pre + [Run(last.timestamp, tables[last.timestamp])] else pre
  }

  /** The full scan: oldest layer first, newer entries overwrite, tombstones dropped. */
  function ScanAll(m: Memory, tables: map<int, Table>): Table {
    Live(UnionRuns(PresentRuns(m.runs, tables))
         + (if m.immutable.Some? then Payloads(m.immutable.value) else map[])
         + Payloads(m.active))
  }

  lemma {:induction false} LookupConcat(a: seq<Run>, b: seq<Run>, key: Bytes)
    ensures LookupRuns(a + b, key) == if LookupRuns(b, key).Some? then LookupRuns(b, key) else LookupRuns(a, key)
  {
    if b == [] {
      assert a + b == a;
    } else {
      assert (a + b)[..|a + b| - 1] == a + b[..|b| - 1];
      LookupConcat(a, b[..|b| - 1], key);
    }
  }

  lemma {:induction false} LookupIsUnion(runs: seq<Run>, key: Bytes)
    ensures LookupRuns(runs, key) == MapGet(UnionRuns(runs), key)
  {
    if runs != [] {
      LookupIsUnion(runs[..|runs| - 1], key);
    }
  }

  lemma LookupOne(run: Run, key: Bytes)
    ensures LookupRuns([run], key) == MapGet(run.table, key)
  {
    assert [run][..0] == [];
  }

  lemma LookupAppend(runs: seq<Run>, run: Run, key: Bytes)
    ensures LookupRuns(runs + [run], key) == if key in run.table then Some(run.table[key]) else LookupRuns(runs, key)
    ensures LookupRuns([], key) == None
  {
    assert (runs + [run])[..|runs|] == runs;
  }

  // ---------- the plain map that the store must look like ----------

  /** A write of nil or of the empty value removes the key. */
  function Written(plain: Table, key: Bytes, v: Value): Table {
    if Payload(v) == [] then plain - {key} else plain[key := Payload(v)]
  }

  // ---------- what the sections do ----------

  function WriteMem(m: Memory, key: Bytes, v: Value): Memory {
    m.(active := m.active[key := v])
  }

  function WriteDir(d: Directory, key: Bytes, v: Value): Directory {
    d.(log := d.log[key := Payload(v)])
  }

  /** The first section of Flush: the memtable becomes immutable, the log is set aside. */
  function RotateMem(m: Memory): Memory {
    m.(active := map[], immutable := Some(m.active))
  }

  function RotateDir(d: Directory): Directory {
    d.(log := map[], flushing := Some(d.log))
  }

  /** Writing the table file of the immutable memtable. */
  function BuildDir(d: Directory, immutable: Memtable, timestamp: int): Directory {
    d.(tables := d.tables[timestamp := Payloads(immutable)])
  }

  /** The second section of Flush. */
  function PublishMem(m: Memory, run: Run): Memory {
    m.(immutable := None, runs := m.runs + [run])
  }

  /** The second section of a compaction: the merged run takes the place of the first of its
      inputs, and the others go. */
  function Splice(runs: seq<Run>, picked: seq<nat>, merged: Run): seq<Run> {
    if runs == [] then []
    else
      var n := |runs| - 1;
      var pre := Splice(runs[..n], picked, merged);
      if n !in picked then pre + [runs[n]]
      else if exists j :: 0 <= j < |picked| && picked[j] < n then pre
      else pre + [merged]
  }

  /** The inputs are neighbours. */
  ghost predicate Contiguous(picked: seq<nat>) {
    forall i :: 0 <= i < |picked| ==> picked[i] == picked[0] + i
  }

  ghost predicate Increasing(picked: seq<nat>, n: nat) {
    && (forall i, j :: 0 <= i < j < |picked| ==> picked[i] < picked[j])
    && (forall i :: 0 <= i < |picked| ==> picked[i] < n)
  }

  /** What stands at the positions picked. */
  function Picks<T>(s: seq<T>, picked: seq<nat>): (r: seq<T>)
    requires forall i :: 0 <= i < |picked| ==> picked[i] < |s|
    ensures |r| == |picked| && forall i :: 0 <= i < |picked| ==> r[i] == s[picked[i]]
  {
    seq(|picked|, i requires 0 <= i < |picked| => s[picked[i]])
  }

  /** The run a merge of these runs' files makes, under the newest one's name. */
  function MergedOf(group: seq<Run>, tables: map<int, Table>): Run
    requires group != []
  {
    Run(group[|group| - 1].timestamp, UnionRuns(PresentRuns(group, tables)))
  }

  // ---------- sections in a row ----------

  /** Whether a flush finds anything to do. */
  predicate FlushPending(m: Memory) {
    m.active != map[] || m.immutable.Some?
  }

  function RotatedMem(m: Memory): Memory {
    if FlushPending(m) && m.immutable.None? then RotateMem(m) else m
  }

  function RotatedDir(m: Memory, d: Directory): Directory {
    if FlushPending(m) && m.immutable.None? then RotateDir(d) else d
  }

  /** A whole flush. */
  function FlushedMem(m: Memory, timestamp: int): Memory {
    if FlushPending(m) then PublishMem(RotatedMem(m), Run(timestamp, Payloads(RotatedMem(m).immutable.value))) else m
  }

  function FlushedDir(m: Memory, d: Directory, timestamp: int): Directory {
    if FlushPending(m)
    then BuildDir(RotatedDir(m, d), RotatedMem(m).immutable.value, timestamp).(flushing := None)
    else d
  }

  lemma PickedMembers(picked: seq<nat>, m: nat)
    requires picked != [] && Contiguous(picked)
    ensures m in picked <==> picked[0] <= m < picked[0] + |picked|
    ensures (exists j :: 0 <= j < |picked| && picked[j] < m) <==> picked[0] < m
  {
    if picked[0] <= m < picked[0] + |picked| {
      assert picked[m - picked[0]] == m;
    }
  }

  /** A splice, one reader at a time. */
  lemma SpliceStep(runs: seq<Run>, picked: seq<nat>, merged: Run, i: nat)
    requires i < |runs|
    ensures Splice(runs[..i + 1], picked, merged) ==
      if i !in picked then Splice(runs[..i], picked, merged) + [runs[i]]
      else if exists j :: 0 <= j < |picked| && picked[j] < i then Splice(runs[..i], picked, merged)
      else Splice(runs[..i], picked, merged) + [merged]
    ensures Splice(runs[..0], picked, merged) == [] && runs[..|runs|] == runs
  {
    assert runs[..i + 1][..i] == runs[..i];
  }

  lemma {:induction false} SplicePrefix(runs: seq<Run>, picked: seq<nat>, merged: Run, n: nat)
    requires n <= |runs| && picked != [] && Contiguous(picked)
    ensures var a, b := picked[0], picked[0] + |picked|;
      Splice(runs[..n], picked, merged) ==
        if n <= a then runs[..n] else if n <= b then runs[..a] + [merged] else runs[..a] + [merged] + runs[b..n]
  {
    var a, b := picked[0], picked[0] + |picked|;
    if n > 0 {
      var m := n - 1;
      SplicePrefix(runs, picked, merged, m);
      assert runs[..n][..m] == runs[..m];
      PickedMembers(picked, m);
      if n <= a {
        assert runs[..n] == runs[..m] + [runs[m]];
      } else if n > b {
        assert runs[b..n] == runs[b..m] + [runs[m]];
      }
    }
  }

  /** Splicing neighbours. */
  lemma SpliceContiguous(runs: seq<Run>, picked: seq<nat>, merged: Run)
    requires picked != [] && Contiguous(picked) && Increasing(picked, |runs|)
    ensures picked[0] + |picked| <= |runs|
    ensures Splice(runs, picked, merged) == runs[..picked[0]] + [merged] + runs[picked[0] + |picked|..]
  {
    assert picked[|picked| - 1] == picked[0] + |picked| - 1;
    SplicePrefix(runs, picked, merged, |runs|);
    assert runs[..|runs|] == runs;
  }

  /** The neighbours are a slice of the readers. */
  lemma PickedSlice(runs: seq<Run>, picked: seq<nat>)
    requires picked != [] && Contiguous(picked) && Increasing(picked, |runs|)
    ensures picked[0] + |picked| <= |runs|
    ensures Picks(runs, picked) == runs[picked[0]..picked[0] + |picked|]
  {
    assert picked[|picked| - 1] == picked[0] + |picked| - 1;
  }

  /** A splice of neighbours by their union changes no lookup. */
  lemma SpliceKeepsLookups(runs: seq<Run>, picked: seq<nat>, merged: Run, key: Bytes)
    requires picked != [] && Contiguous(picked) && Increasing(picked, |runs|)
    requires merged.table == UnionRuns(Picks(runs, picked))
    ensures LookupRuns(Splice(runs, picked, merged), key) == LookupRuns(runs, key)
  {
    hide LookupRuns, UnionRuns, Splice;
    PickedSlice(runs, picked);
    SpliceContiguous(runs, picked, merged);
    var a, b := picked[0], picked[0] + |picked|;
    var before, group, after := runs[..a], runs[a..b], runs[b..];
    assert runs == before + group + after;
    LookupIsUnion(group, key);
    LookupOne(merged, key);
    LookupConcat(before + group, after, key);
    LookupConcat(before, group, key);
    LookupConcat(before + [merged], after, key);
    LookupConcat(before, [merged], key);
  }

  /** Inputs beyond the end of the list make no difference. */
  lemma {:induction false} SpliceIgnores(runs: seq<Run>, picked: seq<nat>, rest: seq<nat>, merged: Run)
    requires rest <= picked && forall i :: |rest| <= i < |picked| ==> picked[i] >= |runs|
    ensures Splice(runs, picked, merged) == Splice(runs, rest, merged)
  {
    if runs != [] {
      var n := |runs| - 1;
      SpliceIgnores(runs[..n], picked, rest, merged);
      assert forall j :: 0 <= j < |rest| ==> picked[j] == rest[j];
      assert n in picked <==> n in rest;
      assert (exists j :: 0 <= j < |picked| && picked[j] < n) <==> (exists j :: 0 <= j < |rest| && rest[j] < n);
    }
  }

  /** Any splice, of neighbours or not, replaces its inputs by one run. */
  lemma {:induction false} SpliceLength(runs: seq<Run>, picked: seq<nat>, merged: Run)
    requires Increasing(picked, |runs|)
    ensures |Splice(runs, picked, merged)| == |runs| - |picked| + if picked == [] then 0 else 1
  {
    if runs != [] {
      var n := |runs| - 1;
      if n in picked {
        LastPicked(picked, n);
        var rest := picked[..|picked| - 1];
        SpliceLength(runs[..n], rest, merged);
        SpliceIgnores(runs[..n], picked, rest, merged);
        assert rest != [] ==> picked[0] < n;
      } else {
        SpliceLength(runs[..n], picked, merged);
      }
    } else {
      assert picked == [];
    }
  }

  lemma LastPicked(picked: seq<nat>, n: nat)
    requires Increasing(picked, n + 1) && n in picked
    ensures picked[|picked| - 1] == n
  {
    var k :| 0 <= k < |picked| && picked[k] == n;
    assert picked[k] <= picked[|picked| - 1];
  }
}
