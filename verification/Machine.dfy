/** The engine as a state machine: one flusher, one compactor and any number of clients,
    interleaved at their lock-protected sections and at their changes to the directory. */
module Machine {
  import opened ByteStrings
  import opened Entries
  import opened Store

  datatype FlushPc =
    | FlushIdle
    | Rotated               // memtable and log set aside
    | Built(timestamp: int) // the table file is in place
    | Published             // the reader is in the list, wal.log.flushing still exists

  datatype CompactPc =
    | CompactIdle
    | Selected(picked: seq<nat>)
    | MergedFile(picked: seq<nat>, merged: Run) // renamed over the newest input
    | Removing(inputs: seq<int>, merged: Run, next: nat)

  datatype State = State(mem: Memory, dir: Directory, flush: FlushPc, compact: CompactPc, clock: int)

  datatype Event =
    | Put(key: Bytes, value: Value)
    | Delete(key: Bytes)
    | Rotate
    | Build(timestamp: int)
    | Publish
    | DropLog
    | Select(picked: seq<nat>)
    | Merge
    | Swap
    | Remove

  function Init(): State {
    State(Memory(map[], None, []), Directory(map[], map[], None), FlushIdle, CompactIdle, 0)
  }

  predicate HasFile(s: State, i: nat)
    requires i < |s.mem.runs|
  {
    s.mem.runs[i].timestamp in s.dir.tables
  }

  /** What the selection may return: four readers in list order whose files can be found,
      with nothing between them but readers whose files cannot. */
  ghost predicate MaySelect(s: State, picked: seq<nat>) {
    && |picked| == COMPACTION_THRESHOLD && Increasing(picked, |s.mem.runs|)
    && (forall i :: 0 <= i < |picked| ==> HasFile(s, picked[i]))
    && (forall r :: picked[0] <= r <= picked[|picked| - 1] && r !in picked ==> !HasFile(s, r))
  }

  ghost predicate Enabled(s: State, e: Event) {
    match e
    case Put(_, _) => true
    case Delete(_) => true
    case Rotate => s.flush.FlushIdle? && s.mem.immutable.None? && s.mem.active != map[]
    case Build(timestamp) => s.flush.Rotated? && s.mem.immutable.Some? && timestamp >= s.clock
    case Publish => s.flush.Built? && s.mem.immutable.Some?
    case DropLog => s.flush.Published?
    case Select(picked) => s.compact.CompactIdle? && MaySelect(s, picked)
    case Merge =>
      && s.compact.Selected? && s.compact.picked != [] && Increasing(s.compact.picked, |s.mem.runs|)
      && forall i :: 0 <= i < |s.compact.picked| ==> HasFile(s, s.compact.picked[i])
    case Swap => s.compact.MergedFile? && s.compact.picked != [] && Increasing(s.compact.picked, |s.mem.runs|)
    case Remove => s.compact.Removing? && s.compact.next < |s.compact.inputs|
  }

  /** The run a merge of the picked readers' files writes, under the newest one's name. */
  function MergedRun(runs: seq<Run>, picked: seq<nat>, tables: map<int, Table>): Run
    requires picked != [] && forall i :: 0 <= i < |picked| ==> picked[i] < |runs|
  {
    MergedOf(Picks(runs, picked), tables)
  }

  function Timestamps(runs: seq<Run>): (ts: seq<int>)
    ensures |ts| == |runs| && forall i :: 0 <= i < |runs| ==> ts[i] == runs[i].timestamp
  {
    seq(|runs|, i requires 0 <= i < |runs| => runs[i].timestamp)
  }

  /** One step. The source removes every input file, the merged one's name included; with
      keepMerged the removal spares that name. */
  ghost function Next(keepMerged: bool, s: State, e: Event): State
    requires Enabled(s, e)
  {
    match e
    case Put(key, value) => s.(mem := WriteMem(s.mem, key, value), dir := WriteDir(s.dir, key, value))
    case Delete(key) => s.(mem := WriteMem(s.mem, key, Nil), dir := WriteDir(s.dir, key, Nil))
    case Rotate => s.(mem := RotateMem(s.mem), dir := RotateDir(s.dir), flush := Rotated)
    case Build(timestamp) =>
      s.(dir := BuildDir(s.dir, s.mem.immutable.value, timestamp), flush := Built(timestamp), clock := timestamp + 1)
    case Publish =>
      s.(mem := PublishMem(s.mem, Run(s.flush.timestamp, Payloads(s.mem.immutable.value))), flush := Published)
    case DropLog => s.(dir := s.dir.(flushing := None), flush := FlushIdle)
    case Select(picked) => s.(compact := Selected(picked))
    case Merge =>
      var merged := MergedRun(s.mem.runs, s.compact.picked, s.dir.tables);
      s.(dir := s.dir.(tables := s.dir.tables[merged.timestamp := merged.table]),
         compact := MergedFile(s.compact.picked, merged))
    case Swap =>
      var picked, merged := s.compact.picked, s.compact.merged;
      s.(mem := s.mem.(runs := Splice(s.mem.runs, picked, merged)),
         compact := Removing(Timestamps(Picks(s.mem.runs, picked)), merged, 0))
    case Remove =>
      var Removing(inputs, merged, next) := s.compact;
      var ts := inputs[next];
      s.(dir := if keepMerged && ts == merged.timestamp then s.dir else s.dir.(tables := s.dir.tables - {ts}),
         compact := if next + 1 == |inputs| then CompactIdle else Removing(inputs, merged, next + 1))
  }

  // ---------- runs ----------

  /** The state after a run, if every step of it is possible. */
  ghost function Exec(keepMerged: bool, s: State, events: seq<Event>): Option<State> {
    if events == [] then Some(s)
    else
      match Exec(keepMerged, s, events[..|events| - 1])
      case None => None
      case Some(t) => if Enabled(t, events[|events| - 1]) then Some(Next(keepMerged, t, events[|events| - 1])) else None
  }

  /** A run with one more step. */
  lemma ExecOne(keepMerged: bool, s: State, events: seq<Event>, t: State, e: Event)
    requires Exec(keepMerged, s, events) == Some(t) && Enabled(t, e)
    ensures Exec(keepMerged, s, events + [e]) == Some(Next(keepMerged, t, e))
  {
    assert (events + [e])[..|events|] == events;
  }

  /** The map that only the writes of a run have changed. */
  function PlainStep(plain: Table, e: Event): Table {
    match e
    case Put(key, value) => Written(plain, key, value)
    case Delete(key) => Written(plain, key, Nil)
    case _ => plain
  }

  function PlainAfter(plain: Table, events: seq<Event>): Table {
    if events == [] then plain else PlainStep(PlainAfter(plain, events[..|events| - 1]), events[|events| - 1])
  }

  /** Values are nil or non-empty. */
  predicate CleanValue(v: Value) {
    v.Nil? || v.bytes != []
  }

  ghost predicate CleanEvents(events: seq<Event>) {
    forall i :: 0 <= i < |events| && events[i].Put? ==> CleanValue(events[i].value)
  }

  ghost predicate ContiguousPicks(events: seq<Event>) {
    forall i :: 0 <= i < |events| && events[i].Select? ==> Contiguous(events[i].picked)
  }

  // ---------- the invariant ----------

  ghost predicate CleanMemtable(m: Memtable) {
    forall k :: k in m ==> CleanValue(m[k])
  }

  ghost predicate CleanMemory(m: Memory) {
    CleanMemtable(m.active) && (m.immutable.Some? ==> CleanMemtable(m.immutable.value))
  }

  /** Readers are in the order of their timestamps, which are in the past. */
  ghost predicate RunsOrdered(runs: seq<Run>, clock: int) {
    && (forall i, j :: 0 <= i < j < |runs| ==> runs[i].timestamp < runs[j].timestamp)
    && (forall i :: 0 <= i < |runs| ==> runs[i].timestamp < clock)
  }

  ghost predicate FlushInv(s: State) {
    match s.flush
    case FlushIdle => s.mem.immutable.None?
    case Rotated => s.mem.immutable.Some?
    case Built(ts) =>
      && s.mem.immutable.Some? && ts < s.clock
      && ts in s.dir.tables && s.dir.tables[ts] == Payloads(s.mem.immutable.value)
      && RunsOrdered(s.mem.runs, ts)
    case Published => s.mem.immutable.None?
  }

  /** Whether the file of reader i has been replaced by the merged one. */
  predicate Replaced(c: CompactPc, i: nat) {
    c.MergedFile? && c.picked != [] && i == c.picked[|c.picked| - 1]
  }

  /** A file found under a reader's name holds what the reader has open, or the merge that
      has just replaced it. */
  ghost predicate FilesMatch(s: State) {
    forall i :: 0 <= i < |s.mem.runs| && HasFile(s, i) ==>
      s.dir.tables[s.mem.runs[i].timestamp] == if Replaced(s.compact, i) then s.compact.merged.table else s.mem.runs[i].table
  }

  ghost predicate PickedInv(s: State, picked: seq<nat>) {
    && |picked| == COMPACTION_THRESHOLD && Increasing(picked, |s.mem.runs|) && Contiguous(picked)
    && forall i :: 0 <= i < |picked| ==> HasFile(s, picked[i])
  }

  ghost predicate CompactInv(s: State) {
    match s.compact
    case CompactIdle => true
    case Selected(picked) => PickedInv(s, picked)
    case MergedFile(picked, merged) =>
      && PickedInv(s, picked)
      && merged.timestamp == s.mem.runs[picked[|picked| - 1]].timestamp
      && merged.table == UnionRuns(Picks(s.mem.runs, picked))
    case Removing(inputs, merged, next) =>
      next < |inputs| && forall i :: 0 <= i < |inputs| ==> inputs[i] < Horizon(s)
  }

  /** Above every timestamp that a reader or a finished compaction can have. */
  function Horizon(s: State): int {
    if s.flush.Built? then s.flush.timestamp else s.clock
  }

  ghost predicate Inv(s: State) {
    RunsOrdered(s.mem.runs, s.clock) && FlushInv(s) && FilesMatch(s) && CompactInv(s)
  }

  /** The newest value of a key, as it is or would be written to a file. */
  function NewestValue(m: Memory, key: Bytes): Option<Bytes> {
    if key in m.active then Some(Payload(m.active[key]))
    else if m.immutable.Some? && key in m.immutable.value then Some(Payload(m.immutable.value[key]))
    else LookupRuns(m.runs, key)
  }

  /** The view of the store in which every empty value is a tombstone. */
  function View(m: Memory, key: Bytes): Option<Bytes> {
    TableAnswer(NewestValue(m, key))
  }

  ghost predicate Shows(m: Memory, plain: Table) {
    forall key :: View(m, key) == MapGet(plain, key)
  }

  /** A memtable decides about the key, with an empty value that is not nil. */
  predicate EmptyOnTop(m: Memory, key: Bytes) {
    if key in m.active then m.active[key] == Data([])
    else m.immutable.Some? && key in m.immutable.value && m.immutable.value[key] == Data([])
  }

  /** The layered search differs from the view for exactly the keys with an empty, non-nil
      value on top. */
  lemma GetIsViewIff(m: Memory, key: Bytes)
    ensures Get(m, key) == View(m, key) <==> !EmptyOnTop(m, key)
  {
    hide LookupRuns;
  }

  lemma CleanGet(m: Memory, key: Bytes)
    requires CleanMemory(m)
    ensures Get(m, key) == View(m, key)
  {
    GetIsViewIff(m, key);
  }

  lemma CleanKeeps(keepMerged: bool, s: State, e: Event)
    requires CleanMemory(s.mem) && Enabled(s, e) && (e.Put? ==> CleanValue(e.value))
    ensures CleanMemory(Next(keepMerged, s, e).mem)
  {
    hide Splice, UnionRuns, MergedOf;
  }

  /** Memtables stay without empty non-nil values if no write brings one. */
  lemma {:induction false} CleanRun(keepMerged: bool, s: State, events: seq<Event>)
    requires CleanMemory(s.mem) && CleanEvents(events) && Exec(keepMerged, s, events).Some?
    ensures CleanMemory(Exec(keepMerged, s, events).value.mem)
  {
    hide CleanMemory, Next;
    if events != [] {
      var n := |events| - 1;
      CleanRun(keepMerged, s, events[..n]);
      CleanKeeps(keepMerged, Exec(keepMerged, s, events[..n]).value, events[n]);
    }
  }

  // ---------- every step keeps both ----------

  lemma WriteKeeps(keepMerged: bool, s: State, plain: Table, e: Event)
    requires Inv(s) && Shows(s.mem, plain) && (e.Put? || e.Delete?)
    ensures Inv(Next(keepMerged, s, e)) && Shows(Next(keepMerged, s, e).mem, PlainStep(plain, e))
  {
    var s' := Next(keepMerged, s, e);
    assert forall i :: 0 <= i < |s.mem.runs| ==> HasFile(s', i) == HasFile(s, i);
    forall key ensures View(s'.mem, key) == MapGet(PlainStep(plain, e), key) {
      assert View(s.mem, key) == MapGet(plain, key);
    }
  }

  lemma FlushStepKeeps(keepMerged: bool, s: State, plain: Table, e: Event)
    requires Inv(s) && Shows(s.mem, plain) && Enabled(s, e) && (e.Rotate? || e.Build? || e.DropLog?)
    ensures Inv(Next(keepMerged, s, e)) && Shows(Next(keepMerged, s, e).mem, plain)
  {
    var s' := Next(keepMerged, s, e);
    assert forall i :: 0 <= i < |s.mem.runs| ==> HasFile(s', i) == HasFile(s, i);
    forall key ensures View(s'.mem, key) == MapGet(plain, key) {
      assert View(s.mem, key) == MapGet(plain, key);
    }
  }

  /** A published table answers as the memtable it was written from. */
  lemma PublishKeeps(keepMerged: bool, s: State, plain: Table)
    requires Inv(s) && Shows(s.mem, plain) && Enabled(s, Publish)
    ensures Inv(Next(keepMerged, s, Publish)) && Shows(Next(keepMerged, s, Publish).mem, plain)
  {
    var s' := Next(keepMerged, s, Publish);
    var runs, run := s.mem.runs, s'.mem.runs[|s.mem.runs|];
    assert s'.mem.runs == runs + [run];
    assert forall i :: 0 <= i < |runs| ==> HasFile(s', i) == HasFile(s, i);
    assert s.compact.Selected? ==> Increasing(s.compact.picked, |runs|);
    assert CompactInv(s') by {
      if s.compact.MergedFile? {
        assert Picks(s'.mem.runs, s.compact.picked) == Picks(runs, s.compact.picked);
      }
    }
    forall key ensures View(s'.mem, key) == MapGet(plain, key) {
      assert View(s.mem, key) == MapGet(plain, key);
      assert (runs + [run])[..|runs|] == runs;
    }
  }

  lemma SelectKeeps(keepMerged: bool, s: State, plain: Table, picked: seq<nat>)
    requires Inv(s) && Shows(s.mem, plain) && Enabled(s, Select(picked)) && Contiguous(picked)
    ensures Inv(Next(keepMerged, s, Select(picked))) && Shows(Next(keepMerged, s, Select(picked)).mem, plain)
  {
  }

  /** The files of the picked readers hold what the readers have open. */
  lemma {:induction false} PresentAre(runs: seq<Run>, tables: map<int, Table>)
    requires forall i :: 0 <= i < |runs| ==> runs[i].timestamp in tables && tables[runs[i].timestamp] == runs[i].table
    ensures PresentRuns(runs, tables) == runs
  {
    if runs != [] {
      PresentAre(runs[..|runs| - 1], tables);
    }
  }

  lemma MergeKeeps(keepMerged: bool, s: State, plain: Table)
    requires Inv(s) && Shows(s.mem, plain) && Enabled(s, Merge)
    ensures Inv(Next(keepMerged, s, Merge)) && Shows(Next(keepMerged, s, Merge).mem, plain)
  {
    hide UnionRuns, View;
    var s', runs, picked := Next(keepMerged, s, Merge), s.mem.runs, s.compact.picked;
    var group := Picks(runs, picked);
    forall i | 0 <= i < |group| ensures group[i].timestamp in s.dir.tables && s.dir.tables[group[i].timestamp] == group[i].table {
      assert HasFile(s, picked[i]);
    }
    PresentAre(group, s.dir.tables);
    var last := picked[|picked| - 1];
    assert HasFile(s, last);
    assert forall i :: 0 <= i < |runs| ==> HasFile(s', i) == HasFile(s, i);
    assert forall i :: 0 <= i < |runs| && i != last ==> runs[i].timestamp != runs[last].timestamp;
  }

  lemma SpliceOrdered(runs: seq<Run>, picked: seq<nat>, merged: Run, clock: int)
    requires RunsOrdered(runs, clock) && picked != [] && Increasing(picked, |runs|) && Contiguous(picked)
    requires merged.timestamp == runs[picked[|picked| - 1]].timestamp
    ensures RunsOrdered(Splice(runs, picked, merged), clock)
  {
    hide Splice;
    SpliceContiguous(runs, picked, merged);
    var a, b := picked[0], picked[0] + |picked|;
    assert picked[|picked| - 1] == b - 1;
    var r := Splice(runs, picked, merged);
    assert forall i :: 0 <= i < a ==> r[i] == runs[i];
    assert forall i :: a < i < |r| ==> r[i] == runs[i + |picked| - 1];
    assert r[a] == merged;
  }

  lemma SwapKeeps(keepMerged: bool, s: State, plain: Table)
    requires Inv(s) && Shows(s.mem, plain) && Enabled(s, Swap)
    ensures Inv(Next(keepMerged, s, Swap)) && Shows(Next(keepMerged, s, Swap).mem, plain)
  {
    hide Splice, UnionRuns, LookupRuns;
    var s', runs := Next(keepMerged, s, Swap), s.mem.runs;
    var picked, merged := s.compact.picked, s.compact.merged;
    SpliceOrdered(runs, picked, merged, s.clock);
    if s.flush.Built? {
      SpliceOrdered(runs, picked, merged, s.flush.timestamp);
    }
    SplicedFiles(s, s');
    forall key ensures View(s'.mem, key) == MapGet(plain, key) {
      assert View(s.mem, key) == MapGet(plain, key);
      SpliceKeepsLookups(runs, picked, merged, key);
    }
  }

  lemma SplicedFiles(s: State, s': State)
    requires RunsOrdered(s.mem.runs, s.clock) && FilesMatch(s) && CompactInv(s) && s.compact.MergedFile?
    requires s'.mem.runs == Splice(s.mem.runs, s.compact.picked, s.compact.merged)
    requires s'.dir.tables == s.dir.tables && !s'.compact.MergedFile?
    ensures FilesMatch(s')
  {
    hide Splice, UnionRuns;
    var runs, picked, merged := s.mem.runs, s.compact.picked, s.compact.merged;
    SpliceContiguous(runs, picked, merged);
    var a, b, r := picked[0], picked[0] + |picked|, s'.mem.runs;
    assert picked[|picked| - 1] == b - 1;
    forall i | 0 <= i < |r| && HasFile(s', i) ensures s'.dir.tables[r[i].timestamp] == r[i].table {
      var j := if i < a then i else i + |picked| - 1;
      assert i != a ==> r[i] == runs[j];
      assert HasFile(s, j);
    }
  }

  lemma RemoveKeeps(keepMerged: bool, s: State, plain: Table)
    requires Inv(s) && Shows(s.mem, plain) && Enabled(s, Remove)
    ensures Inv(Next(keepMerged, s, Remove)) && Shows(Next(keepMerged, s, Remove).mem, plain)
  {
    var s' := Next(keepMerged, s, Remove);
    assert forall i :: 0 <= i < |s.mem.runs| && HasFile(s', i) ==> HasFile(s, i);
  }

  /** The picks of the literal selection are neighbours when no file is missing. */
  lemma AllPresentContiguous(s: State, picked: seq<nat>)
    requires MaySelect(s, picked) && forall i :: 0 <= i < |s.mem.runs| ==> HasFile(s, i)
    ensures Contiguous(picked)
  {
    forall i | 0 <= i < |picked| ensures picked[i] == picked[0] + i {
      NoGap(s, picked, i);
    }
  }

  lemma PickedMonotone(picked: seq<nat>, n: nat, i: nat, j: nat)
    requires Increasing(picked, n) && 0 < i < |picked| && j < |picked|
    ensures picked[j] <= picked[i - 1] || picked[i] <= picked[j]
    ensures picked[0] <= picked[j] <= picked[|picked| - 1] < n
  {
  }

  lemma NotBetween(s: State, picked: seq<nat>, i: nat, r: nat)
    requires MaySelect(s, picked) && 0 < i < |picked| && picked[i - 1] < r < picked[i]
    ensures r < |s.mem.runs| && !HasFile(s, r)
  {
    forall j | 0 <= j < |picked| ensures picked[j] != r {
      PickedMonotone(picked, |s.mem.runs|, i, j);
    }
    PickedMonotone(picked, |s.mem.runs|, i, i - 1);
    PickedMonotone(picked, |s.mem.runs|, i, i);
  }

  lemma {:induction false} NoGap(s: State, picked: seq<nat>, i: nat)
    requires MaySelect(s, picked) && (forall i :: 0 <= i < |s.mem.runs| ==> HasFile(s, i)) && i < |picked|
    ensures picked[i] == picked[0] + i
  {
    if i > 0 {
      NoGap(s, picked, i - 1);
      if picked[i - 1] + 1 < picked[i] {
        NotBetween(s, picked, i, picked[i - 1] + 1);
      }
    }
  }

  lemma StepKeeps(keepMerged: bool, s: State, plain: Table, e: Event)
    requires Inv(s) && Shows(s.mem, plain) && Enabled(s, e)
    requires e.Select? ==> Contiguous(e.picked)
    ensures Inv(Next(keepMerged, s, e)) && Shows(Next(keepMerged, s, e).mem, PlainStep(plain, e))
  {
    hide Inv, Shows, Next;
    match e
    case Put(_, _) => WriteKeeps(keepMerged, s, plain, e);
    case Delete(_) => WriteKeeps(keepMerged, s, plain, e);
    case Rotate => FlushStepKeeps(keepMerged, s, plain, e);
    case Build(_) => FlushStepKeeps(keepMerged, s, plain, e);
    case Publish => PublishKeeps(keepMerged, s, plain);
    case DropLog => FlushStepKeeps(keepMerged, s, plain, e);
    case Select(picked) => SelectKeeps(keepMerged, s, plain, picked);
    case Merge => MergeKeeps(keepMerged, s, plain);
    case Swap => SwapKeeps(keepMerged, s, plain);
    case Remove => RemoveKeeps(keepMerged, s, plain);
  }

  /** Safety over every interleaving from any state that satisfies the invariant, for the
      source's removal as it is and for any values: as long as the inputs of each compaction
      are neighbours, the view follows the writes alone. */
  lemma {:induction false} RunShows(keepMerged: bool, s: State, plain: Table, events: seq<Event>)
    requires Inv(s) && Shows(s.mem, plain) && Exec(keepMerged, s, events).Some? && ContiguousPicks(events)
    ensures Inv(Exec(keepMerged, s, events).value)
    ensures Shows(Exec(keepMerged, s, events).value.mem, PlainAfter(plain, events))
  {
    hide Inv, Shows, Next;
    if events != [] {
      var n := |events| - 1;
      RunShows(keepMerged, s, plain, events[..n]);
      StepKeeps(keepMerged, Exec(keepMerged, s, events[..n]).value, PlainAfter(plain, events[..n]), events[n]);
    }
  }

  lemma InitInv()
    ensures Inv(Init()) && Shows(Init().mem, map[]) && CleanMemory(Init().mem)
  {
  }

  /** From an empty store, with nil or non-empty values, the layered search equals the plain
      map that only the writes have changed. */
  lemma LayeredGetIsPlainMap(keepMerged: bool, events: seq<Event>, key: Bytes)
    requires Exec(keepMerged, Init(), events).Some? && CleanEvents(events) && ContiguousPicks(events)
    ensures Get(Exec(keepMerged, Init(), events).value.mem, key) == MapGet(PlainAfter(map[], events), key)
  {
    hide Exec, Inv, View, Get, CleanMemory, Init;
    InitInv();
    RunShows(keepMerged, Init(), map[], events);
    CleanRun(keepMerged, Init(), events);
    CleanGet(Exec(keepMerged, Init(), events).value.mem, key);
  }
}
