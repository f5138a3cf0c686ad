/** The engine's methods under any interleaving of clients, one flush worker and one compaction
    worker: every schedule of them is a run of the state machine, and reads see the plain map. */
module Interleaving {
  import opened ByteStrings
  import opened Disk
  import opened Entries
  import opened Bloom
  import opened Store
  import opened Tables
  import opened EngineState
  import opened Compaction
  import opened Engine
  import opened Opening
  import opened Machine
  import Lives
  import Recovery
  import Removal
  import Selection
  import Unlogged
  import Wal

  // ---------- the steps, one by one ----------

  lemma WriteStep(keepMerged: bool, start: State, trace: seq<Event>, s: State, key: Bytes, value: Value)
    requires Exec(keepMerged, start, trace) == Some(s)
    ensures Exec(keepMerged, start, trace + [Event.Put(key, value)]) ==
      Some(s.(mem := WriteMem(s.mem, key, value), dir := WriteDir(s.dir, key, value)))
    ensures value == Nil ==> (
      Exec(keepMerged, start, trace + [Event.Delete(key)]) ==
        Some(s.(mem := WriteMem(s.mem, key, value), dir := WriteDir(s.dir, key, value))))
  {
    hide Exec;
    ExecOne(keepMerged, start, trace, s, Event.Put(key, value));
    ExecOne(keepMerged, start, trace, s, Event.Delete(key));
  }

  lemma RotateStep(keepMerged: bool, start: State, trace: seq<Event>, s: State)
    requires Exec(keepMerged, start, trace) == Some(s) && s.flush.FlushIdle? && s.mem.immutable.None?
    ensures FlushPending(s.mem) ==> (
      Exec(keepMerged, start, trace + [Event.Rotate]) ==
        Some(s.(mem := RotatedMem(s.mem), dir := RotatedDir(s.mem, s.dir), flush := Rotated)))
    ensures !FlushPending(s.mem) ==> RotatedMem(s.mem) == s.mem && RotatedDir(s.mem, s.dir) == s.dir
  {
    hide Exec;
    if FlushPending(s.mem) {
      ExecOne(keepMerged, start, trace, s, Event.Rotate);
    }
  }

  lemma BuildStep(keepMerged: bool, start: State, trace: seq<Event>, s: State, timestamp: int)
    requires Exec(keepMerged, start, trace) == Some(s) && s.flush.Rotated? && s.mem.immutable.Some? && timestamp >= s.clock
    ensures Exec(keepMerged, start, trace + [Event.Build(timestamp)]) ==
      Some(s.(dir := BuildDir(s.dir, s.mem.immutable.value, timestamp), flush := Built(timestamp), clock := timestamp + 1))
  {
    hide Exec;
    ExecOne(keepMerged, start, trace, s, Event.Build(timestamp));
  }

  lemma PublishStep(keepMerged: bool, start: State, trace: seq<Event>, s: State)
    requires Exec(keepMerged, start, trace) == Some(s) && s.flush.Built? && s.mem.immutable.Some?
    ensures Exec(keepMerged, start, trace + [Event.Publish]) ==
      Some(s.(mem := PublishMem(s.mem, Run(s.flush.timestamp, Payloads(s.mem.immutable.value))), flush := Published))
  {
    hide Exec;
    ExecOne(keepMerged, start, trace, s, Event.Publish);
  }

  lemma DropLogStep(keepMerged: bool, start: State, trace: seq<Event>, s: State)
    requires Exec(keepMerged, start, trace) == Some(s) && s.flush.Published?
    ensures Exec(keepMerged, start, trace + [Event.DropLog]) == Some(s.(dir := s.dir.(flushing := None), flush := FlushIdle))
  {
    hide Exec;
    ExecOne(keepMerged, start, trace, s, Event.DropLog);
  }

  lemma SelectStep(keepMerged: bool, start: State, trace: seq<Event>, s: State, picked: seq<nat>)
    requires Exec(keepMerged, start, trace) == Some(s) && s.compact.CompactIdle? && MaySelect(s, picked)
    ensures Exec(keepMerged, start, trace + [Event.Select(picked)]) == Some(s.(compact := Selected(picked)))
  {
    hide Exec, MaySelect;
    ExecOne(keepMerged, start, trace, s, Event.Select(picked));
  }

  lemma MergeStep(keepMerged: bool, start: State, trace: seq<Event>, s: State, picked: seq<nat>)
    requires Exec(keepMerged, start, trace) == Some(s) && s.compact == Selected(picked)
    requires picked != [] && Increasing(picked, |s.mem.runs|) && forall i :: 0 <= i < |picked| ==> HasFile(s, picked[i])
    ensures var merged := MergedOf(Picks(s.mem.runs, picked), s.dir.tables);
      Exec(keepMerged, start, trace + [Event.Merge]) ==
        Some(s.(dir := s.dir.(tables := s.dir.tables[merged.timestamp := merged.table]), compact := MergedFile(picked, merged)))
  {
    hide Exec, MergedOf;
    ExecOne(keepMerged, start, trace, s, Event.Merge);
  }

  lemma SwapStep(keepMerged: bool, start: State, trace: seq<Event>, s: State, picked: seq<nat>, merged: Run)
    requires Exec(keepMerged, start, trace) == Some(s) && s.compact == MergedFile(picked, merged)
    requires picked != [] && Increasing(picked, |s.mem.runs|)
    ensures Exec(keepMerged, start, trace + [Event.Swap]) == Some(s.(
      mem := s.mem.(runs := Splice(s.mem.runs, picked, merged)),
      compact := Removing(Timestamps(Picks(s.mem.runs, picked)), merged, 0)))
  {
    hide Exec, Splice;
    ExecOne(keepMerged, start, trace, s, Event.Swap);
  }

  lemma RemoveStep(keepMerged: bool, start: State, trace: seq<Event>, s: State)
    requires Exec(keepMerged, start, trace) == Some(s) && s.compact.Removing? && s.compact.next < |s.compact.inputs|
    ensures var Removing(inputs, merged, next) := s.compact;
      Exec(keepMerged, start, trace + [Event.Remove]) == Some(s.(
        dir := if keepMerged && inputs[next] == merged.timestamp then s.dir else s.dir.(tables := s.dir.tables - {inputs[next]}),
        compact := if next + 1 == |inputs| then CompactIdle else Removing(inputs, merged, next + 1)))
  {
    hide Exec;
    ExecOne(keepMerged, start, trace, s, Event.Remove);
  }

  // ---------- a schedule ----------

  /** The locals of Flush, from the reader it has opened until that is published. */
  datatype Flusher = Flusher(pc: FlushPc, reader: Option<Reader>, objects: set<object>)

  /** The locals of RunCompaction: the files chosen, and the merged reader until it is swapped in. */
  datatype Compactor = Compactor(pc: CompactPc, files: seq<Reader>, merged: Option<Reader>, objects: set<object>)

  /** The workers, and the sections that have run since the engine was opened. With keepMerged
      the removal at the end of a compaction spares the merged file's name. */
  datatype Schedule = Schedule(keepMerged: bool, start: State, trace: seq<Event>, clock: int, flusher: Flusher, compactor: Compactor)

  function Start(keepMerged: bool, start: State): Schedule {
    Schedule(keepMerged, start, [], start.clock, Flusher(FlushIdle, None, {}), Compactor(CompactIdle, [], None, {}))
  }

  ghost predicate FlushValid(hash: Bytes -> u32, f: Flusher, immutable: Option<Memtable>)
    reads f.objects
  {
    match f.pc
    case FlushIdle => immutable.None?
    case Rotated => immutable.Some?
    case Built(timestamp) =>
      && immutable.Some? && f.reader.Some? && ReaderIn(hash, f.reader.value, f.objects)
      && RunOf(f.reader.value) == Run(timestamp, Payloads(immutable.value))
    case Published => immutable.None?
  }

  ghost predicate CompactValid(hash: Bytes -> u32, c: Compactor, readers: seq<Reader>, tables: map<int, Table>)
    reads c.objects
  {
    match c.pc
    case CompactIdle => true
    case Selected(picked) =>
      && picked != [] && Increasing(picked, |readers|) && c.files == Picks(readers, picked)
      && forall i :: 0 <= i < |c.files| ==> c.files[i].timestamp in tables
    case MergedFile(picked, run) =>
      && picked != [] && Increasing(picked, |readers|) && c.files == Picks(readers, picked)
      && c.merged.Some? && ReaderIn(hash, c.merged.value, c.objects) && RunOf(c.merged.value) == run
      && run.timestamp == c.files[|c.files| - 1].timestamp
    case Removing(inputs, run, next) =>
      && next < |inputs| == |c.files| && run.timestamp == c.files[|c.files| - 1].timestamp
      && forall i :: 0 <= i < |c.files| ==> inputs[i] == c.files[i].timestamp
  }

  /** The readers in the workers' hands are not yet part of the engine. */
  ghost predicate Apart(f: set<object>, c: set<object>, footprint: set<object>) {
    f !! c && footprint !! f + c
  }

  /** The engine is in the state that the run of the sections leads to. */
  ghost predicate Reached(w: Schedule, m: Memory, d: Directory) {
    Exec(w.keepMerged, w.start, w.trace) == Some(State(m, d, w.flusher.pc, w.compactor.pc, w.clock))
  }

  ghost predicate Valid(db: StrataGo, w: Schedule)
    reads w.flusher.objects, w.compactor.objects
    reads db, db.dir, db.wal, db.wal.file, db.dir.log, db.dir.flushing, db.readerObjects
    reads db.activeMemtable, db.immutableMemtable, db.activeMemtable.Repr
    reads if db.immutableMemtable == null then {} else db.immutableMemtable.Repr
  {
    && db.Valid() && !db.closed && Reached(w, db.Mem(), db.Dir())
    && Apart(w.flusher.objects, w.compactor.objects, db.Footprint())
    && FlushValid(db.hash, w.flusher, db.Mem().immutable) && CompactValid(db.hash, w.compactor, db.sstReaders, db.Dir().tables)
  }

  lemma CompactGrows(hash: Bytes -> u32, c: Compactor, readers: seq<Reader>, tables: map<int, Table>, reader: Reader, t: int, table: Table)
    requires CompactValid(hash, c, readers, tables)
    ensures CompactValid(hash, c, readers + [reader], tables) && CompactValid(hash, c, readers, tables[t := table])
  {
    hide ReaderIn, TableOf;
    if c.pc.Selected? || c.pc.MergedFile? {
      assert Picks(readers + [reader], c.pc.picked) == Picks(readers, c.pc.picked);
    }
  }

  /** An engine that has just been opened or purged. */
  lemma Started(db: StrataGo, keepMerged: bool, clock: int)
    requires db.Valid() && !db.closed && db.Mem().immutable.None?
    ensures Valid(db, Start(keepMerged, State(db.Mem(), db.Dir(), FlushIdle, CompactIdle, clock)))
  {
    hide StrataGo.Valid, StrataGo.Mem, StrataGo.Dir;
  }

  lemma LayersOf(db: StrataGo)
    ensures db.Mem().active == db.activeMemtable.Contents
    ensures db.Mem().immutable == if db.immutableMemtable == null then None else Some(db.immutableMemtable.Contents)
    ensures db.Mem().runs == RunsOf(db.sstReaders) && db.Dir().tables == TablesOf(db.dir.tables)
  {
  }

  // ---------- clients ----------

  method Put(db: StrataGo, key: Bytes, value: Value, ghost w: Schedule) returns (ghost w': Schedule)
    requires Valid(db, w) && WriteFits(key, value)
    modifies db.activeMemtable.Repr, db.wal, db.wal.file
    ensures Valid(db, w') && unchanged(db) && fresh(db.activeMemtable.Repr - old(db.activeMemtable.Repr))
    ensures w' == w.(trace := w.trace + [Event.Put(key, value)])
    ensures db.activeMemtable.Contents == old(db.activeMemtable.Contents)[key := value]
  {
    hide StrataGo.Valid, StrataGo.Mem, StrataGo.Dir, Exec, Next, Init, WriteFits, ReaderIn, CompactValid, Payloads;
    WriteStep(w.keepMerged, w.start, w.trace, State(db.Mem(), db.Dir(), w.flusher.pc, w.compactor.pc, w.clock), key, value);
    w' := w.(trace := w.trace + [Event.Put(key, value)]);
    var ok := db.Put(key, value);
  }

  method Delete(db: StrataGo, key: Bytes, ghost w: Schedule) returns (ghost w': Schedule)
    requires Valid(db, w) && WriteFits(key, Nil)
    modifies db.activeMemtable.Repr, db.wal, db.wal.file
    ensures Valid(db, w') && unchanged(db) && fresh(db.activeMemtable.Repr - old(db.activeMemtable.Repr))
    ensures w' == w.(trace := w.trace + [Event.Delete(key)])
    ensures db.activeMemtable.Contents == old(db.activeMemtable.Contents)[key := Nil]
  {
    hide StrataGo.Valid, StrataGo.Mem, StrataGo.Dir, Exec, Next, Init, WriteFits, ReaderIn, CompactValid, Payloads;
    WriteStep(w.keepMerged, w.start, w.trace, State(db.Mem(), db.Dir(), w.flusher.pc, w.compactor.pc, w.clock), key, Nil);
    w' := w.(trace := w.trace + [Event.Delete(key)]);
    var ok := db.Delete(key);
  }

  // ---------- the flush worker ----------

  method Rotate(db: StrataGo, ghost w: Schedule) returns (pending: bool, ghost w': Schedule)
    requires Valid(db, w) && w.flusher.pc.FlushIdle?
    modifies db`activeMemtable, db`immutableMemtable, db`wal, db.dir`log, db.dir`flushing
    ensures Valid(db, w')
    ensures pending <==> old(db.activeMemtable.Contents) != map[] || old(db.immutableMemtable) != null
    ensures w' == if pending then w.(trace := w.trace + [Event.Rotate], flusher := Flusher(Rotated, None, {})) else w
  {
    hide StrataGo.Valid, StrataGo.Mem, StrataGo.Dir, Exec, Next, Init, ReaderIn, CompactValid, Payloads;
    LayersOf(db);
    RotateStep(w.keepMerged, w.start, w.trace, State(db.Mem(), db.Dir(), w.flusher.pc, w.compactor.pc, w.clock));
    pending := db.Rotate();
    w' := if pending then w.(trace := w.trace + [Event.Rotate], flusher := Flusher(Rotated, None, {})) else w;
  }

  method Build(db: StrataGo, timestamp: int, ghost w: Schedule) returns (reader: Reader?, ghost w': Schedule)
    requires Valid(db, w) && w.flusher.pc.Rotated? && timestamp >= w.clock && KeysFit(db.FlushTarget().size)
    modifies db.dir`tables
    ensures Valid(db, w') && reader != null && w' == w.(
      trace := w.trace + [Event.Build(timestamp)], clock := timestamp + 1,
      flusher := Flusher(Built(timestamp), Some(reader), ReaderObjects(reader)))
  {
    hide StrataGo.Valid, StrataGo.Mem, StrataGo.Dir, Exec, Next, Init, ReaderIn, ReaderReady, CompactValid, Payloads,
      KeysFit, RunOf;
    LayersOf(db);
    ghost var m, d := db.Mem(), db.Dir();
    BuildStep(w.keepMerged, w.start, w.trace, State(m, d, w.flusher.pc, w.compactor.pc, w.clock), timestamp);
    reader := db.Build(timestamp);
    OwnObjects(db.hash, reader);
    CompactGrows(db.hash, w.compactor, db.sstReaders, d.tables, reader, timestamp, Payloads(m.immutable.value));
    w' := w.(trace := w.trace + [Event.Build(timestamp)], clock := timestamp + 1,
             flusher := Flusher(Built(timestamp), Some(reader), ReaderObjects(reader)));
  }

  method Publish(db: StrataGo, reader: Reader, ghost w: Schedule) returns (ghost w': Schedule)
    requires Valid(db, w) && w.flusher.pc.Built? && w.flusher.reader == Some(reader)
    modifies db`sstReaders, db`readerObjects, db`immutableMemtable
    ensures Valid(db, w')
    ensures w' == w.(trace := w.trace + [Event.Publish], flusher := Flusher(Published, None, {}))
  {
    hide StrataGo.Valid, StrataGo.Mem, StrataGo.Dir, Exec, Next, Init, ReaderIn, ReaderReady, CompactValid, Payloads,
      RunOf;
    LayersOf(db);
    ghost var m, d := db.Mem(), db.Dir();
    PublishStep(w.keepMerged, w.start, w.trace, State(m, d, w.flusher.pc, w.compactor.pc, w.clock));
    InObjects(db.hash, reader, w.flusher.objects);
    CompactGrows(db.hash, w.compactor, db.sstReaders, d.tables, reader, 0, map[]);
    db.Publish(reader);
    w' := w.(trace := w.trace + [Event.Publish], flusher := Flusher(Published, None, {}));
  }

  method DropLog(db: StrataGo, ghost w: Schedule) returns (ghost w': Schedule)
    requires Valid(db, w) && w.flusher.pc.Published?
    modifies db.dir`flushing
    ensures Valid(db, w') && w' == w.(trace := w.trace + [Event.DropLog], flusher := Flusher(FlushIdle, None, {}))
  {
    hide StrataGo.Valid, StrataGo.Mem, StrataGo.Dir, Exec, Next, Init, ReaderIn, CompactValid, Payloads;
    DropLogStep(w.keepMerged, w.start, w.trace, State(db.Mem(), db.Dir(), w.flusher.pc, w.compactor.pc, w.clock));
    db.DropLog();
    w' := w.(trace := w.trace + [Event.DropLog], flusher := Flusher(FlushIdle, None, {}));
  }

  // ---------- the compaction worker ----------

  method Select(db: StrataGo, ghost w: Schedule) returns (files: seq<Reader>, ghost w': Schedule)
    requires Valid(db, w) && w.compactor.pc.CompactIdle?
    ensures Valid(db, w') && (files == [] ==> w' == w)
    ensures files == [] <==> forall g, t :: !Selection.IsGroup(SizesOf(db.sstReaders, db.dir.tables), g, t)
    ensures files == [] <==> forall g :: !Selection.FourAlike(SizesOf(db.sstReaders, db.dir.tables), g)
    ensures files != [] ==> exists picked ::
      && Selection.FourAlike(SizesOf(db.sstReaders, db.dir.tables), picked)
      && w' == w.(trace := w.trace + [Event.Select(picked)], compactor := Compactor(Selected(picked), files, None, {}))
  {
    hide StrataGo.Valid, StrataGo.Mem, StrataGo.Dir, Exec, Next, Init, ReaderIn, FlushValid, Selection.IsGroup,
      Selection.SameSides, MaySelect, TableOf, Picks;
    LayersOf(db);
    ghost var s := State(db.Mem(), db.Dir(), w.flusher.pc, w.compactor.pc, w.clock);
    var tier, picked;
    files, tier, picked := db.SelectFilesForCompaction();
    w' := w;
    if files != [] {
      GroupMayBeSelected(s, db.sstReaders, db.dir.tables, picked, tier);
      GroupIsPresent(db.sstReaders, db.dir.tables, picked, tier);
      SelectStep(w.keepMerged, w.start, w.trace, s, picked);
      w' := w.(trace := w.trace + [Event.Select(picked)], compactor := Compactor(Selected(picked), files, None, {}));
    }
  }

  lemma ChosenFiles(s: State, readers: seq<Reader>, tables: map<int, Bytes>, picked: seq<nat>, files: seq<Reader>)
    requires s.mem.runs == RunsOf(readers) && s.dir.tables == TablesOf(tables)
    requires picked != [] && Increasing(picked, |readers|) && files == Picks(readers, picked)
    requires forall i :: 0 <= i < |files| ==> files[i].timestamp in s.dir.tables
    ensures forall i :: 0 <= i < |picked| ==> HasFile(s, picked[i])
    ensures FilesPresent(files, tables) && RunsOf(files) == Picks(s.mem.runs, picked)
    ensures MergedOf(RunsOf(files), s.dir.tables).timestamp == files[|files| - 1].timestamp
  {
    hide TableOf;
    PicksAreRuns(readers, picked);
    assert forall i :: 0 <= i < |picked| ==> files[i] == readers[picked[i]];
  }

  method Merge(db: StrataGo, files: seq<Reader>, ghost w: Schedule) returns (merged: Reader?, ghost w': Schedule)
    requires Valid(db, w) && w.compactor.pc.Selected? && w.compactor.files == files && InputsFit(files, db.dir.tables)
    modifies db.dir`tables
    ensures Valid(db, w') && merged != null && w' == w.(
      trace := w.trace + [Event.Merge],
      compactor := Compactor(MergedFile(w.compactor.pc.picked, RunOf(merged)), files, Some(merged), ReaderObjects(merged)))
  {
    hide StrataGo.Valid, StrataGo.Mem, StrataGo.Dir, Exec, Next, Init, ReaderIn, ReaderReady, FlushValid, TableOf,
      InputsFit, MergedOf, FilesPresent, HasFile;
    LayersOf(db);
    ghost var s, picked := State(db.Mem(), db.Dir(), w.flusher.pc, w.compactor.pc, w.clock), w.compactor.pc.picked;
    ChosenFiles(s, db.sstReaders, db.dir.tables, picked, files);
    MergeStep(w.keepMerged, w.start, w.trace, s, picked);
    merged := db.MergeSelected(files);
    OwnObjects(db.hash, merged);
    w' := w.(trace := w.trace + [Event.Merge],
             compactor := Compactor(MergedFile(picked, RunOf(merged)), files, Some(merged), ReaderObjects(merged)));
  }

  method Swap(db: StrataGo, files: seq<Reader>, merged: Reader, ghost w: Schedule) returns (ghost w': Schedule)
    requires Valid(db, w) && w.compactor.pc.MergedFile? && w.compactor.files == files && w.compactor.merged == Some(merged)
    modifies db`sstReaders, db`readerObjects
    ensures Valid(db, w') && w'.compactor.pc.Removing? && w'.compactor.pc.next == 0
    ensures w' == w.(trace := w.trace + [Event.Swap], compactor := Compactor(w'.compactor.pc, files, None, {}))
  {
    hide StrataGo.Valid, StrataGo.Dir, Exec, Next, Init, ReaderIn, ReaderReady, FlushValid, TableOf, Splice;
    ghost var s, picked := State(db.Mem(), db.Dir(), w.flusher.pc, w.compactor.pc, w.clock), w.compactor.pc.picked;
    InObjects(db.hash, merged, w.compactor.objects);
    SwapStep(w.keepMerged, w.start, w.trace, s, picked, RunOf(merged));
    db.Swap(files, merged, picked);
    ghost var pc := Removing(Timestamps(Picks(s.mem.runs, picked)), RunOf(merged), 0);
    w' := w.(trace := w.trace + [Event.Swap], compactor := Compactor(pc, files, None, {}));
  }

  /** One round of the removal loop. */
  method Remove(db: StrataGo, keepMerged: bool, files: seq<Reader>, next: nat, ghost w: Schedule) returns (ghost w': Schedule)
    requires Valid(db, w) && w.compactor.pc.Removing? && w.compactor.files == files && w.compactor.pc.next == next
    requires keepMerged == w.keepMerged
    modifies db.dir`tables
    ensures Valid(db, w')
    ensures w' == w.(
      trace := w.trace + [Event.Remove],
      compactor := w.compactor.(pc := if next + 1 == |files| then CompactIdle else w.compactor.pc.(next := next + 1)))
  {
    hide StrataGo.Valid, StrataGo.Mem, StrataGo.Dir, Exec, Next, Init, ReaderIn, FlushValid, TableOf;
    RemoveStep(w.keepMerged, w.start, w.trace, State(db.Mem(), db.Dir(), w.flusher.pc, w.compactor.pc, w.clock));
    if !(keepMerged && files[next].timestamp == files[|files| - 1].timestamp) {
      assert TimestampsOf([files[next]]) == {files[next].timestamp};
      db.RemoveFiles([files[next]]);
    }
    w' := w.(trace := w.trace + [Event.Remove],
             compactor := w.compactor.(pc := if next + 1 == |files| then CompactIdle else w.compactor.pc.(next := next + 1)));
  }

  // ---------- what clients see ----------

  /** The engine was opened on a state that satisfies the invariant, but for keys that its log
      may lack, and that shows the plain map. */
  ghost predicate Began(w: Schedule, plain: Table) {
    Shows(w.start.mem, plain) && Unlogged.JustOpened(w.start)
  }

  /** The logs hold what the memtables hold: they did when the engine was opened, or a whole
      flush has been made since. */
  ghost predicate Logged(w: Schedule) {
    Unlogged.Lost(w.start) == {} || Event.DropLog in w.trace
  }

  lemma WholeStart(s: State)
    requires Recovery.DirInv(s) && s.flush.FlushIdle? && s.compact.CompactIdle?
    ensures Unlogged.JustOpened(s) && Unlogged.Lost(s) == {}
  {
    Unlogged.WithoutNothing(s);
  }

  /** An empty store. */
  lemma BeganEmpty(keepMerged: bool)
    ensures forall trace :: Began(Start(keepMerged, Init()).(trace := trace), map[])
  {
    hide Unlogged.JustOpened;
    Recovery.InitDir();
    WholeStart(Init());
  }

  /** No merged file has been removed: the removal spares its name, or fewer than four files
      have been removed since the engine was opened. */
  ghost predicate Sparing(w: Schedule) {
    Removal.Spared(w.keepMerged, w.start, w.trace)
  }

  /** The source's removal, where each compaction so far had neighbours as its inputs. */
  ghost predicate Literal(w: Schedule) {
    !w.keepMerged && ContiguousPicks(w.trace)
  }

  lemma ViewsArePlain(w: Schedule, plain: Table, m: Memory, d: Directory)
    requires Reached(w, m, d) && Began(w, plain)
    ensures Sparing(w) || Literal(w) ==> Shows(m, PlainAfter(plain, w.trace))
    ensures Sparing(w) ==> ScanAll(m, d.tables) == PlainAfter(plain, w.trace)
    ensures Sparing(w) && Logged(w) ==> Recovery.DirInv(State(m, d, w.flusher.pc, w.compactor.pc, w.clock))
  {
    hide Exec, Shows, ScanAll, PlainAfter, Inv, Recovery.DirInv, Recovery.LogsMatch, Unlogged.JustOpened, Unlogged.LackAfter;
    Unlogged.RunFromOpened(w.keepMerged, w.start, plain, w.trace);
  }

  lemma GetIsPlainIff(m: Memory, plain: Table, key: Bytes)
    requires Shows(m, plain)
    ensures Store.Get(m, key) == MapGet(plain, key) <==> !EmptyOnTop(m, key)
  {
    hide Store.Get, EmptyOnTop, View;
    GetIsViewIff(m, key);
    assert View(m, key) == MapGet(plain, key);
  }

  /** A read at any point of any schedule finds what the plain map holds, unless a memtable has
      an empty non-nil value for the key. */
  method Get(db: StrataGo, key: Bytes, ghost w: Schedule, ghost plain: Table) returns (val: Bytes, found: bool)
    requires Valid(db, w) && Began(w, plain)
    modifies (set r: Reader | r in db.sstReaders)`pos
    ensures Valid(db, w)
    ensures (Sparing(w) || Literal(w)) && SafeKeys(db.hash, db.sstReaders, key) ==> (
      (if found then Some(val) else None) == MapGet(PlainAfter(plain, w.trace), key) <==> !EmptyOnTop(db.Mem(), key))
  {
    hide StrataGo.Mem, StrataGo.Dir, Reached, PlainAfter, Began, Sparing, Literal, ReaderReady, SafeKeys, Store.Get,
      StrataGo.Search, Shows, EmptyOnTop, StrataGo.MemtablesValid, StrataGo.LogsValid, StrataGo.FilesValid, RunsOf,
      WellFormed;
    ViewsArePlain(w, plain, db.Mem(), db.Dir());
    if Sparing(w) || Literal(w) {
      GetIsPlainIff(db.Mem(), PlainAfter(plain, w.trace), key);
    }
    val, found := db.Get(key);
  }

  lemma ScanKeys(w: Schedule, plain: Table, m: Memory, d: Directory)
    requires Reached(w, m, d) && Began(w, plain) && Literal(w)
    ensures forall key :: MapGet(ScanAll(m, d.tables), key) == MapGet(PlainAfter(plain, w.trace), key) <==>
      Removal.MemtablesDecide(m, key) || Removal.SameAnswer(PresentRuns(m.runs, d.tables), m.runs, key)
  {
    hide Exec, Shows, ScanAll, PlainAfter, PresentRuns, View, ContiguousPicks, Removal.MemtablesDecide, Removal.SameAnswer,
      Unlogged.JustOpened;
    ViewsArePlain(w, plain, m, d);
    ShownViews(m, PlainAfter(plain, w.trace));
    forall key ensures MapGet(ScanAll(m, d.tables), key) == MapGet(PlainAfter(plain, w.trace), key) <==>
      Removal.MemtablesDecide(m, key) || Removal.SameAnswer(PresentRuns(m.runs, d.tables), m.runs, key)
    {
      Removal.ScanIff(m, d.tables, key);
    }
  }

  /** A scan at any point of any schedule returns the plain map as long as no merged file has
      been removed. Afterwards it is right for exactly the keys that a memtable decides or that
      the readers still found by name answer like all of them. */
  method FullScan(db: StrataGo, ghost w: Schedule, ghost plain: Table) returns (state: Table)
    requires Valid(db, w) && Began(w, plain)
    ensures Valid(db, w) && state == Store.ScanAll(db.Mem(), db.Dir().tables)
    ensures Sparing(w) ==> state == PlainAfter(plain, w.trace)
    ensures Literal(w) ==> forall key :: MapGet(state, key) == MapGet(PlainAfter(plain, w.trace), key) <==> (
      || Removal.MemtablesDecide(db.Mem(), key)
      || Removal.SameAnswer(PresentRuns(db.Mem().runs, db.Dir().tables), db.Mem().runs, key))
  {
    hide StrataGo.Valid, StrataGo.Mem, StrataGo.Dir, Reached, PlainAfter, Began, Sparing, Literal, FlushValid, CompactValid,
      Apart, Shows, Store.ScanAll, PresentRuns, Removal.MemtablesDecide, Removal.SameAnswer;
    ViewsArePlain(w, plain, db.Mem(), db.Dir());
    if Literal(w) {
      ScanKeys(w, plain, db.Mem(), db.Dir());
    }
    var ok;
    state, ok := db.ScanAll();
  }

  lemma ShownViews(m: Memory, plain: Table)
    requires Shows(m, plain)
    ensures forall key :: View(m, key) == MapGet(plain, key)
  {
  }

  /** A key that the logs do not tell is not lost: as long as no merged file has been removed, the
      readers tell it if it was missing in the logs; afterwards the files must. */
  ghost predicate Told(w: Schedule, m: Memory, d: Directory, now: Table, key: Bytes) {
    var u, missing := State(m, d, w.flusher.pc, w.compactor.pc, w.clock), Unlogged.Missing(w.start, w.trace);
    if Sparing(w) then Unlogged.ReadersTell(missing, u, now, key) else Unlogged.FilesTell(missing, u, now, key)
  }

  /** What Open shows of a key after a crash when no log is torn. */
  ghost predicate Kept(w: Schedule, m: Memory, d: Directory, now: Table, key: Bytes) {
    && (Recovery.RewrittenSinceRotation(d, key) ==> d.flushing.value[key] == d.log[key])
    && Told(w, m, d, now, key)
  }

  /** What Open shows of a key when this is read back behind the current log's own entries. */
  ghost predicate KeptTorn(w: Schedule, m: Memory, d: Directory, now: Table, extra: Table, key: Bytes) {
    if key in extra then TableAnswer(Some(extra[key])) == MapGet(now, key) else Told(w, m, d, now, key)
  }

  lemma CrashedKeys(w: Schedule, plain: Table, m: Memory, d: Directory, extra: Table)
    requires Reached(w, m, d) && Began(w, plain) && (Sparing(w) || Literal(w))
    ensures forall key ::
      Recovery.ReopenedView(d, key) == MapGet(PlainAfter(plain, w.trace), key) <==> Kept(w, m, d, PlainAfter(plain, w.trace), key)
    ensures forall key ::
      View(Recovery.Open(Recovery.Complete(d, d.log + extra)), key) == MapGet(PlainAfter(plain, w.trace), key) <==>
        KeptTorn(w, m, d, PlainAfter(plain, w.trace), extra, key)
  {
    hide Exec, Shows, View, PlainAfter, Unlogged.JustOpened, Unlogged.ReadersTell, Unlogged.FilesTell, Unlogged.Missing, ContiguousPicks,
      Recovery.Open, Recovery.ReopenedView, Recovery.RewrittenSinceRotation;
    forall key
      ensures Recovery.ReopenedView(d, key) == MapGet(PlainAfter(plain, w.trace), key) <==> Kept(w, m, d, PlainAfter(plain, w.trace), key)
      ensures View(Recovery.Open(Recovery.Complete(d, d.log + extra)), key) == MapGet(PlainAfter(plain, w.trace), key) <==>
        KeptTorn(w, m, d, PlainAfter(plain, w.trace), extra, key)
    {
      if Sparing(w) {
        Unlogged.TornThenCrash(w.keepMerged, w.start, plain, w.trace, extra, key);
      } else {
        Unlogged.TornThenLiteralCrash(w.start, plain, w.trace, extra, key);
      }
    }
  }

  /** All files are in the past at any point of any schedule. */
  lemma FilesInPast(w: Schedule, plain: Table, m: Memory, d: Directory)
    requires Reached(w, m, d) && Began(w, plain)
    ensures Lives.FilesBefore(d, w.clock)
  {
    hide Exec, Shows, Recovery.DirInv;
    Lives.DirInvInPast(Unlogged.Completed(w.start));
    Lives.RunInPast(w.keepMerged, w.start, w.trace);
  }

  /** What Open makes of the directory that a crash leaves. */
  lemma CrashShows(w: Schedule, plain: Table, m: Memory, d: Directory)
    requires Reached(w, m, d) && Began(w, plain)
    ensures var reopened := Start(w.keepMerged, Lives.Reopened(d, w.clock));
      Began(reopened, ScanAll(Recovery.Open(d), d.tables)) && Logged(reopened)
    ensures Sparing(w) && Logged(w) ==> ScanAll(Recovery.Open(d), d.tables) == Lives.AfterCrash(PlainAfter(plain, w.trace), d)
  {
    hide Exec, Shows, Sparing, Logged, ScanAll, PlainAfter, Unlogged.JustOpened, Recovery.DirInv, Recovery.Open, Lives.AfterCrash;
    FilesInPast(w, plain, m, d);
    Lives.ReopenedInv(d, w.clock);
    Lives.ReopenedShows(d);
    WholeStart(Lives.Reopened(d, w.clock));
    ReopenedIsLogged(w, d);
    ViewsArePlain(w, plain, m, d);
    if Sparing(w) && Logged(w) {
      Lives.CrashIsExact(State(m, d, w.flusher.pc, w.compactor.pc, w.clock), PlainAfter(plain, w.trace));
    }
  }

  lemma ReopenedIsLogged(w: Schedule, d: Directory)
    requires Unlogged.Lost(Lives.Reopened(d, w.clock)) == {}
    ensures Logged(Start(w.keepMerged, Lives.Reopened(d, w.clock)))
  {
  }

  /** A crash at any point of any schedule, and Open on what it leaves. The new engine has begun
      on what its full scan shows: as long as no merged file has been removed and the logs are
      complete, the plain map but for keys that were written again after the rotation of a flush
      in progress, which have their older values back; in general, for exactly which keys it is
      the plain map's value. */
  method CrashAndOpen(db: StrataGo, ghost w: Schedule, ghost plain: Table) returns (reopened: StrataGo, ghost w': Schedule)
    requires Valid(db, w) && Began(w, plain)
    modifies db.dir`log, db.dir`flushing, LogFiles(db.dir)
    ensures Valid(reopened, w') && w' == Start(w.keepMerged, Lives.Reopened(old(db.Dir()), w.clock)) && Logged(w')
    ensures var d := old(db.Dir()); var shown, now := Store.ScanAll(Recovery.Open(d), d.tables), PlainAfter(plain, w.trace);
      && Began(w', shown)
      && (Sparing(w) && Logged(w) ==> shown == Lives.AfterCrash(now, d))
      && (Sparing(w) || Literal(w) ==> forall key :: MapGet(shown, key) == MapGet(now, key) <==> Kept(w, old(db.Mem()), d, now, key))
  {
    hide StrataGo.Mem, PlainAfter, Began, Sparing, Literal, Logged, Kept, Store.ScanAll, Recovery.Open,
      Recovery.SortedRuns, Lives.AfterCrash, WholeLog, TornPart, TakenOver, WellFormed, Reached, FlushValid, CompactValid,
      StrataGo.MemtablesValid, StrataGo.ReadersValid;
    ghost var m, d := db.Mem(), db.Dir();
    CrashShows(w, plain, m, d);
    if Sparing(w) || Literal(w) {
      CrashedKeys(w, plain, m, d, map[]);
    }
    WholeLogsReadable(db.crc, db.dir);
    ghost var copied;
    reopened, copied := Engine.Open(db.hash, db.crc, db.dir);
    OpenedIdle(d);
    Started(reopened, w.keepMerged, w.clock);
    w' := Start(w.keepMerged, Lives.Reopened(d, w.clock));
  }

  lemma OpenedIdle(d: Directory)
    ensures Recovery.Open(d).immutable.None?
  {
  }

  /** The log record of the next write. */
  function NextRecord(db: StrataGo, key: Bytes, value: Value): (r: Wal.Record)
    reads db`wal, db.wal
    ensures Wal.Size(r) == Wal.HEADER + |key| + |Payload(value)| && (WriteFits(key, value) ==> Wal.Fits(r))
  {
    Wal.Record((db.wal.sequenceNumber + 1) % TWO64, key, Payload(value))
  }

  /** The torn record and the copies behind it are read, if at all, as records that stand for
      these entries. */
  function Misread(crc: Bytes -> u32, r: Wal.Record, n: nat, copied: seq<Wal.Record>): Table
    requires n <= Wal.Size(r)
  {
    Wal.Replay(crc, Wal.RecordBytes(crc, r)[..n] + Wal.LogBytes(crc, copied))
  }

  /** Exactly when nothing is read back. If the torn record has its whole header, that is when the
      copies have too few bytes for the rest of it, or bytes with another checksum. */
  lemma MisreadNothingIff(crc: Bytes -> u32, r: Wal.Record, n: nat, copied: seq<Wal.Record>)
    requires Wal.Fits(r) && n < Wal.Size(r)
    ensures var log := Wal.RecordBytes(crc, r)[..n] + Wal.LogBytes(crc, copied);
      && (Misread(crc, r, n, copied) == map[] <==> Wal.ParseRecord(crc, log, 0) == None)
      && (n >= Wal.HEADER ==> (
            Misread(crc, r, n, copied) == map[] <==>
              |log| < Wal.Size(r) || crc(log[Wal.HEADER..Wal.Size(r)]) != crc(r.key + r.val)))
  {
    hide Wal.RecordBytes, Wal.LogBytes, Wal.ParseRecord, ToMap;
    var log := Wal.RecordBytes(crc, r)[..n] + Wal.LogBytes(crc, copied);
    NonEmptyMap(Wal.EntriesOf(Wal.Records(crc, log)));
    Wal.NothingWritten();
    if n >= Wal.HEADER {
      Wal.CompletedTail(crc, [], r, n, Wal.LogBytes(crc, copied));
      assert [] + Wal.RecordBytes(crc, r)[..n] + Wal.LogBytes(crc, copied) == log;
    }
  }

  /** The crash lets n bytes of the record through. */
  method TearLog(db: StrataGo, r: Wal.Record, n: nat)
    requires db.Valid() && Wal.Fits(r) && n < Wal.Size(r)
    requires db.dir.flushing != null ==> n + |db.dir.flushing.data| < TWO32
    modifies db.wal.file
    ensures LogsReadable(db.crc, db.dir) && DirectoryOf(db.crc, db.dir) == old(db.Dir())
    ensures LogData(db.dir) == old(db.wal.file.data) + Wal.RecordBytes(db.crc, r)[..n]
  {
    hide WholeLog, Readable, TornPart, Wal.RecordBytes, Wal.Replay, StrataGo.MemtablesValid, StrataGo.ReadersValid,
      StrataGo.FilesValid, TablesOf;
    TornLog(db.crc, db.wal.file.data, r, n);
    if db.dir.flushing != null {
      WholeIsReadable(db.crc, db.dir.flushing.data);
    }
    db.wal.file.data := db.wal.file.data + Wal.RecordBytes(db.crc, r)[..n];
  }

  /** The log after such a crash and Open: what the torn record and the copies are read as stands
      behind what the log had. */
  method OpenBehindTorn(db: StrataGo, r: Wal.Record, n: nat) returns (reopened: StrataGo, ghost copied: seq<Wal.Record>)
    requires db.Valid() && Wal.Fits(r) && n < Wal.Size(r)
    requires db.dir.flushing != null ==> n + |db.dir.flushing.data| < TWO32
    modifies db.wal.file, db.dir`log, db.dir`flushing, LogFiles(db.dir)
    ensures reopened.Valid() && !reopened.closed
    ensures reopened.Mem() == Recovery.Open(Recovery.Complete(old(db.Dir()), reopened.Dir().log))
    ensures reopened.Dir() == old(db.Dir()).(log := old(db.Dir()).log + Misread(db.crc, r, n, copied), flushing := None)
    ensures if old(db.Dir()).flushing.Some? then CopyOf(copied, old(db.Dir()).flushing.value, 0)
      else copied == [] && Misread(db.crc, r, n, copied) == map[]
  {
    hide StrataGo.Valid, StrataGo.Mem, StrataGo.Dir, Recovery.Open, WholeLog, WellFormed, TornPart, TailRejected, Appendable,
      Wal.RecordBytes, Wal.LogBytes, Wal.Replay, CopyOf;
    ghost var crc, data := db.crc, db.wal.file.data;
    DirParts(db);
    TearLog(db, r, n);
    reopened, copied := Engine.Open(db.hash, db.crc, db.dir);
    ReadBehindTorn(crc, data, r, n, Wal.LogBytes(crc, copied));
    TornAlone(crc, r, n);
  }

  /** What Open makes of a directory whose log was torn, whatever is read back. */
  lemma TornShows(w: Schedule, plain: Table, m: Memory, d: Directory, logged: Table, extra: Table)
    requires Reached(w, m, d) && Began(w, plain) && logged == d.log + extra
    ensures var s := Unlogged.OpenedState(d, logged, w.clock); var shown, now := ScanAll(s.mem, d.tables), PlainAfter(plain, w.trace);
      && Began(Start(w.keepMerged, s), shown)
      && (d.flushing.None? ==> Logged(Start(w.keepMerged, s)))
      && (Sparing(w) && Logged(w) && extra == map[] ==> shown == now)
      && (Sparing(w) || Literal(w) ==> forall k :: MapGet(shown, k) == MapGet(now, k) <==> KeptTorn(w, m, d, now, extra, k))
  {
    hide Exec, Shows, Sparing, Literal, KeptTorn, View, ScanAll, PlainAfter, Unlogged.JustOpened, Recovery.Open;
    FilesInPast(w, plain, m, d);
    Unlogged.OpenedStart(d, logged, w.clock);
    ShownViews(Unlogged.OpenedState(d, logged, w.clock).mem, ScanAll(Unlogged.OpenedState(d, logged, w.clock).mem, d.tables));
    if Sparing(w) || Literal(w) {
      CrashedKeys(w, plain, m, d, extra);
      if Sparing(w) && Logged(w) && extra == map[] {
        BeganIdle(w, plain);
        NothingMissing(w, m, d, PlainAfter(plain, w.trace));
        Recovery.SameMap(ScanAll(Unlogged.OpenedState(d, logged, w.clock).mem, d.tables), PlainAfter(plain, w.trace));
      }
    }
  }

  /** With complete logs no key needs the readers. */
  lemma NothingMissing(w: Schedule, m: Memory, d: Directory, now: Table)
    requires Reached(w, m, d) && w.start.flush.FlushIdle? && Sparing(w) && Logged(w)
    ensures forall key :: KeptTorn(w, m, d, now, map[], key)
  {
    hide Exec, Unlogged.LackAfter, LookupRuns;
    Unlogged.FlushHeals(w.keepMerged, w.start, Unlogged.Lost(w.start), w.trace);
  }

  /** A crash after n bytes of the log record of a write, at any point of any schedule, and Open
      on what it leaves: what an abandoned log has is copied behind the torn record. The new
      engine has begun on its full scan, and that is right for exactly these keys: those for
      which something is read back from the torn record and the copies, if it is the plain map's
      value, and otherwise those that a crash without copies keeps. */
  method CrashInWrite(db: StrataGo, key: Bytes, value: Value, n: nat, ghost w: Schedule, ghost plain: Table)
    returns (reopened: StrataGo, ghost w': Schedule, ghost copied: seq<Wal.Record>)
    requires Valid(db, w) && Began(w, plain) && WriteFits(key, value) && n < Wal.Size(NextRecord(db, key, value))
    requires db.dir.flushing != null ==> n + |db.dir.flushing.data| < TWO32
    modifies db.wal.file, db.dir`log, db.dir`flushing, LogFiles(db.dir)
    ensures Valid(reopened, w') && w' == Start(w.keepMerged, Unlogged.OpenedState(old(db.Dir()), reopened.Dir().log, w.clock))
    ensures var d, extra := old(db.Dir()), Misread(db.crc, old(NextRecord(db, key, value)), n, copied);
      var shown, now := Store.ScanAll(w'.start.mem, d.tables), PlainAfter(plain, w.trace);
      && (if d.flushing.Some? then CopyOf(copied, d.flushing.value, 0) else copied == [] && extra == map[] && Logged(w'))
      && reopened.Dir().log == d.log + extra && Began(w', shown)
      && (Sparing(w) && Logged(w) && extra == map[] ==> shown == now)
      && (Sparing(w) || Literal(w) ==> forall k :: MapGet(shown, k) == MapGet(now, k) <==> KeptTorn(w, old(db.Mem()), d, now, extra, k))
  {
    hide StrataGo.Valid, StrataGo.Mem, StrataGo.Dir, PlainAfter, Began, Sparing, Literal, Logged, KeptTorn, Store.ScanAll, Recovery.Open,
      Shows, WholeLog, Reached, FlushValid, CompactValid, Misread, CopyOf, Recovery.Complete, Unlogged.OpenedState;
    ghost var m, d := db.Mem(), db.Dir();
    var r := NextRecord(db, key, value);
    reopened, copied := OpenBehindTorn(db, r, n);
    ghost var logged := reopened.Dir().log;
    TornShows(w, plain, m, d, logged, Misread(db.crc, r, n, copied));
    OpenedStateIs(d, logged, w.clock);
    Started(reopened, w.keepMerged, w.clock);
    w' := Start(w.keepMerged, Unlogged.OpenedState(d, logged, w.clock));
  }

  lemma OpenedStateIs(d: Directory, logged: Table, clock: int)
    ensures var mem := Recovery.Open(Recovery.Complete(d, logged));
      && mem.immutable.None?
      && Unlogged.OpenedState(d, logged, clock) == State(mem, d.(log := logged, flushing := None), FlushIdle, CompactIdle, clock)
  {
  }

  lemma BeganIdle(w: Schedule, plain: Table)
    requires Began(w, plain)
    ensures w.start.flush.FlushIdle?
  {
  }

  lemma DirParts(db: StrataGo)
    requires db.Valid()
    ensures (forall t :: t in db.dir.tables ==> WellFormed(db.hash, db.dir.tables[t])) && db.wal.file == db.dir.log
    ensures db.Dir().flushing.None? <==> db.dir.flushing == null
    ensures db.Dir().log == Wal.Replay(db.crc, db.wal.file.data) && WholeLog(db.crc, db.wal.file.data)
  {
  }
}
