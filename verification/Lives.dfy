/** A store over any number of crashes: each time it is opened again on what the crash left,
    and goes on from there. */
module Lives {
  import opened ByteStrings
  import opened Entries
  import opened Store
  import opened Machine
  import opened Recovery
  import opened Removal

  /** The state after Open: nothing is in progress. */
  ghost function Reopened(d: Directory, clock: int): State {
    State(Open(d), OpenDirectory(d), FlushIdle, CompactIdle, clock)
  }

  ghost predicate FilesBefore(d: Directory, clock: int) {
    forall t :: t in d.tables ==> t < clock
  }

  lemma {:induction false} SortedRunsList(tables: map<int, Table>)
    ensures ListsFiles(tables, SortedRuns(tables))
    decreases |tables|
  {
    hide SortedRuns;
    SortedRunsStep(tables);
    if tables != map[] {
      var t := Newest(tables.Keys);
      SortedRunsList(tables - {t});
      NewestListed(tables, t, SortedRuns(tables - {t}));
    }
  }

  lemma NewestListed(tables: map<int, Table>, t: int, runs: seq<Run>)
    requires t in tables && (forall u :: u in tables ==> u <= t) && ListsFiles(tables - {t}, runs)
    ensures ListsFiles(tables, runs + [Run(t, tables[t])])
  {
    var runs' := runs + [Run(t, tables[t])];
    forall i | 0 <= i < |runs| ensures runs'[i] == runs[i] && runs[i].timestamp in tables - {t} && runs[i].timestamp < t {
      assert runs[i].timestamp in tables - {t};
    }
    forall u | u in tables ensures exists i :: 0 <= i < |runs'| && runs'[i].timestamp == u {
      if u == t {
        assert runs'[|runs|].timestamp == u;
      } else {
        assert u in tables - {t};
        var i :| 0 <= i < |runs| && runs[i].timestamp == u;
        assert runs'[i].timestamp == u;
      }
    }
  }

  lemma ReplayedLog(d: Directory)
    ensures Payloads(Open(d).active) == Replayed(d)
  {
    hide SortedRuns;
  }

  /** What Open finds satisfies the invariant again. */
  lemma ReopenedInv(d: Directory, clock: int)
    requires FilesBefore(d, clock)
    ensures DirInv(Reopened(d, clock))
  {
    hide SortedRuns;
    SortedRunsList(d.tables);
    ReplayedLog(d);
    var s, runs := Reopened(d, clock), SortedRuns(d.tables);
    assert s.mem.runs == runs;
    forall i | 0 <= i < |runs| ensures HasFile(s, i) && runs[i].timestamp < clock {}
  }

  /** Its view is the full scan of the reopened store. */
  lemma ReopenedShows(d: Directory)
    ensures Shows(Open(d), ScanAll(Open(d), d.tables))
  {
    hide SortedRuns, ScanAll, View;
    forall key ensures View(Open(d), key) == MapGet(ScanAll(Open(d), d.tables), key) {
      SortedRunsPresent(d.tables);
      ScanAllAt(Open(d), d.tables, key);
      OpenRuns(d);
      assert Open(d).(runs := PresentRuns(Open(d).runs, d.tables)) == Open(d);
    }
  }

  /** A crash brings back, for keys in both logs, the older of their two values. */
  ghost function AfterCrash(plain: Table, d: Directory): Table {
    if d.flushing.None? then plain
    else Store.Live(plain + map k | k in d.flushing.value && k in d.log :: d.flushing.value[k])
  }

  /** The store that Open finds after a crash at any step, exactly. */
  lemma CrashIsExact(s: State, plain: Table)
    requires DirInv(s) && Shows(s.mem, plain)
    ensures ScanAll(Open(s.dir), s.dir.tables) == AfterCrash(plain, s.dir)
  {
    hide ScanAll, DirInv, Open, View;
    forall key ensures MapGet(ScanAll(Open(s.dir), s.dir.tables), key) == MapGet(AfterCrash(plain, s.dir), key) {
      CrashKeepsView(s, plain, key);
      assert View(s.mem, key) == MapGet(plain, key);
      ViewIsLive(s.mem, key);
    }
    SameMap(ScanAll(Open(s.dir), s.dir.tables), AfterCrash(plain, s.dir));
  }

  lemma ViewIsLive(m: Memory, key: Bytes)
    ensures View(m, key) != Some([])
  {
    hide NewestValue;
  }

  /** It is the plain map if and only if every key in both logs has the same live value in
      both, or none. */
  lemma CrashKeepsPlainIff(s: State, plain: Table)
    requires DirInv(s) && Shows(s.mem, plain)
    ensures AfterCrash(plain, s.dir) == plain <==>
      forall key :: RewrittenSinceRotation(s.dir, key) ==> s.dir.flushing.value[key] == s.dir.log[key]
  {
    hide ScanAll, DirInv, Open, View, AfterCrash;
    CrashIsExact(s, plain);
    forall key
      ensures MapGet(AfterCrash(plain, s.dir), key) == MapGet(plain, key) <==>
        (RewrittenSinceRotation(s.dir, key) ==> s.dir.flushing.value[key] == s.dir.log[key])
    {
      CrashKeepsView(s, plain, key);
    }
    if forall key :: RewrittenSinceRotation(s.dir, key) ==> s.dir.flushing.value[key] == s.dir.log[key] {
      SameMap(AfterCrash(plain, s.dir), plain);
    }
  }

  // ---------- a torn wal.log beside wal.log.flushing ----------

  /** Open beside an abandoned log, when more than the current log's own entries is read back:
      all of the copies behind whole records, some of them if Open crashed before, or whatever
      a torn record and the copies behind it spell. A key shows the plain map's value unless
      what is read back for it says otherwise. */
  lemma TornOpenShows(s: State, plain: Table, extra: Table, key: Bytes)
    requires DirInv(s) && Shows(s.mem, plain) && s.dir.flushing.Some?
    ensures View(Open(Complete(s.dir, s.dir.log + extra)), key) == MapGet(plain, key) <==>
      (key in extra ==> TableAnswer(Some(extra[key])) == MapGet(plain, key))
    ensures extra.Items <= s.dir.flushing.value.Items ==> (
      (key in extra ==> TableAnswer(Some(extra[key])) == MapGet(plain, key)) <==>
      (key in extra && key in s.dir.log ==> extra[key] == s.dir.log[key]))
  {
    hide UnionRuns, LookupRuns, SortedRuns, RunsOrdered, FilesMatch, CompactInv, NoStrays, RemovingInv;
    if key in extra && extra.Items <= s.dir.flushing.value.Items {
      assert (key, extra[key]) in extra.Items;
    }
    DirectoryAnswers(s, key);
    assert View(s.mem, key) == MapGet(plain, key);
    assert key in s.mem.active <==> key in s.dir.log;
  }

  // ---------- lives ----------

  /** The state and the plain map after some runs, each of which ends in a crash that Open
      recovers from; None if some step is not possible. */
  ghost function Life(keepMerged: bool, s: State, plain: Table, runs: seq<seq<Event>>): Option<(State, Table)> {
    if runs == [] then Some((s, plain))
    else
      match Life(keepMerged, s, plain, runs[..|runs| - 1])
      case None => None
      case Some((t, p)) =>
        match Exec(keepMerged, t, runs[|runs| - 1])
        case None => None
        case Some(u) => Some((Reopened(u.dir, u.clock), AfterCrash(PlainAfter(p, runs[|runs| - 1]), u.dir)))
  }

  /** No run of the life removes a merged file. */
  ghost predicate AllSpared(keepMerged: bool, runs: seq<seq<Event>>) {
    keepMerged || forall i :: 0 <= i < |runs| ==> Removes(runs[i]) < COMPACTION_THRESHOLD
  }

  /** All timestamps are in the past, whatever has been compacted and removed. */
  ghost predicate InPast(s: State) {
    && FilesBefore(s.dir, s.clock) && (forall i :: 0 <= i < |s.mem.runs| ==> s.mem.runs[i].timestamp < s.clock)
    && (s.compact.MergedFile? ==> s.compact.merged.timestamp < s.clock) && (s.flush.Built? ==> s.flush.timestamp < s.clock)
  }

  lemma {:induction false} SpliceMembers(runs: seq<Run>, picked: seq<nat>, merged: Run)
    ensures forall r :: r in Splice(runs, picked, merged) ==> r == merged || r in runs
  {
    if runs != [] {
      SpliceMembers(runs[..|runs| - 1], picked, merged);
    }
  }

  lemma StepInPast(keepMerged: bool, s: State, e: Event)
    requires InPast(s) && Enabled(s, e)
    ensures InPast(Next(keepMerged, s, e))
  {
    hide Splice, UnionRuns, MergedRun;
    var s', runs := Next(keepMerged, s, e), s.mem.runs;
    if e.Merge? {
      MergedRunName(runs, s.compact.picked, s.dir.tables);
      assert s.compact.picked[|s.compact.picked| - 1] < |runs|;
    } else if e.Swap? {
      SpliceMembers(runs, s.compact.picked, s.compact.merged);
      forall i | 0 <= i < |s'.mem.runs| ensures s'.mem.runs[i].timestamp < s'.clock {
        assert s'.mem.runs[i] in s'.mem.runs;
      }
    }
  }

  lemma {:induction false} RunInPast(keepMerged: bool, s: State, events: seq<Event>)
    requires InPast(s) && Exec(keepMerged, s, events).Some?
    ensures InPast(Exec(keepMerged, s, events).value)
  {
    hide InPast, Next;
    if events != [] {
      var n := |events| - 1;
      RunInPast(keepMerged, s, events[..n]);
      StepInPast(keepMerged, Exec(keepMerged, s, events[..n]).value, events[n]);
    }
  }

  lemma DirInvInPast(s: State)
    requires DirInv(s)
    ensures InPast(s)
  {
    hide LookupRuns, UnionRuns, LogsMatch, FilesMatch;
    forall t | t in s.dir.tables ensures t < s.clock {
      if !Leftover(s.compact, t) && s.flush != Built(t) {
        var i :| 0 <= i < |s.mem.runs| && s.mem.runs[i].timestamp == t;
      } else if Leftover(s.compact, t) {
        var i :| 0 <= i < |s.mem.runs| && s.mem.runs[i] == s.compact.merged;
      }
    }
  }

  /** After any run of either form of the removal, Open finds a state that satisfies the
      invariant again and shows what its full scan shows. */
  lemma ReopenedAfterRun(keepMerged: bool, s: State, events: seq<Event>)
    requires DirInv(s) && Exec(keepMerged, s, events).Some?
    ensures var t := Exec(keepMerged, s, events).value;
      DirInv(Reopened(t.dir, t.clock)) && Shows(Open(t.dir), ScanAll(Open(t.dir), t.dir.tables))
  {
    hide DirInv, Exec, Shows, ScanAll, Open, FilesBefore;
    DirInvInPast(s);
    RunInPast(keepMerged, s, events);
    var t := Exec(keepMerged, s, events).value;
    ReopenedInv(t.dir, t.clock);
    ReopenedShows(t.dir);
  }

  /** Safety over any number of crashes, at any steps: the invariant holds, and the view and
      the full scan are the writes' plain map, up to what each crash exactly brings back. With
      the source's removal this is so as long as no run reaches its fourth file. */
  lemma {:induction false} EveryLifeIsSafe(keepMerged: bool, s: State, plain: Table, runs: seq<seq<Event>>)
    requires DirInv(s) && Shows(s.mem, plain) && s.compact.CompactIdle?
    requires Life(keepMerged, s, plain, runs).Some? && AllSpared(keepMerged, runs)
    ensures var (t, p) := Life(keepMerged, s, plain, runs).value;
      DirInv(t) && Shows(t.mem, p) && t.compact.CompactIdle? && ScanAll(t.mem, t.dir.tables) == p
  {
    hide DirInv, Shows, Exec, ScanAll, AfterCrash, Open, PlainAfter;
    if runs == [] {
      ScanIsView(s, plain);
    } else {
      var n := |runs| - 1;
      EveryLifeIsSafe(keepMerged, s, plain, runs[..n]);
      var (t, p) := Life(keepMerged, s, plain, runs[..n]).value;
      var u := Exec(keepMerged, t, runs[n]).value;
      RunIsSafe(keepMerged, t, p, runs[n]);
      ReopenedAfterRun(keepMerged, t, runs[n]);
      CrashIsExact(u, PlainAfter(p, runs[n]));
    }
  }

  lemma ScanIsView(s: State, plain: Table)
    requires DirInv(s) && Shows(s.mem, plain)
    ensures ScanAll(s.mem, s.dir.tables) == plain
  {
    hide ScanAll, Shows, Inv;
    ScanAllIsPlain(s, plain);
  }
}
