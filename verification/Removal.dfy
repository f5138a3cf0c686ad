/** The removal at the end of a compaction as it is in the source: it deletes every input by
    name, and the newest input's name is the merged file's. Exactly when, and for which keys,
    the directory still tells what the readers tell. */
module Removal {
  import opened ByteStrings
  import opened Entries
  import opened Store
  import opened Machine
  import opened Recovery

  /** How many removals a run has made. */
  function Removes(events: seq<Event>): nat {
    if events == [] then 0 else Removes(events[..|events| - 1]) + if events[|events| - 1].Remove? then 1 else 0
  }

  /** The run removes no merged file: it spares its name, or has not come to it. */
  ghost predicate Spared(keepMerged: bool, s: State, events: seq<Event>) {
    keepMerged || (s.compact.CompactIdle? && Removes(events) < COMPACTION_THRESHOLD)
  }

  // ---------- up to the removal of the merged file ----------

  /** The first compaction has removed so many files; the merged one's name comes last. */
  ghost predicate FirstRemovals(c: CompactPc, removed: nat) {
    match c
    case Removing(inputs, merged, next) =>
      && next == removed && |inputs| == COMPACTION_THRESHOLD && inputs[|inputs| - 1] == merged.timestamp
      && forall i :: 0 <= i < |inputs| - 1 ==> inputs[i] != merged.timestamp
    case _ => removed == 0
  }

  lemma SwapStartsRemovals(s: State)
    requires Inv(s) && Enabled(s, Swap)
    ensures FirstRemovals(Next(true, s, Swap).compact, 0)
  {
    hide UnionRuns, Splice, FilesMatch, FlushInv;
    var runs, picked := s.mem.runs, s.compact.picked;
    var last := |picked| - 1;
    forall i | 0 <= i < last ensures runs[picked[i]].timestamp != runs[picked[last]].timestamp {
      assert picked[i] < picked[last];
    }
  }

  /** Before the fourth removal the source's step is the sparing one. */
  lemma SameStep(s: State, e: Event, removed: nat)
    requires Inv(s) && FirstRemovals(s.compact, removed) && Enabled(s, e)
    requires e.Remove? ==> removed < COMPACTION_THRESHOLD - 1
    ensures Next(false, s, e) == Next(true, s, e)
    ensures FirstRemovals(Next(true, s, e).compact, if e.Remove? then removed + 1 else removed)
  {
    hide Inv, Splice, MergedRun;
    if e.Swap? {
      SwapStartsRemovals(s);
    }
  }

  lemma {:induction false} SameRun(s: State, plain: Table, events: seq<Event>)
    requires DirInv(s) && Shows(s.mem, plain) && s.compact.CompactIdle?
    requires Exec(false, s, events).Some? && Removes(events) < COMPACTION_THRESHOLD
    ensures Exec(true, s, events) == Exec(false, s, events)
    ensures FirstRemovals(Exec(true, s, events).value.compact, Removes(events))
  {
    hide DirInv, Shows, Next, FirstRemovals;
    if events == [] {
      NoRemovals(s.compact);
    } else {
      var n := |events| - 1;
      SameRun(s, plain, events[..n]);
      EveryRunIsSafe(s, plain, events[..n]);
      var t := Exec(true, s, events[..n]).value;
      assert Inv(t) by { DirInvInv(t); }
      SameStep(t, events[n], Removes(events[..n]));
    }
  }

  lemma NoRemovals(c: CompactPc)
    requires c.CompactIdle?
    ensures FirstRemovals(c, 0)
  {
  }

  lemma DirInvInv(s: State)
    requires DirInv(s)
    ensures Inv(s) && AllPresent(s)
  {
  }

  /** Safety over every interleaving, for the source's removal up to its fourth file and for
      the sparing one throughout. */
  lemma RunIsSafe(keepMerged: bool, s: State, plain: Table, events: seq<Event>)
    requires DirInv(s) && Shows(s.mem, plain) && Exec(keepMerged, s, events).Some? && Spared(keepMerged, s, events)
    ensures DirInv(Exec(keepMerged, s, events).value)
    ensures Shows(Exec(keepMerged, s, events).value.mem, PlainAfter(plain, events))
    ensures ScanAll(Exec(keepMerged, s, events).value.mem, Exec(keepMerged, s, events).value.dir.tables) == PlainAfter(plain, events)
  {
    hide DirInv, Shows, Exec, ScanAll, PlainAfter;
    if !keepMerged {
      SameRun(s, plain, events);
    }
    EveryRunIsSafe(s, plain, events);
    var t := Exec(keepMerged, s, events).value;
    DirInvInv(t);
    ScanAllIsPlain(t, PlainAfter(plain, events));
  }

  // ---------- from the removal of the merged file on ----------

  ghost predicate NotPicked(runs: seq<Run>, picked: seq<nat>, t: int) {
    Increasing(picked, |runs|) && forall i :: 0 <= i < |picked| ==> runs[picked[i]].timestamp != t
  }

  /** A reader of this name is listed, has no file, and is in nobody's hands. */
  ghost predicate Lost(s: State, t: int) {
    && t < s.clock && t !in s.dir.tables
    && (exists i :: 0 <= i < |s.mem.runs| && s.mem.runs[i].timestamp == t)
    && match s.compact
       case Selected(picked) => NotPicked(s.mem.runs, picked, t)
       case MergedFile(picked, merged) => NotPicked(s.mem.runs, picked, t) && merged.timestamp != t
       case _ => true
  }

  lemma {:induction false} SpliceKeepsOthers(runs: seq<Run>, picked: seq<nat>, merged: Run, i: nat)
    requires i < |runs| && i !in picked
    ensures runs[i] in Splice(runs, picked, merged)
  {
    if i < |runs| - 1 {
      SpliceKeepsOthers(runs[..|runs| - 1], picked, merged, i);
    }
  }

  /** Such a reader stays for ever: no selection takes it. */
  lemma LostForEver(s: State, e: Event, t: int)
    requires Lost(s, t) && Enabled(s, e)
    ensures Lost(Next(false, s, e), t)
  {
    hide UnionRuns, Splice;
    var s', runs := Next(false, s, e), s.mem.runs;
    var i :| 0 <= i < |runs| && runs[i].timestamp == t;
    if e.Swap? {
      SpliceKeepsOthers(runs, s.compact.picked, s.compact.merged, i);
      var j :| 0 <= j < |s'.mem.runs| && s'.mem.runs[j] == runs[i];
    } else {
      assert s'.mem.runs[i] == runs[i];
    }
    if e.Select? {
      forall k | 0 <= k < |e.picked| ensures runs[e.picked[k]].timestamp != t {
        assert HasFile(s, e.picked[k]);
      }
    }
  }

  /** The fourth removal loses the merged reader's file. */
  lemma FourthRemoval(s: State)
    requires DirInv(s) && Enabled(s, Remove) && FirstRemovals(s.compact, COMPACTION_THRESHOLD - 1)
    ensures Lost(Next(false, s, Remove), s.compact.merged.timestamp)
  {
    hide UnionRuns, LookupRuns, NoStrays, LogsMatch, FilesMatch;
    var i :| 0 <= i < |s.mem.runs| && s.mem.runs[i] == s.compact.merged;
    assert Next(false, s, Remove).mem.runs[i].timestamp == s.compact.merged.timestamp;
  }

  lemma {:induction false} LostByRun(s: State, plain: Table, events: seq<Event>) returns (t: int)
    requires DirInv(s) && Shows(s.mem, plain) && s.compact.CompactIdle?
    requires Exec(false, s, events).Some? && Removes(events) >= COMPACTION_THRESHOLD
    ensures Lost(Exec(false, s, events).value, t)
  {
    hide DirInv, Shows, Next, FirstRemovals, Lost;
    var n := |events| - 1;
    if Removes(events[..n]) >= COMPACTION_THRESHOLD {
      t := LostByRun(s, plain, events[..n]);
      LostForEver(Exec(false, s, events[..n]).value, events[n], t);
    } else {
      SameRun(s, plain, events[..n]);
      EveryRunIsSafe(s, plain, events[..n]);
      var u := Exec(true, s, events[..n]).value;
      FourthRemoval(u);
      t := u.compact.merged.timestamp;
    }
  }

  /** Every reader's file is in place if and only if the source's removal has taken fewer than
      four files since nothing was being compacted. */
  lemma AllPresentIff(s: State, plain: Table, events: seq<Event>)
    requires DirInv(s) && Shows(s.mem, plain) && s.compact.CompactIdle? && Exec(false, s, events).Some?
    ensures AllPresent(Exec(false, s, events).value) <==> Removes(events) < COMPACTION_THRESHOLD
  {
    hide DirInv, Shows, Exec;
    if Removes(events) < COMPACTION_THRESHOLD {
      RunIsSafe(false, s, plain, events);
      DirInvInv(Exec(false, s, events).value);
    } else {
      var t := LostByRun(s, plain, events);
      LostIsAbsent(Exec(false, s, events).value, t);
    }
  }

  lemma LostIsAbsent(s: State, t: int)
    requires Lost(s, t)
    ensures !AllPresent(s)
  {
    var i :| 0 <= i < |s.mem.runs| && s.mem.runs[i].timestamp == t;
    assert !HasFile(s, i);
  }

  // ---------- which keys the directory still tells ----------

  predicate MemtablesDecide(m: Memory, key: Bytes) {
    key in m.active || (m.immutable.Some? && key in m.immutable.value)
  }

  predicate SameAnswer(a: seq<Run>, b: seq<Run>, key: Bytes) {
    TableAnswer(LookupRuns(a, key)) == TableAnswer(LookupRuns(b, key))
  }

  /** In any state at all, the scan shows a key as the layers do if and only if a memtable
      decides it or the readers that can still be opened by name answer as all of them do. */
  lemma ScanIff(m: Memory, tables: map<int, Table>, key: Bytes)
    ensures MapGet(ScanAll(m, tables), key) == View(m, key) <==>
      MemtablesDecide(m, key) || SameAnswer(PresentRuns(m.runs, tables), m.runs, key)
  {
    hide LookupRuns, PresentRuns, ScanAll;
    ScanAllAt(m, tables, key);
  }

  /** The scan after any run with the source's removal, key by key. */
  lemma LiteralScanIff(s: State, plain: Table, events: seq<Event>, key: Bytes)
    requires DirInv(s) && Shows(s.mem, plain) && Exec(false, s, events).Some? && ContiguousPicks(events)
    ensures var t := Exec(false, s, events).value;
      MapGet(ScanAll(t.mem, t.dir.tables), key) == MapGet(PlainAfter(plain, events), key) <==>
        MemtablesDecide(t.mem, key) || SameAnswer(PresentRuns(t.mem.runs, t.dir.tables), t.mem.runs, key)
  {
    hide DirInv, Inv, View, Exec, ScanAll, PresentRuns, PlainAfter, MemtablesDecide, SameAnswer;
    DirInvInv(s);
    RunShows(false, s, plain, events);
    var t := Exec(false, s, events).value;
    ScanIff(t.mem, t.dir.tables, key);
    assert View(t.mem, key) == MapGet(PlainAfter(plain, events), key);
  }

  /** The moment of the loss: the scan keeps exactly the keys that a memtable decides or that
      the other readers answer alike. */
  lemma RemovalOfMergedIff(s: State, plain: Table, m: nat, key: Bytes)
    requires DirInv(s) && Shows(s.mem, plain) && Enabled(s, Remove)
    requires s.compact.inputs[s.compact.next] == s.compact.merged.timestamp
    requires m < |s.mem.runs| && s.mem.runs[m] == s.compact.merged
    ensures var s', runs := Next(false, s, Remove), s.mem.runs;
      MapGet(ScanAll(s'.mem, s'.dir.tables), key) == MapGet(plain, key) <==>
        MemtablesDecide(s.mem, key) || SameAnswer(runs[..m] + runs[m + 1..], runs, key)
  {
    hide LookupRuns, ScanAll, UnionRuns, View, RemovingInv, NoStrays, LogsMatch, SameAnswer;
    var s', runs := Next(false, s, Remove), s.mem.runs;
    forall i | 0 <= i < |runs|
      ensures runs[i].timestamp in s.dir.tables && s.dir.tables[runs[i].timestamp] == runs[i].table
      ensures i != m ==> runs[i].timestamp != runs[m].timestamp
    {
      assert HasFile(s, i);
    }
    PresentWithout(runs, s.dir.tables, m, |runs|);
    assert runs[..|runs|] == runs;
    ScanIff(s'.mem, s'.dir.tables, key);
    assert View(s.mem, key) == MapGet(plain, key);
  }

  /** Opening the readers by name when one file is gone. */
  lemma {:induction false} PresentWithout(runs: seq<Run>, tables: map<int, Table>, m: nat, n: nat)
    requires m < |runs| && n <= |runs|
    requires forall i :: 0 <= i < |runs| ==> runs[i].timestamp in tables && tables[runs[i].timestamp] == runs[i].table
    requires forall i :: 0 <= i < |runs| && i != m ==> runs[i].timestamp != runs[m].timestamp
    ensures PresentRuns(runs[..n], tables - {runs[m].timestamp}) == if n <= m then runs[..n] else runs[..m] + runs[m + 1..n]
  {
    if n > 0 {
      PresentWithout(runs, tables, m, n - 1);
      assert runs[..n][..n - 1] == runs[..n - 1];
    }
  }

  // ---------- reopening ----------

  lemma WriteKeepsLogs(keepMerged: bool, s: State, e: Event)
    requires LogsMatch(s) && (e.Put? || e.Delete?)
    ensures LogsMatch(Next(keepMerged, s, e))
  {
  }

  lemma PublishKeepsLogs(keepMerged: bool, s: State)
    requires FlushInv(s) && LogsMatch(s) && Enabled(s, Publish)
    ensures LogsMatch(Next(keepMerged, s, Publish))
  {
    var run := Run(s.flush.timestamp, Payloads(s.mem.immutable.value));
    forall key ensures LookupRuns(s.mem.runs + [run], key) ==
      if key in run.table then Some(run.table[key]) else LookupRuns(s.mem.runs, key)
    {
      LookupAppend(s.mem.runs, run, key);
    }
  }

  lemma SwapKeepsLogs(keepMerged: bool, s: State)
    requires Inv(s) && LogsMatch(s) && Enabled(s, Swap)
    ensures LogsMatch(Next(keepMerged, s, Swap))
  {
    hide LookupRuns, Splice, UnionRuns;
    var s' := Next(keepMerged, s, Swap);
    if s.flush.Published? {
      forall k | k in s.dir.flushing.value ensures LookupRuns(s'.mem.runs, k) == Some(s.dir.flushing.value[k]) {
        SpliceKeepsLookups(s.mem.runs, s.compact.picked, s.compact.merged, k);
      }
    }
  }

  lemma LogsKeep(keepMerged: bool, s: State, e: Event)
    requires Inv(s) && LogsMatch(s) && Enabled(s, e)
    ensures LogsMatch(Next(keepMerged, s, e))
  {
    if e.Put? || e.Delete? {
      WriteKeepsLogs(keepMerged, s, e);
    } else if e.Publish? {
      PublishKeepsLogs(keepMerged, s);
    } else if e.Swap? {
      SwapKeepsLogs(keepMerged, s);
    }
  }

  /** The logs hold what the memtables hold, also with the source's removal. */
  lemma {:induction false} LiteralLogs(s: State, plain: Table, events: seq<Event>)
    requires DirInv(s) && Shows(s.mem, plain) && Exec(false, s, events).Some? && ContiguousPicks(events)
    ensures LogsMatch(Exec(false, s, events).value)
  {
    hide Inv, Shows, Next, LogsMatch;
    if events == [] {
      DirInvLogs(s);
    } else {
      var n := |events| - 1;
      LiteralLogs(s, plain, events[..n]);
      RunShows(false, s, plain, events[..n]);
      LogsKeep(false, Exec(false, s, events[..n]).value, events[n]);
    }
  }

  lemma DirInvLogs(s: State)
    requires DirInv(s)
    ensures LogsMatch(s)
  {
  }

  /** Open on what any such state leaves, key by key: the two logs must not disagree, and a
      key that is in neither needs files that answer as the readers do. */
  lemma ReopenIff(s: State, plain: Table, key: Bytes)
    requires Inv(s) && LogsMatch(s) && Shows(s.mem, plain)
    ensures ReopenedView(s.dir, key) == MapGet(plain, key) <==>
      && (RewrittenSinceRotation(s.dir, key) ==> s.dir.flushing.value[key] == s.dir.log[key])
      && (key !in Replayed(s.dir) ==> SameAnswer(SortedRuns(s.dir.tables), s.mem.runs, key))
  {
    hide UnionRuns, LookupRuns, ReopenedView, SortedRuns, RunsOrdered, FilesMatch, CompactInv;
    ReopenedAt(s.dir, key);
    assert View(s.mem, key) == MapGet(plain, key);
    assert key in s.mem.active <==> key in s.dir.log;
  }

  /** A crash after any run with the source's removal, and Open, key by key. */
  lemma LiteralReopenIff(s: State, plain: Table, events: seq<Event>, key: Bytes)
    requires DirInv(s) && Shows(s.mem, plain) && Exec(false, s, events).Some? && ContiguousPicks(events)
    ensures var t := Exec(false, s, events).value;
      ReopenedView(t.dir, key) == MapGet(PlainAfter(plain, events), key) <==>
        && (RewrittenSinceRotation(t.dir, key) ==> t.dir.flushing.value[key] == t.dir.log[key])
        && (key !in Replayed(t.dir) ==> SameAnswer(SortedRuns(t.dir.tables), t.mem.runs, key))
  {
    hide DirInv, Inv, Shows, Exec, PlainAfter, ReopenedView, RewrittenSinceRotation, SameAnswer, LogsMatch;
    DirInvInv(s);
    RunShows(false, s, plain, events);
    LiteralLogs(s, plain, events);
    ReopenIff(Exec(false, s, events).value, PlainAfter(plain, events), key);
  }
}
