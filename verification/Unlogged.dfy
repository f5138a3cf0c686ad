/** An engine that was opened beside a torn log: its memtable holds keys that its log lacks. It
    runs like one whose log is complete, until a crash asks for them. */
module Unlogged {
  import opened ByteStrings
  import opened Entries
  import opened Store
  import opened Machine
  import opened Recovery
  import opened Removal
  import opened Lives

  /** The keys that are missing from the log of the active memtable, and of the immutable one. */
  datatype Lack = Lack(active: set<Bytes>, immutable: set<Bytes>)

  function LackStep(l: Lack, e: Event): Lack {
    match e
    case Put(key, _) => l.(active := l.active - {key})
    case Delete(key) => l.(active := l.active - {key})
    case Rotate => Lack({}, l.active)
    case DropLog => l.(immutable := {})
    case _ => l
  }

  /** What a run has left of what was missing: neither written since nor flushed. */
  function LackAfter(lost: set<Bytes>, events: seq<Event>): Lack {
    if events == [] then Lack(lost, {}) else LackStep(LackAfter(lost, events[..|events| - 1]), events[|events| - 1])
  }

  /** The same state with these keys missing. */
  function Without(t: State, l: Lack): State {
    t.(dir := t.dir.(
      log := t.dir.log - l.active,
      flushing := if t.dir.flushing.Some? then Some(t.dir.flushing.value - l.immutable) else None))
  }

  lemma WithoutNothing(t: State)
    ensures Without(t, Lack({}, {})) == t
  {
    assert t.dir.log - {} == t.dir.log;
    assert t.dir.flushing.Some? ==> t.dir.flushing.value - {} == t.dir.flushing.value;
  }

  lemma StepWithout(keepMerged: bool, t: State, l: Lack, e: Event)
    ensures Enabled(Without(t, l), e) <==> Enabled(t, e)
    ensures Enabled(t, e) ==> Next(keepMerged, Without(t, l), e) == Without(Next(keepMerged, t, e), LackStep(l, e))
  {
    hide MergedRun, Splice;
    match e
    case Put(key, value) =>
      assert (t.dir.log - l.active)[key := Payload(value)] == t.dir.log[key := Payload(value)] - (l.active - {key});
    case Delete(key) =>
      assert (t.dir.log - l.active)[key := []] == t.dir.log[key := []] - (l.active - {key});
    case _ =>
  }

  /** No step reads the logs, so that every run goes the same way. */
  lemma {:induction false} RunWithout(keepMerged: bool, t: State, lost: set<Bytes>, events: seq<Event>)
    ensures Exec(keepMerged, Without(t, Lack(lost, {})), events) ==
      match Exec(keepMerged, t, events)
      case None => None
      case Some(u) => Some(Without(u, LackAfter(lost, events)))
  {
    hide Enabled, Next, Without, LackStep;
    if events != [] {
      var n := |events| - 1;
      RunWithout(keepMerged, t, lost, events[..n]);
      var u := Exec(keepMerged, t, events[..n]);
      if u.Some? {
        StepWithout(keepMerged, u.value, LackAfter(lost, events[..n]), events[n]);
      }
    }
  }

  /** While a memtable is being flushed the log in use is complete, and after one whole flush
      nothing is missing any more. */
  lemma {:induction false} FlushHeals(keepMerged: bool, s: State, lost: set<Bytes>, events: seq<Event>)
    requires s.flush.FlushIdle? && Exec(keepMerged, s, events).Some?
    ensures !Exec(keepMerged, s, events).value.flush.FlushIdle? ==> LackAfter(lost, events).active == {}
    ensures Exec(keepMerged, s, events).value.flush.FlushIdle? ==> LackAfter(lost, events).immutable == {}
    ensures DropLog in events || lost == {} ==> LackAfter(lost, events) == Lack({}, {})
  {
    hide MergedRun, Splice;
    if events != [] {
      var n := |events| - 1;
      FlushHeals(keepMerged, s, lost, events[..n]);
      assert DropLog in events ==> DropLog in events[..n] || events[n] == DropLog;
    }
  }

  // ---------- a crash of such an engine ----------

  /** A key in no log is told by the files: as the memtable did, if it was missing, and otherwise
      as the readers did. */
  ghost predicate FilesTell(missing: set<Bytes>, u: State, plain: Table, key: Bytes) {
    key !in Replayed(u.dir) ==>
      if key in missing then TableAnswer(LookupRuns(SortedRuns(u.dir.tables), key)) == MapGet(plain, key)
      else SameAnswer(SortedRuns(u.dir.tables), u.mem.runs, key)
  }

  /** With every reader's file in place, only a key matters that was missing and whose table file
      is not there yet: it is told by the readers. */
  ghost predicate ReadersTell(missing: set<Bytes>, u: State, plain: Table, key: Bytes) {
    key in missing && key !in Replayed(u.dir) && (u.flush.FlushIdle? || u.flush.Rotated?) ==>
      TableAnswer(LookupRuns(u.mem.runs, key)) == MapGet(plain, key)
  }

  lemma FilesTellIff(t: State, l: Lack, plain: Table, key: Bytes)
    requires DirInv(t) && Shows(t.mem, plain) && (t.dir.flushing.Some? ==> l.active == {})
    ensures FilesTell(l.active + l.immutable, Without(t, l), plain, key) <==> ReadersTell(l.active + l.immutable, Without(t, l), plain, key)
  {
    hide UnionRuns, LookupRuns, SortedRuns, RunsOrdered, FilesMatch, CompactInv, NoStrays, RemovingInv;
    DirectoryAnswers(t, key);
    assert View(t.mem, key) == MapGet(plain, key);
    if t.flush.Built? {
      UnpublishedFile(t);
    }
  }

  /** Open on what a crash leaves, key by key: the logs must not disagree. */
  lemma ReopenWithoutIff(t: State, l: Lack, plain: Table, key: Bytes)
    requires Inv(t) && LogsMatch(t) && Shows(t.mem, plain) && (t.dir.flushing.Some? ==> l.active == {})
    ensures var u := Without(t, l);
      ReopenedView(u.dir, key) == MapGet(plain, key) <==>
        && (RewrittenSinceRotation(u.dir, key) ==> u.dir.flushing.value[key] == u.dir.log[key])
        && FilesTell(l.active + l.immutable, u, plain, key)
  {
    hide UnionRuns, LookupRuns, ReopenedView, SortedRuns, RunsOrdered, FilesMatch, CompactInv;
    ReopenedAt(Without(t, l).dir, key);
    assert View(t.mem, key) == MapGet(plain, key);
    assert key in t.mem.active <==> key in t.dir.log;
  }

  /** Open when this much is read back behind the current log's own entries, key by key: that
      decides for the keys that it has. */
  lemma ReadBackIff(t: State, l: Lack, plain: Table, extra: Table, key: Bytes)
    requires Inv(t) && LogsMatch(t) && Shows(t.mem, plain) && (t.dir.flushing.Some? ==> l.active == {})
    ensures var u := Without(t, l);
      View(Open(Complete(u.dir, u.dir.log + extra)), key) == MapGet(plain, key) <==>
        if key in extra then TableAnswer(Some(extra[key])) == MapGet(plain, key)
        else FilesTell(l.active + l.immutable, u, plain, key)
  {
    hide UnionRuns, LookupRuns, SortedRuns, RunsOrdered, FilesMatch, CompactInv;
    assert View(t.mem, key) == MapGet(plain, key);
    assert key in t.mem.active <==> key in t.dir.log;
  }

  lemma UnpublishedFile(t: State)
    requires DirInv(t) && t.flush.Built?
    ensures t.mem.immutable.Some? && t.dir.tables[t.flush.timestamp] == Payloads(t.mem.immutable.value)
  {
  }

  // ---------- from Open on ----------

  /** The same state with a complete log, and the keys that the log lacks. */
  ghost function Completed(s: State): State {
    s.(dir := s.dir.(log := Payloads(s.mem.active)))
  }

  function Lost(s: State): set<Bytes> {
    s.mem.active.Keys - s.dir.log.Keys
  }

  /** What is still missing after a run. */
  function Missing(s: State, events: seq<Event>): set<Bytes> {
    var l := LackAfter(Lost(s), events);
    l.active + l.immutable
  }

  /** A state that Open may leave: the invariant holds but for keys missing from the log. */
  ghost predicate JustOpened(s: State) {
    && DirInv(Completed(s)) && s == Without(Completed(s), Lack(Lost(s), {}))
    && s.flush.FlushIdle? && s.compact.CompactIdle?
  }

  /** What Open leaves when this is what recovery reads back from the current log. */
  ghost function OpenedState(d: Directory, logged: Table, clock: int): State {
    State(Open(Complete(d, logged)), d.(log := logged, flushing := None), FlushIdle, CompactIdle, clock)
  }

  /** Whatever is read back, the state is one that runs may start from; what it shows is its
      full scan, and it lacks the abandoned log's keys that were not read back. */
  lemma OpenedStart(d: Directory, logged: Table, clock: int)
    requires FilesBefore(d, clock)
    ensures var s := OpenedState(d, logged, clock);
      && JustOpened(s) && Inv(s) && Shows(s.mem, ScanAll(s.mem, d.tables))
      && Lost(s) == if d.flushing.Some? then d.flushing.value.Keys - logged.Keys else {}
  {
    hide DirInv, Open, Shows, ScanAll;
    var s, c := OpenedState(d, logged, clock), Complete(d, logged);
    ReopenedInv(c, clock);
    ReopenedShows(c);
    OpenedContents(c);
    assert Completed(s) == Reopened(c, clock);
    WithoutLost(d, logged);
    DirInvInv(Reopened(c, clock));
    InvWithout(Reopened(c, clock), Lack(Lost(s), {}));
  }

  lemma OpenedContents(c: Directory)
    requires c.flushing.None?
    ensures Payloads(Open(c).active) == c.log && Open(c).active.Keys == c.log.Keys && OpenDirectory(c) == c
  {
    hide SortedRuns;
  }

  lemma WithoutLost(d: Directory, logged: Table)
    ensures Complete(d, logged).log - (Complete(d, logged).log.Keys - logged.Keys) == logged
  {
  }

  lemma InvWithout(t: State, l: Lack)
    ensures Inv(Without(t, l)) <==> Inv(t)
  {
    hide RunsOrdered, UnionRuns;
  }

  /** An engine that Open left runs like one with a complete log, and is one when its first
      flush is over. */
  lemma RunFromOpened(keepMerged: bool, s: State, plain: Table, events: seq<Event>)
    requires JustOpened(s) && Shows(s.mem, plain) && Exec(keepMerged, s, events).Some?
    ensures var u, c, l := Exec(keepMerged, s, events).value, Exec(keepMerged, Completed(s), events), LackAfter(Lost(s), events);
      && c.Some? && u == Without(c.value, l) && (DropLog in events || Lost(s) == {} ==> u == c.value)
      && (Spared(keepMerged, s, events) ==>
            DirInv(c.value) && Shows(u.mem, PlainAfter(plain, events)) && ScanAll(u.mem, u.dir.tables) == PlainAfter(plain, events))
      && (!keepMerged && ContiguousPicks(events) ==>
            Inv(c.value) && LogsMatch(c.value) && Shows(u.mem, PlainAfter(plain, events)))
      && (LogsMatch(c.value) && u.dir.flushing.Some? ==> l.active == {})
  {
    hide DirInv, Inv, Shows, Exec, ScanAll, PlainAfter, LackAfter;
    RunWithout(keepMerged, Completed(s), Lost(s), events);
    FlushHeals(keepMerged, s, Lost(s), events);
    var c := Exec(keepMerged, Completed(s), events).value;
    WithoutNothing(c);
    if Spared(keepMerged, s, events) {
      RunIsSafe(keepMerged, Completed(s), plain, events);
    }
    if !keepMerged && ContiguousPicks(events) {
      DirInvInv(Completed(s));
      RunShows(false, Completed(s), plain, events);
      LiteralLogs(Completed(s), plain, events);
    }
  }

  /** A crash at any point of any run after such an Open, and Open again, key by key; where the
      crash tore the current log, also for whatever is then read back. This is for the source's
      removal up to its fourth file and for the sparing one. */
  lemma TornThenCrash(keepMerged: bool, s: State, plain: Table, events: seq<Event>, extra: Table, key: Bytes)
    requires JustOpened(s) && Shows(s.mem, plain) && Exec(keepMerged, s, events).Some? && Spared(keepMerged, s, events)
    ensures var u, now, missing := Exec(keepMerged, s, events).value, PlainAfter(plain, events), Missing(s, events);
      && (ReopenedView(u.dir, key) == MapGet(now, key) <==>
            && (RewrittenSinceRotation(u.dir, key) ==> u.dir.flushing.value[key] == u.dir.log[key])
            && ReadersTell(missing, u, now, key))
      && (View(Open(Complete(u.dir, u.dir.log + extra)), key) == MapGet(now, key) <==>
            if key in extra then TableAnswer(Some(extra[key])) == MapGet(now, key) else ReadersTell(missing, u, now, key))
  {
    hide DirInv, Inv, LogsMatch, Shows, View, Open, Exec, ScanAll, PlainAfter, LackAfter, ReopenedView, RewrittenSinceRotation,
      ReadersTell, FilesTell;
    RunFromOpened(keepMerged, s, plain, events);
    var c, l, now := Exec(keepMerged, Completed(s), events).value, LackAfter(Lost(s), events), PlainAfter(plain, events);
    DirInvLogs(c);
    DirInvInv(c);
    FilesTellIff(c, l, now, key);
    ReopenWithoutIff(c, l, now, key);
    ReadBackIff(c, l, now, extra, key);
  }

  /** The same for the source's removal of merged files, where each compaction had neighbours as
      its inputs. */
  lemma TornThenLiteralCrash(s: State, plain: Table, events: seq<Event>, extra: Table, key: Bytes)
    requires JustOpened(s) && Shows(s.mem, plain) && Exec(false, s, events).Some? && ContiguousPicks(events)
    ensures var u, now, missing := Exec(false, s, events).value, PlainAfter(plain, events), Missing(s, events);
      && (ReopenedView(u.dir, key) == MapGet(now, key) <==>
            && (RewrittenSinceRotation(u.dir, key) ==> u.dir.flushing.value[key] == u.dir.log[key])
            && FilesTell(missing, u, now, key))
      && (View(Open(Complete(u.dir, u.dir.log + extra)), key) == MapGet(now, key) <==>
            if key in extra then TableAnswer(Some(extra[key])) == MapGet(now, key) else FilesTell(missing, u, now, key))
  {
    hide DirInv, Inv, LogsMatch, Shows, View, Open, Exec, ScanAll, PlainAfter, LackAfter, ReopenedView, RewrittenSinceRotation,
      FilesTell;
    RunFromOpened(false, s, plain, events);
    var c, l, now := Exec(false, Completed(s), events).value, LackAfter(Lost(s), events), PlainAfter(plain, events);
    ReopenWithoutIff(c, l, now, key);
    ReadBackIff(c, l, now, extra, key);
  }
}
