/** What every replica shows: only the writes it has applied count, not when it flushed and
    compacted, and applying writes again on top of themselves changes nothing. */
module Replicas {
  import opened ByteStrings
  import opened Entries
  import opened Store
  import opened Machine
  import opened Recovery
  import opened Lives
  import opened Removal

  datatype Write = Write(key: Bytes, value: Value)

  /** The writes among the events of a run. */
  function Writes(events: seq<Event>): seq<Write> {
    if events == [] then []
    else
      var pre := Writes(events[..|events| - 1]);
      match events[|events| - 1]
      case Put(key, value) => pre + [Write(key, value)]
      case Delete(key) => pre + [Write(key, Nil)]
      case _ => pre
  }

  /** The plain map after some writes. */
  function Overwritten(plain: Table, ws: seq<Write>): Table {
    if ws == [] then plain
    else Written(Overwritten(plain, ws[..|ws| - 1]), ws[|ws| - 1].key, ws[|ws| - 1].value)
  }

  lemma {:induction false} OverwrittenConcat(plain: Table, a: seq<Write>, b: seq<Write>)
    ensures Overwritten(plain, a + b) == Overwritten(Overwritten(plain, a), b)
  {
    if b == [] {
      assert a + b == a;
    } else {
      assert (a + b)[..|a + b| - 1] == a + b[..|b| - 1];
      OverwrittenConcat(plain, a, b[..|b| - 1]);
    }
  }

  lemma {:induction false} PlainIsOverwritten(plain: Table, events: seq<Event>)
    ensures PlainAfter(plain, events) == Overwritten(plain, Writes(events))
  {
    hide Written;
    if events != [] {
      PlainIsOverwritten(plain, events[..|events| - 1]);
      var pre := Writes(events[..|events| - 1]);
      match events[|events| - 1]
      case Put(key, value) => OverwrittenConcat(plain, pre, [Write(key, value)]);
      case Delete(key) => OverwrittenConcat(plain, pre, [Write(key, Nil)]);
      case _ =>
    }
  }

  /** The last value written for a key, if any. */
  function LastWriteOf(ws: seq<Write>, key: Bytes): Option<Value> {
    if ws == [] then None
    else if ws[|ws| - 1].key == key then Some(ws[|ws| - 1].value)
    else LastWriteOf(ws[..|ws| - 1], key)
  }

  ghost predicate NeverWritten(ws: seq<Write>, key: Bytes) {
    forall i :: 0 <= i < |ws| ==> ws[i].key != key
  }

  lemma {:induction false} NeverWrittenIff(ws: seq<Write>, key: Bytes)
    ensures NeverWritten(ws, key) <==> LastWriteOf(ws, key).None?
  {
    if ws != [] {
      NeverWrittenIff(ws[..|ws| - 1], key);
    }
  }

  /** The last write of a key decides; without one the key is as it was before. */
  lemma {:induction false} OverwrittenAt(plain: Table, ws: seq<Write>, key: Bytes)
    ensures MapGet(Overwritten(plain, ws), key) == match LastWriteOf(ws, key)
      case Some(v) => TableAnswer(Some(Payload(v)))
      case None => MapGet(plain, key)
  {
    if ws != [] {
      OverwrittenAt(plain, ws[..|ws| - 1], key);
    }
  }

  /** Writes wipe out any difference in the keys that they write. */
  lemma WritesHeal(a: Table, b: Table, ws: seq<Write>)
    requires forall key :: NeverWritten(ws, key) ==> MapGet(a, key) == MapGet(b, key)
    ensures Overwritten(a, ws) == Overwritten(b, ws)
  {
    hide Overwritten;
    forall key ensures MapGet(Overwritten(a, ws), key) == MapGet(Overwritten(b, ws), key) {
      OverwrittenAt(a, ws, key);
      OverwrittenAt(b, ws, key);
      NeverWrittenIff(ws, key);
    }
    SameMap(Overwritten(a, ws), Overwritten(b, ws));
  }

  /** Applying all writes to a store that has some prefix of them already ends where applying
      them once does. */
  lemma ReplayConverges(plain: Table, ws: seq<Write>, k: nat)
    requires k <= |ws|
    ensures Overwritten(Overwritten(plain, ws[..k]), ws) == Overwritten(plain, ws)
  {
    hide Overwritten;
    forall key | NeverWritten(ws, key) ensures MapGet(Overwritten(plain, ws[..k]), key) == MapGet(plain, key) {
      OverwrittenAt(plain, ws[..k], key);
      NeverWrittenIff(ws[..k], key);
    }
    WritesHeal(Overwritten(plain, ws[..k]), plain, ws);
  }

  // ---------- replicas that have not crashed ----------

  /** A run from an empty store that is possible, with nil or non-empty values, and that
      removes no merged file. */
  ghost predicate Runs(keepMerged: bool, events: seq<Event>) {
    Exec(keepMerged, Init(), events).Some? && CleanEvents(events) && Spared(keepMerged, Init(), events)
  }

  /** The layered search and the full scan after a run. */
  ghost predicate Views(keepMerged: bool, events: seq<Event>, plain: Table)
    requires Runs(keepMerged, events)
  {
    var s := Exec(keepMerged, Init(), events).value;
    (forall key :: Get(s.mem, key) == MapGet(plain, key)) && ScanAll(s.mem, s.dir.tables) == plain
  }

  lemma RunViews(keepMerged: bool, events: seq<Event>)
    requires Runs(keepMerged, events)
    ensures Views(keepMerged, events, Overwritten(map[], Writes(events)))
  {
    hide Exec, ScanAll, DirInv, Get, View, CleanMemory, Init;
    InitDir();
    InitInv();
    RunIsSafe(keepMerged, Init(), map[], events);
    CleanRun(keepMerged, Init(), events);
    PlainIsOverwritten(map[], events);
    var s := Exec(keepMerged, Init(), events).value;
    forall key ensures Get(s.mem, key) == MapGet(PlainAfter(map[], events), key) {
      CleanGet(s.mem, key);
      assert View(s.mem, key) == MapGet(PlainAfter(map[], events), key);
    }
  }

  /** Replicas that have applied the same writes show the same, whenever each of them
      flushed, selected, merged, swapped and removed. */
  lemma ReplicasAgree(keepA: bool, a: seq<Event>, keepB: bool, b: seq<Event>)
    requires Runs(keepA, a) && Runs(keepB, b) && Writes(a) == Writes(b)
    ensures var s, t := Exec(keepA, Init(), a).value, Exec(keepB, Init(), b).value;
      (forall key :: Get(s.mem, key) == Get(t.mem, key)) && ScanAll(s.mem, s.dir.tables) == ScanAll(t.mem, t.dir.tables)
  {
    hide Exec, ScanAll, Get, Spared;
    RunViews(keepA, a);
    RunViews(keepB, b);
  }

  /** A replica that applies a prefix of the log, and then the whole log, shows what one that
      applied the log once shows. */
  lemma ReplayedReplicaAgrees(keepA: bool, a: seq<Event>, keepB: bool, b: seq<Event>, k: nat)
    requires Runs(keepA, a) && Runs(keepB, b) && k <= |Writes(b)| && Writes(a) == Writes(b)[..k] + Writes(b)
    ensures Views(keepA, a, Overwritten(map[], Writes(b))) && Views(keepB, b, Overwritten(map[], Writes(b)))
  {
    hide Exec, Views, Spared;
    RunViews(keepA, a);
    RunViews(keepB, b);
    OverwrittenConcat(map[], Writes(b)[..k], Writes(b));
    ReplayConverges(map[], Writes(b), k);
  }

  /** After any run with the source's removal, also one that has removed merged files, Get
      depends on the writes alone as long as each compaction had neighbours as its inputs. */
  lemma GetsAgree(keepA: bool, a: seq<Event>, keepB: bool, b: seq<Event>, key: Bytes)
    requires Exec(keepA, Init(), a).Some? && CleanEvents(a) && ContiguousPicks(a)
    requires Exec(keepB, Init(), b).Some? && CleanEvents(b) && ContiguousPicks(b)
    requires Writes(a) == Writes(b)
    ensures Get(Exec(keepA, Init(), a).value.mem, key) == Get(Exec(keepB, Init(), b).value.mem, key)
  {
    hide Exec, Get;
    LayeredGetIsPlainMap(keepA, a, key);
    LayeredGetIsPlainMap(keepB, b, key);
    PlainIsOverwritten(map[], a);
    PlainIsOverwritten(map[], b);
  }

  // ---------- replicas that have crashed ----------

  /** Every key that the events write is one of the keys. */
  ghost predicate WritesIn(events: seq<Event>, keys: set<Bytes>) {
    forall i :: 0 <= i < |events| ==>
      (events[i].Put? ==> events[i].key in keys) && (events[i].Delete? ==> events[i].key in keys)
  }

  ghost predicate LogsIn(d: Directory, keys: set<Bytes>) {
    d.log.Keys <= keys && (d.flushing.Some? ==> d.flushing.value.Keys <= keys)
  }

  lemma StepKeys(keepMerged: bool, s: State, plain: Table, e: Event, keys: set<Bytes>)
    requires LogsIn(s.dir, keys) && plain.Keys <= keys && Enabled(s, e) && WritesIn([e], keys)
    ensures LogsIn(Next(keepMerged, s, e).dir, keys) && PlainStep(plain, e).Keys <= keys
  {
    hide Splice, MergedRun, UnionRuns;
    assert [e][0] == e;
  }

  lemma {:induction false} RunKeys(keepMerged: bool, s: State, plain: Table, events: seq<Event>, keys: set<Bytes>)
    requires LogsIn(s.dir, keys) && plain.Keys <= keys && WritesIn(events, keys) && Exec(keepMerged, s, events).Some?
    ensures LogsIn(Exec(keepMerged, s, events).value.dir, keys) && PlainAfter(plain, events).Keys <= keys
  {
    hide Next, Enabled, PlainStep;
    if events != [] {
      var n := |events| - 1;
      RunKeys(keepMerged, s, plain, events[..n], keys);
      StepKeys(keepMerged, Exec(keepMerged, s, events[..n]).value, PlainAfter(plain, events[..n]), events[n], keys);
    }
  }

  /** However often it crashed, a replica holds no keys but those it was told to write. */
  lemma {:induction false} LifeKeys(keepMerged: bool, s: State, plain: Table, runs: seq<seq<Event>>, keys: set<Bytes>)
    requires LogsIn(s.dir, keys) && plain.Keys <= keys && Life(keepMerged, s, plain, runs).Some?
    requires forall i :: 0 <= i < |runs| ==> WritesIn(runs[i], keys)
    ensures var (t, p) := Life(keepMerged, s, plain, runs).value; LogsIn(t.dir, keys) && p.Keys <= keys
  {
    hide Exec, PlainAfter, WritesIn;
    if runs != [] {
      var n := |runs| - 1;
      LifeKeys(keepMerged, s, plain, runs[..n], keys);
      var (t, p) := Life(keepMerged, s, plain, runs[..n]).value;
      RunKeys(keepMerged, t, p, runs[n], keys);
    }
  }

  /** A replica that has crashed at any points while it applied entries of a log, and is then
      given the whole log again, shows exactly what the log means; also where a crash had
      brought older values back. */
  lemma CrashedReplicaHeals(keepMerged: bool, runs: seq<seq<Event>>, events: seq<Event>, keys: set<Bytes>)
    requires Life(keepMerged, Init(), map[], runs).Some? && AllSpared(keepMerged, runs)
    requires Exec(keepMerged, Life(keepMerged, Init(), map[], runs).value.0, events).Some?
    requires keepMerged || Removes(events) < COMPACTION_THRESHOLD
    requires forall i :: 0 <= i < |runs| ==> WritesIn(runs[i], keys)
    requires forall key :: key in keys ==> !NeverWritten(Writes(events), key)
    ensures var s := Exec(keepMerged, Life(keepMerged, Init(), map[], runs).value.0, events).value;
      ScanAll(s.mem, s.dir.tables) == Overwritten(map[], Writes(events))
  {
    hide Exec, Life, AllSpared, Writes, NeverWritten, WritesIn, Overwritten, ScanAll, DirInv, Shows, Init;
    InitDir();
    InitLogs(keys);
    EveryLifeIsSafe(keepMerged, Init(), map[], runs);
    LifeKeys(keepMerged, Init(), map[], runs, keys);
    var (t, p) := Life(keepMerged, Init(), map[], runs).value;
    RunIsSafe(keepMerged, t, p, events);
    PlainIsOverwritten(p, events);
    WritesHeal(p, map[], Writes(events));
  }

  lemma InitLogs(keys: set<Bytes>)
    ensures LogsIn(Init().dir, keys) && Init().compact.CompactIdle?
  {
  }
}
