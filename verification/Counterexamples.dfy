/** Concrete runs and files on which the source does not do what it is meant to do. */
module Counterexamples {
  import opened ByteStrings
  import opened Entries
  import opened Store
  import opened Machine
  import opened Recovery

  /** Nothing is in progress and nothing is in memory. */
  function Quiet(tables: map<int, Table>, runs: seq<Run>, clock: int): State {
    State(Memory(map[], None, runs), Directory(tables, map[], None), FlushIdle, CompactIdle, clock)
  }

  function FlushOf(key: Bytes, val: Bytes, t: int): seq<Event> {
    [Put(key, Data(val)), Rotate, Build(t), Publish, DropLog]
  }

  /** One write and one flush. */
  lemma FlushCycle(keepMerged: bool, events: seq<Event>, tables: map<int, Table>, runs: seq<Run>, t: int, key: Bytes, val: Bytes)
    requires Exec(keepMerged, Init(), events) == Some(Quiet(tables, runs, t))
    ensures Exec(keepMerged, Init(), events + FlushOf(key, val, t)) ==
      Some(Quiet(tables[t := map[key := val]], runs + [Run(t, map[key := val])], t + 1))
  {
    hide Exec;
    var s0 := Quiet(tables, runs, t);
    var e1, e2, e3, e4, e5 := Put(key, Data(val)), Rotate, Build(t), Publish, DropLog;
    ExecOne(keepMerged, Init(), events, s0, e1);
    var s1 := Next(keepMerged, s0, e1);
    assert s1.mem.active == map[key := Data(val)] && key in s1.mem.active;
    ExecOne(keepMerged, Init(), events + [e1], s1, e2);
    var s2 := Next(keepMerged, s1, e2);
    ExecOne(keepMerged, Init(), events + [e1] + [e2], s2, e3);
    var s3 := Next(keepMerged, s2, e3);
    assert Payloads(map[key := Data(val)]) == map[key := val];
    ExecOne(keepMerged, Init(), events + [e1] + [e2] + [e3], s3, e4);
    var s4 := Next(keepMerged, s3, e4);
    ExecOne(keepMerged, Init(), events + [e1] + [e2] + [e3] + [e4], s4, e5);
    assert events + FlushOf(key, val, t) == events + [e1] + [e2] + [e3] + [e4] + [e5];
  }

  const K: Bytes := [107]

  /** Four flushes of one key, values 0 to 3. */
  function FourFlushes(): seq<Event> {
    [] + FlushOf(K, [0], 0) + FlushOf(K, [1], 1) + FlushOf(K, [2], 2) + FlushOf(K, [3], 3)
  }

  function FourTables(): map<int, Table> {
    map[0 := map[K := [0]], 1 := map[K := [1]], 2 := map[K := [2]], 3 := map[K := [3]]]
  }

  function FourRuns(): seq<Run> {
    [Run(0, map[K := [0]]), Run(1, map[K := [1]]), Run(2, map[K := [2]]), Run(3, map[K := [3]])]
  }

  lemma AfterFourFlushes(keepMerged: bool)
    ensures Exec(keepMerged, Init(), FourFlushes()) == Some(Quiet(FourTables(), FourRuns(), 4))
  {
    hide Exec;
    assert Exec(keepMerged, Init(), []) == Some(Init()) by { ExecNone(keepMerged); }
    var t0: map<int, Table>, r0: seq<Run> := map[], [];
    FlushCycle(keepMerged, [], t0, r0, 0, K, [0]);
    var t1, r1 := t0[0 := map[K := [0]]], r0 + [Run(0, map[K := [0]])];
    FlushCycle(keepMerged, [] + FlushOf(K, [0], 0), t1, r1, 1, K, [1]);
    var t2, r2 := t1[1 := map[K := [1]]], r1 + [Run(1, map[K := [1]])];
    FlushCycle(keepMerged, [] + FlushOf(K, [0], 0) + FlushOf(K, [1], 1), t2, r2, 2, K, [2]);
    var t3, r3 := t2[2 := map[K := [2]]], r2 + [Run(2, map[K := [2]])];
    FlushCycle(keepMerged, [] + FlushOf(K, [0], 0) + FlushOf(K, [1], 1) + FlushOf(K, [2], 2), t3, r3, 3, K, [3]);
    assert t3[3 := map[K := [3]]] == FourTables();
    assert r3 + [Run(3, map[K := [3]])] == FourRuns();
  }

  lemma ExecNone(keepMerged: bool)
    ensures Exec(keepMerged, Init(), []) == Some(Init())
  {
  }

  const PICKED: seq<nat> := [0, 1, 2, 3]
  const MERGED: Run := Run(3, map[K := [3]])

  lemma PicksAllFour()
    ensures Picks(FourRuns(), PICKED) == FourRuns() && Timestamps(FourRuns()) == [0, 1, 2, 3]
  {
  }

  lemma MergedOfFour()
    ensures MergedRun(FourRuns(), PICKED, FourTables()) == MERGED
    ensures Splice(FourRuns(), PICKED, MERGED) == [MERGED]
    ensures Timestamps(Picks(FourRuns(), PICKED)) == [0, 1, 2, 3]
  {
    hide UnionRuns, Splice, PresentRuns, Picks, Timestamps;
    var runs := FourRuns();
    PicksAllFour();
    PresentAre(runs, FourTables());
    UnionOfFour();
    SpliceContiguous(runs, PICKED, MERGED);
    assert runs[..0] + [MERGED] + runs[4..] == [MERGED];
  }

  lemma UnionAppend(runs: seq<Run>, run: Run)
    ensures UnionRuns(runs + [run]) == UnionRuns(runs) + run.table
    ensures UnionRuns([]) == map[]
  {
    assert (runs + [run])[..|runs|] == runs;
  }

  lemma UnionOfFour()
    ensures UnionRuns(FourRuns()) == map[K := [3]]
  {
    hide UnionRuns;
    var a, b, c, d := Run(0, map[K := [0]]), Run(1, map[K := [1]]), Run(2, map[K := [2]]), Run(3, map[K := [3]]);
    assert FourRuns() == [] + [a] + [b] + [c] + [d];
    UnionAppend([], a);
    UnionAppend([] + [a], b);
    UnionAppend([] + [a] + [b], c);
    UnionAppend([] + [a] + [b] + [c], d);
  }

  function Compacting(tables: map<int, Table>, next: nat): State {
    State(Memory(map[], None, [MERGED]), Directory(tables, map[], None), FlushIdle, Removing([0, 1, 2, 3], MERGED, next), 4)
  }

  /** Selection, merge and swap of the four tables. */
  function UpToSwap(): seq<Event> {
    FourFlushes() + [Select(PICKED)] + [Merge] + [Swap]
  }

  lemma AfterSwap(keepMerged: bool)
    ensures Exec(keepMerged, Init(), UpToSwap()) == Some(Compacting(FourTables(), 0))
  {
    hide Exec, UnionRuns, Splice, MergedRun, FourFlushes;
    AfterFourFlushes(keepMerged);
    MergedOfFour();
    var s0 := Quiet(FourTables(), FourRuns(), 4);
    assert MaySelect(s0, PICKED);
    ExecOne(keepMerged, Init(), FourFlushes(), s0, Select(PICKED));
    var s1 := Next(keepMerged, s0, Select(PICKED));
    assert s1 == s0.(compact := Selected(PICKED));
    ExecOne(keepMerged, Init(), FourFlushes() + [Select(PICKED)], s1, Merge);
    var s2 := Next(keepMerged, s1, Merge);
    assert FourTables()[3 := map[K := [3]]] == FourTables();
    assert s2 == s0.(compact := MergedFile(PICKED, MERGED));
    ExecOne(keepMerged, Init(), FourFlushes() + [Select(PICKED)] + [Merge], s2, Swap);
    assert Next(keepMerged, s2, Swap) == Compacting(FourTables(), 0);
  }

  /** One compaction as the source runs it, from writes to the last removal. */
  function WholeCompaction(): seq<Event> {
    UpToSwap() + [Remove] + [Remove] + [Remove] + [Remove]
  }

  /** The run is possible with clean writes, no crash and no failure. After it the open reader
      still answers, but the file is gone: the full scan, and with it every snapshot, is
      empty, and so is the store when it is opened again. */
  lemma CompactionRemovesItsOutput()
    ensures Exec(false, Init(), WholeCompaction()).Some? && CleanEvents(WholeCompaction())
    ensures var s := Exec(false, Init(), WholeCompaction()).value;
      && PlainAfter(map[], WholeCompaction()) == map[K := [3]] && Get(s.mem, K) == Some([3])
      && s.dir.tables == map[]
      && ScanAll(s.mem, s.dir.tables) == map[]
      && ReopenedView(s.dir, K) == None
  {
    hide UpToSwap, PlainAfter, Get, ScanAll, ReopenedView;
    AfterSwap(false);
    var t0 := FourTables();
    var t1 := t0 - {0};
    var t2 := t1 - {1};
    var t3 := t2 - {2};
    assert t3 - {3} == map[];
    RemoveOnce(UpToSwap(), t0, 0);
    RemoveOnce(UpToSwap() + [Remove], t1, 1);
    RemoveOnce(UpToSwap() + [Remove] + [Remove], t2, 2);
    RemoveOnce(UpToSwap() + [Remove] + [Remove] + [Remove], t3, 3);
    EmptyDirectory();
    Writes();
  }

  lemma RemoveOnce(events: seq<Event>, tables: map<int, Table>, n: nat)
    requires n < 4 && Exec(false, Init(), events) == Some(Compacting(tables, n))
    ensures Exec(false, Init(), events + [Remove]) ==
      Some(if n == 3 then Compacting(tables - {n}, n).(compact := CompactIdle) else Compacting(tables - {n}, n + 1))
  {
    hide Exec;
    ExecOne(false, Init(), events, Compacting(tables, n), Remove);
  }

  lemma EmptyDirectory()
    ensures var s := Compacting(map[], 3).(compact := CompactIdle);
      && Get(s.mem, K) == Some([3]) && ScanAll(s.mem, s.dir.tables) == map[] && ReopenedView(s.dir, K) == None
  {
    LookupOne(MERGED, K);
    assert [MERGED][..0] == [];
    assert PresentRuns([MERGED], map[]) == [];
  }

  lemma PlainAppend(events: seq<Event>, e: Event)
    ensures PlainAfter(map[], events + [e]) == PlainStep(PlainAfter(map[], events), e)
  {
    assert (events + [e])[..|events|] == events;
  }

  lemma PlainFlush(events: seq<Event>, val: Bytes, t: int)
    requires val != []
    ensures PlainAfter(map[], events + FlushOf(K, val, t)) == PlainAfter(map[], events)[K := val]
  {
    hide PlainAfter;
    var e := Put(K, Data(val));
    PlainAppend(events, e);
    PlainAppend(events + [e], Rotate);
    PlainAppend(events + [e] + [Rotate], Build(t));
    PlainAppend(events + [e] + [Rotate] + [Build(t)], Publish);
    PlainAppend(events + [e] + [Rotate] + [Build(t)] + [Publish], DropLog);
    assert events + FlushOf(K, val, t) == events + [e] + [Rotate] + [Build(t)] + [Publish] + [DropLog];
  }

  lemma Writes()
    ensures PlainAfter(map[], WholeCompaction()) == map[K := [3]]
    ensures CleanEvents(WholeCompaction())
  {
    hide PlainAfter;
    assert PlainAfter(map[], []) == map[] by { NoWrites(); }
    PlainFlush([], [0], 0);
    PlainFlush([] + FlushOf(K, [0], 0), [1], 1);
    PlainFlush([] + FlushOf(K, [0], 0) + FlushOf(K, [1], 1), [2], 2);
    PlainFlush([] + FlushOf(K, [0], 0) + FlushOf(K, [1], 1) + FlushOf(K, [2], 2), [3], 3);
    PlainAppend(FourFlushes(), Select(PICKED));
    PlainAppend(FourFlushes() + [Select(PICKED)], Merge);
    PlainAppend(FourFlushes() + [Select(PICKED)] + [Merge], Swap);
    PlainAppend(UpToSwap(), Remove);
    PlainAppend(UpToSwap() + [Remove], Remove);
    PlainAppend(UpToSwap() + [Remove] + [Remove], Remove);
    PlainAppend(UpToSwap() + [Remove] + [Remove] + [Remove], Remove);
    assert PlainAfter(map[], FourFlushes()) == map[K := [3]];
  }

  lemma NoWrites()
    ensures PlainAfter(map[], []) == map[]
  {
  }
}
