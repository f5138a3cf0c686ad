/** Where the engine's behaviour and its intent part ways, and the exact conditions under
    which they agree; and a bound on the number of compactions. */
module Limits {
  import opened ByteStrings
  import opened Entries
  import opened Store
  import opened Machine
  import opened Recovery

  // ---------- neighbours are exactly what a splice needs ----------

  function UnionOf(runs: seq<Run>, picked: seq<nat>): Run
    requires forall i :: 0 <= i < |picked| ==> picked[i] < |runs|
  {
    Run(0, UnionRuns(Picks(runs, picked)))
  }

  /** Splicing these positions changes no lookup, whatever n runs hold. */
  ghost predicate SpliceSafe(n: nat, picked: seq<nat>)
    requires Increasing(picked, n)
  {
    forall runs: seq<Run>, key :: |runs| == n ==>
      LookupRuns(Splice(runs, picked, UnionOf(runs, picked)), key) == LookupRuns(runs, key)
  }

  /** One run is older than the last input, newer than the first, and not an input: it ends
      up above the merged run. */
  function GapRuns(n: nat, gap: nat, last: nat, key: Bytes): (runs: seq<Run>)
    ensures |runs| == n
  {
    seq(n, i => Run(i, if i == gap then map[key := [0]] else if i == last then map[key := [1]] else map[]))
  }

  lemma {:induction false} GapLookup(n: nat, gap: nat, last: nat, key: Bytes, j: nat)
    requires gap < last < n && j <= n
    ensures LookupRuns(GapRuns(n, gap, last, key)[..j], key) ==
      if j <= gap then None else if j <= last then Some([0]) else Some([1])
  {
    if j > 0 {
      GapLookup(n, gap, last, key, j - 1);
      assert GapRuns(n, gap, last, key)[..j][..j - 1] == GapRuns(n, gap, last, key)[..j - 1];
    }
  }

  lemma {:induction false} GapSplice(n: nat, picked: seq<nat>, gap: nat, merged: Run, key: Bytes, j: nat)
    requires Increasing(picked, n) && picked != [] && gap !in picked
    requires picked[0] < gap < picked[|picked| - 1] && j <= n && merged.table == map[key := [1]]
    ensures LookupRuns(Splice(GapRuns(n, gap, picked[|picked| - 1], key)[..j], picked, merged), key) ==
      if j <= picked[0] then None else if j <= gap then Some([1]) else Some([0])
  {
    hide Splice, LookupRuns;
    var last := picked[|picked| - 1];
    var runs := GapRuns(n, gap, last, key);
    if j == 0 {
      SpliceStep(runs, picked, merged, 0);
      LookupAppend([], merged, key);
    } else {
      var m := j - 1;
      SpliceStep(runs, picked, merged, m);
      GapSplice(n, picked, gap, merged, key, m);
      var pre := Splice(runs[..m], picked, merged);
      LookupAppend(pre, runs[m], key);
      LookupAppend(pre, merged, key);
      assert m == picked[0] ==> m in picked;
      assert m > picked[0] ==> exists i :: 0 <= i < |picked| && picked[i] < m;
      assert m < picked[0] ==> m !in picked;
      assert last in picked;
    }
  }

  lemma {:induction false} GapUnion(n: nat, picked: seq<nat>, gap: nat, key: Bytes, j: nat)
    requires Increasing(picked, n) && picked != [] && gap !in picked && j <= |picked|
    ensures UnionRuns(Picks(GapRuns(n, gap, picked[|picked| - 1], key), picked)[..j]) ==
      if j == |picked| then map[key := [1]] else map[]
  {
    var group := Picks(GapRuns(n, gap, picked[|picked| - 1], key), picked);
    if j > 0 {
      assert group[..j][..j - 1] == group[..j - 1];
      GapUnion(n, picked, gap, key, j - 1);
      assert j < |picked| ==> picked[j - 1] < picked[|picked| - 1];
    }
  }

  /** A compaction changes no lookup for any contents exactly when its inputs are neighbours. */
  lemma SpliceSafeIffContiguous(n: nat, picked: seq<nat>)
    requires Increasing(picked, n) && picked != []
    ensures SpliceSafe(n, picked) <==> Contiguous(picked)
  {
    if Contiguous(picked) {
      forall runs: seq<Run>, key | |runs| == n
        ensures LookupRuns(Splice(runs, picked, UnionOf(runs, picked)), key) == LookupRuns(runs, key)
      {
        SpliceKeepsLookups(runs, picked, UnionOf(runs, picked), key);
      }
    } else {
      var gap := FirstGap(picked, n);
      var last := picked[|picked| - 1];
      var key: Bytes := [];
      var runs := GapRuns(n, gap, last, key);
      assert Picks(runs, picked)[..|picked|] == Picks(runs, picked);
      GapUnion(n, picked, gap, key, |picked|);
      GapLookup(n, gap, last, key, n);
      GapSplice(n, picked, gap, UnionOf(runs, picked), key, n);
      assert runs[..n] == runs;
      assert LookupRuns(Splice(runs, picked, UnionOf(runs, picked)), key) != LookupRuns(runs, key);
    }
  }

  lemma {:induction false} FirstGap(picked: seq<nat>, n: nat) returns (gap: nat)
    requires Increasing(picked, n) && !Contiguous(picked)
    ensures picked[0] < gap < picked[|picked| - 1] && gap !in picked
  {
    var i :| 0 <= i < |picked| && picked[i] != picked[0] + i;
    var k := 0;
    while k + 1 < |picked| && picked[k + 1] == picked[0] + k + 1
      invariant 0 <= k < |picked| && forall j :: 0 <= j <= k ==> picked[j] == picked[0] + j
    {
      k := k + 1;
    }
    gap := picked[0] + k + 1;
    assert k + 1 < |picked|;
    assert picked[k] < picked[k + 1] <= picked[|picked| - 1];
    forall j | 0 <= j < |picked| ensures picked[j] != gap {
      if j > k {
        assert picked[k + 1] <= picked[j];
      }
    }
  }

  // ---------- which keys a splice gets wrong ----------

  /** The newest of the first n runs that has the key, among the inputs or among the others. */
  function NewestOf(runs: seq<Run>, picked: seq<nat>, key: Bytes, input: bool, n: nat): (i: Option<nat>)
    requires n <= |runs|
    ensures i.Some? ==> i.value < n && key in runs[i.value].table && (i.value in picked <==> input)
  {
    if n == 0 then None
    else if key in runs[n - 1].table && (n - 1 in picked <==> input) then Some(n - 1)
    else NewestOf(runs, picked, key, input, n - 1)
  }

  function ValueAt(runs: seq<Run>, i: Option<nat>, key: Bytes): Option<Bytes>
    requires i.Some? ==> i.value < |runs| && key in runs[i.value].table
  {
    match i
    case Some(n) => Some(runs[n].table[key])
    case None => None
  }

  lemma {:induction false} NewestOfIs(runs: seq<Run>, picked: seq<nat>, key: Bytes, input: bool, n: nat, i: nat)
    requires i < n <= |runs| && key in runs[i].table && (i in picked <==> input)
    requires forall j :: i < j < n && (j in picked <==> input) ==> key !in runs[j].table
    ensures NewestOf(runs, picked, key, input, n) == Some(i)
  {
    if i < n - 1 {
      NewestOfIs(runs, picked, key, input, n - 1, i);
    }
  }

  lemma {:induction false} NewestOfNone(runs: seq<Run>, picked: seq<nat>, key: Bytes, input: bool, n: nat)
    requires n <= |runs| && forall j :: 0 <= j < n && (j in picked <==> input) ==> key !in runs[j].table
    ensures NewestOf(runs, picked, key, input, n) == None
  {
    if n > 0 {
      NewestOfNone(runs, picked, key, input, n - 1);
    }
  }

  /** A lookup takes the newer of the two. */
  lemma {:induction false} LookupOfEither(runs: seq<Run>, picked: seq<nat>, key: Bytes, n: nat)
    requires n <= |runs|
    ensures var p, g := NewestOf(runs, picked, key, true, n), NewestOf(runs, picked, key, false, n);
      LookupRuns(runs[..n], key) == ValueAt(runs, if p.None? || (g.Some? && g.value > p.value) then g else p, key)
  {
    if n > 0 {
      LookupOfEither(runs, picked, key, n - 1);
      assert runs[..n] == runs[..n - 1] + [runs[n - 1]];
      LookupAppend(runs[..n - 1], runs[n - 1], key);
    }
  }

  /** A lookup after the splice takes the merged run's value, unless another run behind the first
      input has the key. */
  lemma {:induction false} LookupOfSplice(runs: seq<Run>, picked: seq<nat>, merged: Run, key: Bytes, n: nat)
    requires Increasing(picked, |runs|) && picked != [] && n <= |runs|
    ensures var g := NewestOf(runs, picked, key, false, n);
      LookupRuns(Splice(runs[..n], picked, merged), key) ==
        if n > picked[0] && key in merged.table && (g.Some? ==> g.value < picked[0]) then Some(merged.table[key])
        else ValueAt(runs, g, key)
  {
    hide Splice, LookupRuns;
    if n == 0 {
      SpliceNothing(picked, merged);
      LookupAppend([], merged, key);
      assert runs[..0] == [];
    } else {
      var m := n - 1;
      LookupOfSplice(runs, picked, merged, key, m);
      SpliceStep(runs, picked, merged, m);
      var pre := Splice(runs[..m], picked, merged);
      LookupAppend(pre, runs[m], key);
      LookupAppend(pre, merged, key);
      assert picked[0] in picked;
      assert m in picked && m != picked[0] ==> picked[0] < m;
    }
  }

  lemma SpliceNothing(picked: seq<nat>, merged: Run)
    ensures Splice([], picked, merged) == []
  {
  }

  /** The merged run has the value of the newest input. */
  lemma LookupOfUnion(runs: seq<Run>, picked: seq<nat>, key: Bytes)
    requires Increasing(picked, |runs|)
    ensures MapGet(UnionOf(runs, picked).table, key) == ValueAt(runs, NewestOf(runs, picked, key, true, |runs|), key)
  {
    hide LookupRuns, UnionRuns, NewestOf;
    var group := Picks(runs, picked);
    LookupIsUnion(group, key);
    if LookupRuns(group, key).Some? {
      var i := FoundIn(group, key);
      forall j | picked[i] < j < |runs| && j in picked ensures key !in runs[j].table {
        var k :| 0 <= k < |picked| && picked[k] == j;
        assert k > i && key !in group[k].table;
      }
      NewestOfIs(runs, picked, key, true, |runs|, picked[i]);
    } else {
      NotFoundIn(group, key);
      forall j | 0 <= j < |runs| && j in picked ensures key !in runs[j].table {
        var k :| 0 <= k < |picked| && picked[k] == j;
        assert key !in group[k].table;
      }
      NewestOfNone(runs, picked, key, true, |runs|);
    }
  }

  lemma FirstIsLeast(picked: seq<nat>, n: nat, i: nat)
    requires Increasing(picked, n) && i in picked
    ensures picked[0] <= i
  {
    var k :| 0 <= k < |picked| && picked[k] == i;
    assert k > 0 ==> picked[0] < picked[k];
  }

  /** A compaction of given readers answers a key wrongly if and only if the newest other reader
      that has it lies behind the first input, the newest input that has it is newer still, and
      the two have different values. */
  lemma SpliceKeepsIff(runs: seq<Run>, picked: seq<nat>, key: Bytes)
    requires Increasing(picked, |runs|) && picked != []
    ensures var p, g := NewestOf(runs, picked, key, true, |runs|), NewestOf(runs, picked, key, false, |runs|);
      LookupRuns(Splice(runs, picked, UnionOf(runs, picked)), key) == LookupRuns(runs, key) <==>
        (p.Some? && g.Some? && picked[0] < g.value < p.value ==> runs[g.value].table[key] == runs[p.value].table[key])
  {
    hide Splice, LookupRuns, NewestOf, UnionOf;
    var merged, p := UnionOf(runs, picked), NewestOf(runs, picked, key, true, |runs|);
    assert runs[..|runs|] == runs;
    LookupOfEither(runs, picked, key, |runs|);
    LookupOfSplice(runs, picked, merged, key, |runs|);
    LookupOfUnion(runs, picked, key);
    if p.Some? {
      FirstIsLeast(picked, |runs|, p.value);
    }
  }

  // ---------- empty values ----------

  /** Publishing a flushed table changes the answer for exactly those keys whose newest value
      is an empty, non-nil slice in the memtable that was flushed. */
  lemma PublishKeepsIff(s: State, key: Bytes)
    requires Enabled(s, Publish)
    ensures Get(Next(true, s, Publish).mem, key) == Get(s.mem, key) <==>
      !(key !in s.mem.active && key in s.mem.immutable.value && s.mem.immutable.value[key] == Data([]))
  {
    var run := Run(s.flush.timestamp, Payloads(s.mem.immutable.value));
    assert (s.mem.runs + [run])[..|s.mem.runs|] == s.mem.runs;
  }

  // ---------- how many compactions there can be ----------

  function Swaps(events: seq<Event>): nat {
    if events == [] then 0 else Swaps(events[..|events| - 1]) + if events[|events| - 1].Swap? then 1 else 0
  }

  ghost predicate NoPublish(events: seq<Event>) {
    forall i :: 0 <= i < |events| ==> !events[i].Publish?
  }

  /** A compaction in progress will take four readers. */
  ghost predicate FourPicked(c: CompactPc) {
    (c.Selected? || c.MergedFile?) ==> |c.picked| == COMPACTION_THRESHOLD
  }

  /** Every compaction takes three readers off the list, so that without flushes n readers
      allow at most (n - 1) / 3 compactions, whatever is selected. */
  lemma {:induction false} CompactionsBounded(keepMerged: bool, s: State, events: seq<Event>)
    requires Exec(keepMerged, s, events).Some? && NoPublish(events) && FourPicked(s.compact)
    ensures FourPicked(Exec(keepMerged, s, events).value.compact)
    ensures |Exec(keepMerged, s, events).value.mem.runs| + 3 * Swaps(events) == |s.mem.runs|
    ensures Swaps(events) > 0 ==> 3 * Swaps(events) <= |s.mem.runs| - 1
  {
    if events != [] {
      var e := events[|events| - 1];
      CompactionsBounded(keepMerged, s, events[..|events| - 1]);
      var t := Exec(keepMerged, s, events[..|events| - 1]).value;
      if e.Swap? {
        SpliceLength(t.mem.runs, t.compact.picked, t.compact.merged);
        var p := t.compact.picked;
        assert p[0] < p[1] < p[2] < p[3] < |t.mem.runs|;
      }
    }
  }
}
