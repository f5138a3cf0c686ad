/** The loops of the full scan. */
module Scanning {
  import opened ByteStrings
  import opened Disk
  import opened Entries
  import opened SsTable
  import opened Tables
  import opened Store
  import opened EngineState
  import SkipLists

  lemma Start(state: Table)
    ensures state + ToMap<Bytes>([]) == state
  {
  }

  /** One entry copied. */
  lemma OneCopied(state: Table, all: seq<Entry<Bytes>>, done: seq<Entry<Bytes>>, rest: seq<Entry<Bytes>>)
    requires all == done + rest && rest != []
    ensures all == (done + [rest[0]]) + rest[1..]
    ensures state + ToMap(done + [rest[0]]) == (state + ToMap(done))[rest[0].key := rest[0].val]
  {
    assert (done + [rest[0]])[..|done|] == done;
  }

  /** Copies the entries of a table over what has been collected. */
  method CopyTable(iter: TableIterator, older: Table) returns (state: Table)
    modifies iter
    ensures state == older + ToMap(old(iter.Rest()))
  {
    hide ToMap, TableIterator.Rest, TableIterator.Stop;
    Start(older);
    state := older;
    ghost var all, done := iter.Rest(), [];
    var more := iter.Next();
    ghost var rest := all;
    while more
      invariant all == done + rest && more == (rest != [])
      invariant more ==> Entry(iter.key, iter.val) == rest[0] && iter.Rest() == rest[1..]
      invariant state == older + ToMap(done)
      decreases |rest|
    {
      OneCopied(older, all, done, rest);
      state := state[iter.key := iter.val];
      done, rest := done + [rest[0]], rest[1..];
      more := iter.Next();
    }
    assert done == all;
  }

  lemma OneMorePayload(es: seq<Entry<Value>>, n: nat)
    requires n < |es|
    ensures ToMap(PayloadRun(es[..n + 1])) == ToMap(PayloadRun(es[..n]))[es[n].key := Payload(es[n].val)]
  {
    assert es[..n + 1][..n] == es[..n];
    assert PayloadRun(es[..n + 1])[..n] == PayloadRun(es[..n]);
  }

  lemma AllPayloads(es: seq<Entry<Value>>)
    ensures ToMap(PayloadRun(es[..0])) == map[]
    ensures ToMap(PayloadRun(es[..|es|])) == Payloads(ToMap(es))
  {
    assert es[..|es|] == es;
    PayloadRunMap(es);
  }

  /** Copies the entries of a memtable over what has been collected. */
  method CopyMemtable(list: SkipLists.SkipList, older: Table) returns (state: Table)
    requires list.Valid()
    ensures state == older + Payloads(list.Contents)
  {
    hide ToMap, PayloadRun, Payloads, SkipLists.SkipList.Valid, SkipLists.SkipList.Entries, SkipLists.Iterator.Valid,
      SkipLists.Above;
    ghost var es, n := list.Entries(), 0;
    list.ContentsAreEntries();
    AllPayloads(es);
    state := older;
    var iter := new SkipLists.Iterator(list);
    var more := iter.Next();
    while more
      invariant fresh(iter) && iter.Valid() && iter.list == list && list.Valid() && list.Entries() == es
      invariant n <= |es| && iter.pos == if more then n + 1 else n
      invariant if more then n < |es| && es[n] == Entry(iter.current.key, iter.current.value) else n == |es|
      invariant state == older + ToMap(PayloadRun(es[..n]))
      decreases |es| - n, more
    {
      OneMorePayload(es, n);
      state := state[iter.current.key := Payload(iter.current.value)];
      n := n + 1;
      more := iter.Next();
    }
  }

  lemma OneMoreLive(state: Table, rest: Table, k: Bytes)
    requires k in rest && Unvisited(rest, state)
    ensures k in state && state[k] == rest[k] && Unvisited(rest - {k}, state) && |rest - {k}| < |rest|
    ensures Live(Visited(state, rest - {k})) ==
      if rest[k] != [] then Live(Visited(state, rest))[k := rest[k]] else Live(Visited(state, rest))
  {
    hide Unvisited, Visited;
    OneMoreKey(state, rest, k);
    NotVisited(state, rest, k);
  }

  lemma NotVisited(state: Table, rest: Table, k: Bytes)
    requires k in rest
    ensures k !in Visited(state, rest)
  {
  }

  /** Drops the keys whose value is empty, in any order. */
  method DropTombstones(state: Table) returns (live: Table)
    ensures live == Live(state)
  {
    hide Unvisited, Visited, Live;
    AllVisited(state);
    live := map[];
    var rest := state;
    while rest != map[]
      invariant Unvisited(rest, state) && live == Live(Visited(state, rest))
      decreases |rest|
    {
      var k :| k in rest;
      OneMoreLive(state, rest, k);
      if |rest[k]| > 0 {
        live := live[k := rest[k]];
      }
      rest := rest - {k};
    }
  }

  lemma AllVisited(state: Table)
    ensures Unvisited(state, state) && Live(Visited(state, state)) == map[] && Visited(state, map[]) == state
  {
    AllKeys(state);
  }
}
