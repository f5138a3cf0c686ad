/** The memtable: a skip list whose nodes hold one forward pointer per level. */
module SkipLists {
  import opened ByteStrings
  import opened Entries

  const MAX_LEVEL: nat := 20

  class Node {
    const key: Bytes
    var value: Value
    const next: array<Node?>  // one pointer per level of the node

    constructor (key: Bytes, value: Value, height: nat)
      ensures this.key == key && this.value == value
      ensures next.Length == height && fresh(next)
      ensures forall i :: 0 <= i < height ==> next[i] == null
    {
      this.key, this.value := key, value;
      next := new Node?[height](_ => null);
    }
  }

  // ---------- the shape of the towers, as plain numbers ----------

  /** The first position after p that is taller than level i, or |hs| if there is none. */
  function Follower(hs: seq<nat>, p: nat, i: nat): (q: nat)
    requires p < |hs|
    ensures p < q <= |hs|
    ensures q < |hs| ==> i < hs[q]
    ensures forall r :: p < r < q ==> hs[r] <= i
    decreases |hs| - p
  {
    if p + 1 == |hs| then |hs|
    else if i < hs[p + 1] then p + 1
    else Follower(hs, p + 1, i)
  }

  /** Follower is the only position with its properties. */
  lemma FollowerIs(hs: seq<nat>, p: nat, i: nat, q: nat)
    requires p < q <= |hs|
    requires q < |hs| ==> i < hs[q]
    requires forall r :: p < r < q ==> hs[r] <= i
    ensures Follower(hs, p, i) == q
  {
  }

  /** A tower of height h inserted at position k: where every pointer must lead now. */
  lemma FollowerAfterInsert(hs: seq<nat>, k: nat, h: nat, p: nat, i: nat)
    requires 1 <= k <= |hs| && p < |hs|
    ensures var hs' := hs[..k] + [h] + hs[k..]; var q := Follower(hs, p, i);
      && (p < k && q < k ==> Follower(hs', p, i) == q)
      && (p < k <= q && i < h ==> Follower(hs', p, i) == k)
      && (p < k <= q && i < h ==> Follower(hs', k, i) == q + 1)
      && (p < k <= q && h <= i ==> Follower(hs', p, i) == q + 1)
      && (k <= p ==> Follower(hs', p + 1, i) == q + 1)
  {
    var hs' := hs[..k] + [h] + hs[k..];
    var q := Follower(hs, p, i);
    HeightsAround(hs, k, h);
    if p < k && q < k {
      FollowerIs(hs', p, i, q);
    } else if p < k && i < h {
      FollowerIs(hs', p, i, k);
      FollowerIs(hs', k, i, q + 1);
    } else if p < k {
      FollowerIs(hs', p, i, q + 1);
    } else {
      FollowerIs(hs', p + 1, i, q + 1);
    }
  }

  lemma HeightsAround(hs: seq<nat>, k: nat, h: nat)
    requires k <= |hs|
    ensures var hs' := hs[..k] + [h] + hs[k..];
      && hs'[k] == h && (forall r :: 0 <= r < k ==> hs'[r] == hs[r]) && (forall r :: k < r < |hs'| ==> hs'[r] == hs[r - 1])
  {
  }

  // ---------- the pointers, as plain values: links[p] are the pointers of node p ----------

  ghost function Heights(links: seq<seq<Node?>>): (hs: seq<nat>)
    ensures |hs| == |links| && forall p :: 0 <= p < |links| ==> hs[p] == |links[p]|
  {
    seq(|links|, p requires 0 <= p < |links| => |links[p]|)
  }

  /** The pointer of the p-th node at level i leads to the next node that has level i. */
  ghost predicate Linked(ns: seq<Node>, links: seq<seq<Node?>>, p: nat, i: nat)
    requires |ns| == |links| && p < |ns| && i < |links[p]|
  {
    var q := Follower(Heights(links), p, i);
    links[p][i] == if q < |ns| then ns[q] else null
  }

  ghost predicate AllLinked(ns: seq<Node>, links: seq<seq<Node?>>) {
    && |ns| == |links|
    && forall p, i :: 0 <= p < |ns| && 0 <= i < |links[p]| ==> Linked(ns, links, p, i)
  }

  /** us[i] is the last node before position k that has level i. */
  ghost predicate IsUpdate(links: seq<seq<Node?>>, k: nat, us: seq<nat>, i: nat) {
    i < |us| && us[i] < k <= |links| && i < |links[us[i]]| && Follower(Heights(links), us[i], i) >= k
  }

  /** x, with pointers xs, has been spliced in after the update nodes, and no other
      pointer has changed. */
  ghost predicate Spliced(links: seq<seq<Node?>>, k: nat, x: Node, xs: seq<Node?>, us: seq<nat>,
                          links': seq<seq<Node?>>)
  {
    && 1 <= k <= |links| == |links'| && |xs| <= |us|
    && (forall i :: 0 <= i < |xs| ==> IsUpdate(links, k, us, i) && xs[i] == links[us[i]][i])
    && (forall p :: 0 <= p < |links| ==> |links'[p]| == |links[p]|)
    && (forall p, i :: 0 <= p < |links| && 0 <= i < |links[p]| ==>
          links'[p][i] == if i < |xs| && us[i] == p then x else links[p][i])
  }

  lemma HeightsSpliced(links: seq<seq<Node?>>, k: nat, x: Node, xs: seq<Node?>, us: seq<nat>, links': seq<seq<Node?>>)
    requires Spliced(links, k, x, xs, us, links')
    ensures Heights(Insert(links', k, xs)) == Heights(links)[..k] + [|xs|] + Heights(links)[k..]
  {
    assert Heights(links') == Heights(links);
    assert Heights(Insert(links', k, xs)) == Insert(Heights(links'), k, |xs|);
  }

  lemma NewNodeLinked(ns: seq<Node>, links: seq<seq<Node?>>, k: nat, x: Node, xs: seq<Node?>, us: seq<nat>,
                      links': seq<seq<Node?>>, i: nat)
    requires AllLinked(ns, links) && Spliced(links, k, x, xs, us, links') && i < |xs|
    ensures Linked(Insert(ns, k, x), Insert(links', k, xs), k, i)
  {
    HeightsSpliced(links, k, x, xs, us, links');
    assert IsUpdate(links, k, us, i);
    assert Linked(ns, links, us[i], i);
    FollowerAfterInsert(Heights(links), k, |xs|, us[i], i);
  }

  lemma OldFollower(hs: seq<nat>, hs': seq<nat>, k: nat, h: nat, u: nat, p: nat, i: nat)
    requires 1 <= k <= |hs| && p < |hs| && i < hs[p] && hs' == hs[..k] + [h] + hs[k..]
    requires i < h ==> u < k && i < hs[u] && Follower(hs, u, i) >= k
    ensures Follower(hs', Shifted(p, k), i) == if i < h && u == p then k else Shifted(Follower(hs, p, i), k)
  {
    FollowerAfterInsert(hs, k, h, p, i);
  }

  lemma OldNodeLinked(ns: seq<Node>, links: seq<seq<Node?>>, k: nat, x: Node, xs: seq<Node?>, us: seq<nat>,
                      links': seq<seq<Node?>>, p: nat, i: nat)
    requires Spliced(links, k, x, xs, us, links') && |ns| == |links| && p < |ns| && i < |links[p]|
    requires Linked(ns, links, p, i)
    ensures |Insert(links', k, xs)[Shifted(p, k)]| == |links[p]|
    ensures Linked(Insert(ns, k, x), Insert(links', k, xs), Shifted(p, k), i)
  {
    HeightsSpliced(links, k, x, xs, us, links');
    assert i < |xs| ==> IsUpdate(links, k, us, i);
    OldFollower(Heights(links), Heights(Insert(links', k, xs)), k, |xs|, if i < |xs| then us[i] else 0, p, i);
    var q := Follower(Heights(links), p, i);
    assert Insert(links', k, xs)[Shifted(p, k)] == links'[p];
    assert q < |ns| ==> Insert(ns, k, x)[Shifted(q, k)] == ns[q];
  }

  /** Splicing leaves the list with x at position k linked on all levels. */
  lemma LinkedAfterSplice(ns: seq<Node>, links: seq<seq<Node?>>, k: nat, x: Node, xs: seq<Node?>, us: seq<nat>,
                          links': seq<seq<Node?>>)
    requires AllLinked(ns, links) && Spliced(links, k, x, xs, us, links')
    ensures AllLinked(Insert(ns, k, x), Insert(links', k, xs))
  {
    var ns', ls' := Insert(ns, k, x), Insert(links', k, xs);
    forall p, i | 0 <= p < |ns'| && 0 <= i < |ls'[p]| ensures Linked(ns', ls', p, i) {
      if p == k {
        NewNodeLinked(ns, links, k, x, xs, us, links', i);
      } else {
        var p0 := if p < k then p else p - 1;
        assert ls'[p] == links'[p0];
        assert Linked(ns, links, p0, i);
        OldNodeLinked(ns, links, k, x, xs, us, links', p0, i);
        assert Shifted(p0, k) == p;
      }
    }
  }

  /** The bytes counted for an entry. */
  function EntryBytes(e: Entry<Value>): nat {
    |e.key| + |Payload(e.val)|
  }

  function TotalBytes(es: seq<Entry<Value>>): nat {
    if es == [] then 0 else TotalBytes(es[..|es| - 1]) + EntryBytes(es[|es| - 1])
  }

  lemma {:induction false} TotalBytesConcat(a: seq<Entry<Value>>, b: seq<Entry<Value>>)
    ensures TotalBytes(a + b) == TotalBytes(a) + TotalBytes(b)
  {
    if b == [] {
      assert a + b == a;
    } else {
      assert (a + b)[..|a + b| - 1] == a + b[..|b| - 1];
      TotalBytesConcat(a, b[..|b| - 1]);
    }
  }

  lemma TotalBytesBetween(a: seq<Entry<Value>>, e: Entry<Value>, b: seq<Entry<Value>>)
    ensures TotalBytes(a + [e] + b) == TotalBytes(a) + EntryBytes(e) + TotalBytes(b)
  {
    TotalBytesConcat(a + [e], b);
    TotalBytesConcat(a, [e]);
    assert [e][..0] == [];
  }

  lemma OverwriteSplits<T>(s: seq<T>, i: nat, x: T)
    requires i < |s|
    ensures s == s[..i] + [s[i]] + s[i + 1..]
    ensures s[i := x] == s[..i] + [x] + s[i + 1..]
  {
  }

  lemma OverwriteBytes(es: seq<Entry<Value>>, i: nat, v: Value)
    requires i < |es|
    ensures TotalBytes(es[i := Entry(es[i].key, v)]) == TotalBytes(es) + |Payload(v)| - |Payload(es[i].val)|
  {
    var e := Entry(es[i].key, v);
    OverwriteSplits(es, i, e);
    TotalBytesBetween(es[..i], es[i], es[i + 1..]);
    TotalBytesBetween(es[..i], e, es[i + 1..]);
  }

  lemma InsertBytes(es: seq<Entry<Value>>, i: nat, e: Entry<Value>)
    requires i <= |es|
    ensures TotalBytes(Insert(es, i, e)) == TotalBytes(es) + EntryBytes(e)
  {
    hide TotalBytes;
    TotalBytesBetween(es[..i], e, es[i..]);
    assert TotalBytes(es) == TotalBytes(es[..i]) + TotalBytes(es[i..]) by {
      assert es[..i] + es[i..] == es;
      TotalBytesConcat(es[..i], es[i..]);
    }
  }

  /** The pointers of all nodes. */
  ghost function LinksOf(ns: seq<Node>): (links: seq<seq<Node?>>)
    reads set n: Node | n in ns :: n.next
    ensures |links| == |ns|
    ensures forall p :: 0 <= p < |ns| ==> links[p] == ns[p].next[..]
  {
    seq(|ns|, p requires 0 <= p < |ns| reads set n: Node | n in ns :: n.next => ns[p].next[..])
  }

  /** The entries of all nodes but the first, which is the head. */
  ghost function EntriesOf(ns: seq<Node>): (es: seq<Entry<Value>>)
    reads ns
    ensures |es| == if ns == [] then 0 else |ns| - 1
    ensures forall p :: 0 <= p < |es| ==> es[p] == Entry(ns[p + 1].key, ns[p + 1].value)
  {
    if ns == [] then [] else seq(|ns| - 1, p requires 0 <= p < |ns| - 1 reads ns => Entry(ns[p + 1].key, ns[p + 1].value))
  }

  lemma InsertedLinks(ns: seq<Node>, k: nat, x: Node)
    requires k <= |ns|
    ensures LinksOf(Insert(ns, k, x)) == Insert(LinksOf(ns), k, x.next[..])
  {
    hide Insert;
    var a, b := LinksOf(Insert(ns, k, x)), Insert(LinksOf(ns), k, x.next[..]);
    forall p | 0 <= p < |a| ensures a[p] == b[p] {
      if p != k {
        assert Insert(ns, k, x)[Shifted(Unshifted(p, k), k)] == ns[Unshifted(p, k)];
        assert b[Shifted(Unshifted(p, k), k)] == LinksOf(ns)[Unshifted(p, k)];
      }
    }
  }

  lemma InsertedEntries(ns: seq<Node>, k: nat, x: Node)
    requires 1 <= k <= |ns|
    ensures EntriesOf(Insert(ns, k, x)) == Insert(EntriesOf(ns), k - 1, Entry(x.key, x.value))
    ensures Insert(ns, k, x)[0] == ns[0]
  {
    hide Insert;
    var a, b := EntriesOf(Insert(ns, k, x)), Insert(EntriesOf(ns), k - 1, Entry(x.key, x.value));
    assert Insert(ns, k, x)[Shifted(0, k)] == ns[0];
    forall p | 0 <= p < |a| ensures a[p] == b[p] {
      if p != k - 1 {
        assert Insert(ns, k, x)[Shifted(Unshifted(p + 1, k), k)] == ns[Unshifted(p + 1, k)];
        assert b[Shifted(Unshifted(p, k - 1), k - 1)] == EntriesOf(ns)[Unshifted(p, k - 1)];
      }
    }
  }

  ghost function ObjectsOf(ns: seq<Node>): set<object> {
    (set n: Node | n in ns :: n as object) + (set n: Node | n in ns :: n.next as object)
  }

  /** The nodes and their pointer arrays are among the objects. */
  ghost predicate NodesIn(ns: seq<Node>, objects: set<object>) {
    forall n: Node :: n in ns ==> n as object in objects && n.next as object in objects
  }

  lemma InsertedObjects(ns: seq<Node>, k: nat, x: Node)
    requires k <= |ns|
    ensures ObjectsOf(Insert(ns, k, x)) == ObjectsOf(ns) + {x, x.next}
  {
    var r := Insert(ns, k, x);
    assert r[k] == x;
    forall n | n in ns ensures n in r {
      var p :| 0 <= p < |ns| && ns[p] == n;
      assert r[Shifted(p, k)] == n;
    }
    assert forall n :: n in r ==> n in ns || n == x;
    var a, b := ObjectsOf(r), ObjectsOf(ns) + {x, x.next};
    forall o | o in a ensures o in b {
      var n: Node :| n in r && (o == n as object || o == n.next as object);
    }
    forall o | o in b ensures o in a {
      if o in ObjectsOf(ns) {
        var n: Node :| n in ns && (o == n as object || o == n.next as object);
        assert n in r;
      } else {
        assert x in r;
      }
    }
  }

  lemma InsertedNodesIn(ns: seq<Node>, objects: set<object>, k: nat, x: Node)
    requires k <= |ns| && NodesIn(ns, objects)
    ensures NodesIn(Insert(ns, k, x), objects + {x, x.next})
  {
    assert forall n :: n in Insert(ns, k, x) ==> n in ns || n == x;
  }

  /** No node after position c that has level i comes before key. */
  ghost predicate Passed(ns: seq<Node>, c: nat, i: nat, key: Bytes) {
    forall q :: c < q < |ns| && i < ns[q].next.Length ==> !Lt(ns[q].key, key)
  }

  ghost predicate Before(ns: seq<Node>, c: nat, key: Bytes) {
    c < |ns| && (c == 0 || Lt(ns[c].key, key))
  }

  /** Position u is the last one before key that has level j. */
  ghost predicate StepDown(ns: seq<Node>, u: nat, j: nat, c: nat, key: Bytes) {
    u <= c < |ns| && j < ns[u].next.Length && Passed(ns, u, j, key)
  }

  lemma Towers(ns: seq<Node>, level: nat)
    requires WellShaped(ns, level)
    ensures DistinctTowers(ns)
  {
  }

  /** What Link leaves in the pointers is exactly a splice. */
  lemma AfterLink(ns: seq<Node>, links: seq<seq<Node?>>, k: nat, x: Node, us: seq<nat>)
    requires 1 <= k <= |ns| == |links| && x.next.Length <= |us|
    requires forall p :: 0 <= p < |ns| ==> |links[p]| == ns[p].next.Length
    requires forall j :: 0 <= j < x.next.Length ==> IsUpdate(links, k, us, j) && x.next[j] == links[us[j]][j]
    requires forall p, j :: 0 <= p < |ns| && 0 <= j < ns[p].next.Length ==>
      ns[p].next[j] == if j < x.next.Length && us[j] == p then x else links[p][j]
    ensures Spliced(links, k, x, x.next[..], us, LinksOf(ns))
  {
  }

  /** Once x is linked in, the list with x at position k is in order on every level. */
  lemma LinkedUp(ns: seq<Node>, level: nat, links: seq<seq<Node?>>, k: nat, x: Node, us: seq<nat>)
    requires 1 <= k <= |ns| == |links| && x.next.Length <= |us|
    requires WellShaped(Insert(ns, k, x), level) && AllLinked(ns, links)
    requires forall p :: 0 <= p < |ns| ==> |links[p]| == ns[p].next.Length
    requires forall j :: 0 <= j < x.next.Length ==> IsUpdate(links, k, us, j) && x.next[j] == links[us[j]][j]
    requires forall p, j :: 0 <= p < |ns| && 0 <= j < ns[p].next.Length ==>
      ns[p].next[j] == if j < x.next.Length && us[j] == p then x else links[p][j]
    ensures AllLinked(Insert(ns, k, x), LinksOf(Insert(ns, k, x)))
    ensures Insert(ns, k, x)[0] == ns[0]
    ensures EntriesOf(Insert(ns, k, x)) == Insert(EntriesOf(ns), k - 1, Entry(x.key, x.value))
  {
    hide AllLinked, Spliced, IsUpdate, WellShaped;
    AfterLink(ns, links, k, x, us);
    LinkedAfterSplice(ns, links, k, x, x.next[..], us, LinksOf(ns));
    InsertedLinks(ns, k, x);
    InsertedEntries(ns, k, x);
  }

  /** update[j] is the last node before key that has level j; us[j] is its position. */
  ghost predicate IsPath(ns: seq<Node>, update: seq<Node?>, us: seq<nat>, levels: nat, c: nat, key: Bytes) {
    && |update| == |us| == MAX_LEVEL && levels <= MAX_LEVEL
    && forall j :: 0 <= j < levels ==> StepDown(ns, us[j], j, c, key) && update[j] == ns[us[j]]
  }

  ghost predicate DistinctTowers(ns: seq<Node>) {
    forall p, q :: 0 <= p < q < |ns| ==> ns[p] != ns[q] && ns[p].next != ns[q].next
  }

  ghost predicate TowersWithin(ns: seq<Node>, level: nat) {
    && 1 <= level <= MAX_LEVEL
    && ns != [] && ns[0].next.Length == MAX_LEVEL
    && forall p :: 1 <= p < |ns| ==> 1 <= ns[p].next.Length <= level
  }

  ghost predicate KeysAscend(ns: seq<Node>) {
    forall p, q :: 1 <= p < q < |ns| ==> Lt(ns[p].key, ns[q].key)
  }

  ghost predicate WellShaped(ns: seq<Node>, level: nat) {
    DistinctTowers(ns) && TowersWithin(ns, level) && KeysAscend(ns)
  }

  /** The position in ns of what is at position p != k after an insertion at k. */
  ghost function Unshifted(p: nat, k: nat): nat
    requires p != k
  {
    if p < k then p else p - 1
  }

  lemma OnlyNode(ns: seq<Node>, level: nat, i: nat)
    requires WellShaped(ns, level) && i < |ns|
    ensures forall p :: 0 <= p < |ns| && p != i ==> ns[p] != ns[i]
  {
  }

  lemma KeysAscendInsert(ns: seq<Node>, k: nat, x: Node)
    requires KeysAscend(ns) && 1 <= k <= |ns|
    requires forall p :: 1 <= p < k ==> Lt(ns[p].key, x.key)
    requires forall p :: k <= p < |ns| ==> Lt(x.key, ns[p].key)
    ensures KeysAscend(Insert(ns, k, x))
  {
    var r := Insert(ns, k, x);
    forall p, q | 1 <= p < q < |r| ensures Lt(r[p].key, r[q].key) {
      assert p != k ==> r[p] == ns[Unshifted(p, k)];
      assert q != k ==> r[q] == ns[Unshifted(q, k)];
    }
  }

  lemma DistinctTowersInsert(ns: seq<Node>, k: nat, x: Node)
    requires DistinctTowers(ns) && k <= |ns|
    requires forall p :: 0 <= p < |ns| ==> ns[p] != x && ns[p].next != x.next
    ensures DistinctTowers(Insert(ns, k, x))
  {
    var r := Insert(ns, k, x);
    forall p, q | 0 <= p < q < |r| ensures r[p] != r[q] && r[p].next != r[q].next {
      assert p != k ==> r[p] == ns[Unshifted(p, k)];
      assert q != k ==> r[q] == ns[Unshifted(q, k)];
    }
  }

  lemma WellShapedInsert(ns: seq<Node>, level: nat, k: nat, x: Node)
    requires WellShaped(ns, level) && 1 <= k <= |ns|
    requires 1 <= x.next.Length <= level
    requires forall p :: 0 <= p < |ns| ==> ns[p] != x && ns[p].next != x.next
    requires forall p :: 1 <= p < k ==> Lt(ns[p].key, x.key)
    requires forall p :: k <= p < |ns| ==> Lt(x.key, ns[p].key)
    ensures WellShaped(Insert(ns, k, x), level)
  {
    KeysAscendInsert(ns, k, x);
    DistinctTowersInsert(ns, k, x);
    hide DistinctTowers, KeysAscend;
    var r := Insert(ns, k, x);
    forall p | 1 <= p < |r| ensures 1 <= r[p].next.Length <= level {
      assert p != k ==> r[p] == ns[Unshifted(p, k)];
    }
  }

  /** Links x in after the update nodes, level by level. */
  method Link(x: Node, update: seq<Node?>, ghost us: seq<nat>, ghost ns: seq<Node>)
    requires DistinctTowers(ns) && forall p :: 0 <= p < |ns| ==> ns[p].next != x.next
    requires x.next.Length <= |update| == |us|
    requires forall j :: 0 <= j < x.next.Length ==> (
      us[j] < |ns| && update[j] == ns[us[j]] && j < ns[us[j]].next.Length)
    modifies x.next, set n: Node | n in ns :: n.next
    ensures forall j :: 0 <= j < x.next.Length ==> x.next[j] == old(ns[us[j]].next[j])
    ensures forall p, j :: 0 <= p < |ns| && 0 <= j < ns[p].next.Length ==>
      ns[p].next[j] == if j < x.next.Length && us[j] == p then x else old(ns[p].next[j])
  {
    var i := 0;
    while i < x.next.Length
      invariant 0 <= i <= x.next.Length
      invariant forall j :: 0 <= j < i ==> x.next[j] == old(ns[us[j]].next[j])
      invariant forall p, j :: 0 <= p < |ns| && 0 <= j < ns[p].next.Length ==>
        ns[p].next[j] == if j < i && us[j] == p then x else old(ns[p].next[j])
    {
      x.next[i] := update[i].next[i];
      update[i].next[i] := x;
      i := i + 1;
    }
  }

  class SkipList {
    const head: Node
    var level: nat
    var size: nat
    var sizeBytes: int
    ghost var nodes: seq<Node>  // the nodes in level-0 order, the head first
    ghost var Contents: map<Bytes, Value>
    ghost var Repr: set<object>

    ghost predicate Valid()
      reads this, Repr
      ensures Valid() ==> this in Repr
    {
      && Repr == {this as object} + ObjectsOf(nodes) && NodesIn(nodes, Repr)
      && nodes != [] && nodes[0] == head && WellShaped(nodes, level)
      && AllLinked(nodes, Links())
      && size == |Entries()|
      && sizeBytes == TotalBytes(Entries())
      && Contents == ToMap(Entries())
    }

    ghost function Links(): seq<seq<Node?>>
      reads this, set n: Node | n in nodes :: n.next
    {
      LinksOf(nodes)
    }

    /** The entries in the order in which an iterator visits them. */
    ghost function Entries(): (es: seq<Entry<Value>>)
      reads this, nodes
    {
      EntriesOf(nodes)
    }

    constructor ()
      ensures Valid() && fresh(Repr)
      ensures Entries() == [] && Contents == map[]
    {
      head := new Node([], Nil, MAX_LEVEL);
      level, size, sizeBytes := 1, 0, 0;
      nodes, Contents := [head], map[];
      new;
      Repr := {this, head, head.next};
    }

    /** The search of one level stops at a node whose successor there is not before key. */
    lemma StopOfLevel(c: nat, i: nat, key: Bytes)
      requires Valid() && Before(nodes, c, key) && i < nodes[c].next.Length
      requires nodes[c].next[i] == null || !Lt(nodes[c].next[i].key, key)
      ensures Passed(nodes, c, i, key)
    {
      hide ObjectsOf, NodesIn, TotalBytes;
      var q := Follower(Heights(Links()), c, i);
      assert Linked(nodes, Links(), c, i);
      forall r | c < r < |nodes| && i < nodes[r].next.Length ensures !Lt(nodes[r].key, key) {
        if r > q && Lt(nodes[r].key, key) {
          LtTransitive(nodes[q].key, nodes[r].key, key);
        }
      }
    }

    /** Coin flips: any level from 1 to the maximum. */
    method RandomLevel() returns (newLevel: nat)
      ensures 1 <= newLevel <= 20
    {
      newLevel := 1;
      var heads: bool := *;
      while heads && newLevel < MAX_LEVEL
        invariant 1 <= newLevel <= MAX_LEVEL
        decreases MAX_LEVEL - newLevel
      {
        newLevel := newLevel + 1;
        heads := *;
      }
    }

    lemma SearchStart(key: Bytes)
      requires Valid()
      ensures 1 <= level <= MAX_LEVEL == head.next.Length && nodes != [] && nodes[0] == head
      ensures Before(nodes, 0, key) && Passed(nodes, 0, level, key)
    {
    }

    /** Moves along level i as long as the next node there is before key. */
    method MoveAlong(start: Node, ghost c0: nat, i: nat, key: Bytes) returns (current: Node, ghost c: nat)
      requires Valid() && Before(nodes, c0, key) && start == nodes[c0] && i < start.next.Length
      requires Passed(nodes, c0, i + 1, key)
      ensures c0 <= c < |nodes| && Before(nodes, c, key) && current == nodes[c] && i < current.next.Length
      ensures Passed(nodes, c, i, key)
    {
      current, c := start, c0;
      while current.next[i] != null && Lt(current.next[i].key, key)
        invariant c0 <= c && Before(nodes, c, key) && current == nodes[c] && i < current.next.Length
        invariant Passed(nodes, c, i + 1, key)
        decreases |nodes| - c
      {
        assert Linked(nodes, Links(), c, i);
        c := Follower(Heights(Links()), c, i);
        current := current.next[i];
      }
      StopOfLevel(c, i, key);
    }

    method Get(key: Bytes) returns (value: Value, found: bool)
      requires Valid()
      ensures found <==> key in Contents
      ensures value == if found then Contents[key] else Nil
    {
      hide ObjectsOf, NodesIn, TotalBytes, ToMap, AllLinked;
      var current := head;
      ghost var c: nat := 0;
      var i := level;
      while i > 0
        invariant 0 <= i <= level
        invariant Before(nodes, c, key) && current == nodes[c] && i <= current.next.Length && 0 < current.next.Length
        invariant Passed(nodes, c, i, key)
      {
        i := i - 1;
        current, c := MoveAlong(current, c, i, key);
      }
      StopOfSearch(c, key);
      FoundAt(c, key);
      current := current.next[0];
      if current != null && current.key == key {
        return current.value, true;
      }
      return Nil, false;
    }

    /** After the search of level 0 the key can only be in the next node. */
    lemma StopOfSearch(c: nat, key: Bytes)
      requires Valid() && Before(nodes, c, key) && Passed(nodes, c, 0, key)
      ensures forall p :: 1 <= p <= c ==> Lt(nodes[p].key, key)
      ensures c + 1 < |nodes| ==> nodes[c + 1].key == key || Lt(key, nodes[c + 1].key)
      ensures forall p :: c + 1 < p < |nodes| ==> Lt(key, nodes[p].key)
      ensures 0 < nodes[c].next.Length && nodes[c].next[0] == if c + 1 < |nodes| then nodes[c + 1] else null
    {
      hide ObjectsOf, NodesIn, TotalBytes;
      FollowerIs(Heights(Links()), c, 0, c + 1);
      assert Linked(nodes, Links(), c, 0);
      forall p | 1 <= p <= c ensures Lt(nodes[p].key, key) {
        if p < c {
          LtTransitive(nodes[p].key, nodes[c].key, key);
        }
      }
      if c + 1 < |nodes| {
        LtTotal(nodes[c + 1].key, key);
      }
      forall p | c + 1 < p < |nodes| ensures Lt(key, nodes[p].key) {
        if Lt(key, nodes[c + 1].key) {
          LtTransitive(key, nodes[c + 1].key, nodes[p].key);
        }
      }
    }

    lemma EntriesSorted()
      requires Valid()
      ensures Sorted(Entries())
    {
    }

    lemma ContentsAreEntries()
      requires Valid()
      ensures Contents == ToMap(Entries())
    {
    }

    lemma InOrder()
      requires Valid()
      ensures InByteOrder(Entries())
    {
      EntriesSorted();
      SortedIsByteOrder(Entries());
    }

    /** Size is the number of keys, SizeBytes the sum of the lengths of keys and values. */
    lemma Accounting()
      requires Valid()
      ensures Sorted(Entries()) && InByteOrder(Entries()) && Contents == ToMap(Entries())
      ensures size == |Contents| && sizeBytes == TotalBytes(Entries())
    {
      EntriesSorted();
      SortedIsByteOrder(Entries());
      SortedSize(Entries());
    }

    /** Where the search stops decides whether the key is in the map. */
    lemma FoundAt(c: nat, key: Bytes)
      requires Valid() && Before(nodes, c, key) && Passed(nodes, c, 0, key)
      ensures key in Contents <==> c + 1 < |nodes| && nodes[c + 1].key == key
      ensures key in Contents ==> Contents[key] == nodes[c + 1].value
    {
      hide ObjectsOf, NodesIn, TotalBytes, AllLinked, ToMap, Sorted;
      var es := Entries();
      EntriesSorted();
      if c + 1 < |nodes| && nodes[c + 1].key == key {
        assert es[c] == Entry(key, nodes[c + 1].value);
        SortedLookup(es);
      } else {
        forall j | 0 <= j < |es| ensures es[j].key != key {
          StopOfSearch(c, key);
          LtIrreflexive(key);
          assert es[j].key == nodes[j + 1].key;
        }
        NotWritten(es, key);
      }
    }

    /** At a level that holds update node c, everything up to position k is c or lower. */
    lemma UpdateReaches(c: nat, i: nat, key: Bytes, k: nat)
      requires Valid() && c < k <= |nodes| && i < nodes[c].next.Length
      requires Passed(nodes, c, i, key)
      requires forall p :: 1 <= p < k ==> Lt(nodes[p].key, key)
      ensures Follower(Heights(Links()), c, i) >= k
    {
    }

    /** The search of Put, which remembers where it went down. */
    method FindUpdate(key: Bytes) returns (update: seq<Node?>, ghost us: seq<nat>, ghost c: nat)
      requires Valid()
      ensures IsPath(nodes, update, us, level, c, key)
      ensures c < |nodes| && Before(nodes, c, key) && Passed(nodes, c, 0, key)
      ensures |update| == MAX_LEVEL && update[0] == nodes[c] && 0 < nodes[c].next.Length
    {
      hide Valid, Passed, Before;
      SearchStart(key);
      update := seq(MAX_LEVEL, _ => null);
      us := seq(MAX_LEVEL, _ => 0);
      c := 0;
      var current := head;
      var i := level;
      while i > 0
        invariant 0 <= i <= level && |update| == |us| == MAX_LEVEL
        invariant c < |nodes| && Before(nodes, c, key)
        invariant current == nodes[c] && i <= current.next.Length && 0 < current.next.Length
        invariant Passed(nodes, c, i, key)
        invariant i < level ==> update[i] == nodes[c]
        invariant forall j :: i <= j < level ==> StepDown(nodes, us[j], j, c, key) && update[j] == nodes[us[j]]
      {
        i := i - 1;
        current, c := MoveAlong(current, c, i, key);
        update := update[i := current];
        us := us[i := c];
      }
    }

    /** The key is there: its value is replaced. */
    method Overwrite(ghost c: nat, current: Node, value: Value)
      requires Valid() && c + 1 < |nodes| && current == nodes[c + 1]
      modifies Repr
      ensures Repr == old(Repr)
      ensures Valid() && Contents == old(Contents)[current.key := value]
      ensures size == old(size) && sizeBytes == old(sizeBytes) + |Payload(value)| - |Payload(old(current.value))|
    {
      hide WellShaped, AllLinked, TotalBytes, Sorted, ToMap, ObjectsOf;
      ghost var es, links := Entries(), Links();
      EntriesSorted();
      OnlyNode(nodes, level, c + 1);
      OverwriteInRun(es, c, value);
      OverwriteBytes(es, c, value);
      sizeBytes := sizeBytes + |Payload(value)| - |Payload(current.value)|;
      current.value := value;
      Contents := ToMap(es[c := Entry(current.key, value)]);
      assert Entries() == es[c := Entry(current.key, value)];
      assert Links() == links;
    }

    /** A new node is linked in; nodes still lists the old ones. */
    method LinkNode(key: Bytes, value: Value, height: nat, update: seq<Node?>, ghost us: seq<nat>, ghost c: nat)
      returns (newNode: Node)
      requires Valid() && 1 <= height <= level && c < |nodes| && IsPath(nodes, update, us, level, c, key)
      requires forall p :: 1 <= p <= c ==> Lt(nodes[p].key, key)
      requires forall p :: c < p < |nodes| ==> Lt(key, nodes[p].key)
      modifies set n: Node | n in nodes :: n.next
      ensures fresh(newNode) && fresh(newNode.next) && Entries() == old(Entries())
      ensures var ns' := Insert(nodes, c + 1, newNode);
        && WellShaped(ns', level) && ns'[0] == head
        && AllLinked(ns', LinksOf(ns'))
        && EntriesOf(ns') == Insert(Entries(), c, Entry(key, value))
    {
      hide WellShaped, AllLinked, IsUpdate, IsPath, Insert, Heights, ObjectsOf, TotalBytes, ToMap, NodesIn, Lt;
      ghost var ns, links, es, k := nodes, Links(), Entries(), c + 1;
      UpdatePath(update, us, height, c, k, key);
      newNode := new Node(key, value, height);
      WellShapedInsert(ns, level, k, newNode);
      Towers(ns, level);
      Link(newNode, update, us, ns);
      forall p | 0 <= p < |es| ensures EntriesOf(ns)[p] == es[p] {}
      assert forall j :: 0 <= j < newNode.next.Length ==> newNode.next[j] == links[us[j]][j];
      LinkedUp(ns, level, links, k, newNode, us);
    }

    /** The key is not there: a node for it is added. */
    method InsertNode(key: Bytes, value: Value, height: nat, update: seq<Node?>, ghost us: seq<nat>, ghost c: nat)
      returns (newNode: Node)
      requires Valid() && 1 <= height <= level && c < |nodes| && IsPath(nodes, update, us, level, c, key)
      requires forall p :: 1 <= p <= c ==> Lt(nodes[p].key, key)
      requires forall p :: c < p < |nodes| ==> Lt(key, nodes[p].key)
      modifies this`nodes, this`Contents, this`Repr, this`size, this`sizeBytes, set n: Node | n in nodes :: n.next
      ensures Valid() && nodes == Insert(old(nodes), c + 1, newNode)
      ensures fresh(newNode) && fresh(newNode.next) && Repr == old(Repr) + {newNode, newNode.next}
      ensures Entries() == Insert(old(Entries()), c, Entry(key, value))
      ensures size == old(size) + 1 && sizeBytes == old(sizeBytes) + |key| + |Payload(value)|
    {
      hide WellShaped, AllLinked, IsPath, TotalBytes, Heights, Insert, ObjectsOf, NodesIn, LinksOf, EntriesOf, Lt,
        ToMap;
      InsertBytes(Entries(), c, Entry(key, value));
      newNode := LinkNode(key, value, height, update, us, c);
      ghost var ns := Insert(nodes, c + 1, newNode);
      ghost var links, es := LinksOf(ns), EntriesOf(ns);
      InsertedObjects(nodes, c + 1, newNode);
      InsertedNodesIn(nodes, Repr, c + 1, newNode);
      sizeBytes := sizeBytes + |key| + |Payload(value)|;
      size := size + 1;
      nodes, Contents, Repr := ns, ToMap(es), Repr + {newNode, newNode.next};
      assert LinksOf(ns) == links && EntriesOf(ns) == es;
    }

    /** The path of the search is where a new node has to be linked in. */
    lemma UpdatePath(update: seq<Node?>, us: seq<nat>, height: nat, c: nat, k: nat, key: Bytes)
      requires Valid() && k == c + 1 && height <= level && c < |nodes| && IsPath(nodes, update, us, level, c, key)
      requires forall p :: 1 <= p <= c ==> Lt(nodes[p].key, key)
      ensures height <= |update| == |us|
      ensures forall j :: 0 <= j < height ==> IsUpdate(Links(), k, us, j)
      ensures forall j :: 0 <= j < height ==> (
        us[j] < |nodes| && update[j] == nodes[us[j]] && j < nodes[us[j]].next.Length)
    {
      forall j | 0 <= j < height ensures IsUpdate(Links(), k, us, j) {
        assert StepDown(nodes, us[j], j, c, key);
        UpdateReaches(us[j], j, key, k);
      }
    }

    /** Levels that no node had before start at the head. */
    method Grow(newLevel: nat, path: seq<Node?>, ghost pathPositions: seq<nat>, ghost c: nat, key: Bytes)
      returns (update: seq<Node?>, ghost us: seq<nat>)
      requires Valid() && newLevel <= MAX_LEVEL && IsPath(nodes, path, pathPositions, level, c, key) && c < |nodes|
      modifies this`level
      ensures Valid() && newLevel <= level && IsPath(nodes, update, us, level, c, key)
      ensures Entries() == old(Entries()) && nodes == old(nodes)
    {
      hide AllLinked, TotalBytes, ToMap, ObjectsOf, NodesIn;
      update, us := path, pathPositions;
      if newLevel > level {
        var i := level;
        while i < newLevel
          invariant level <= i <= newLevel
          invariant IsPath(nodes, update, us, i, c, key)
        {
          update := update[i := head];
          us := us[i := 0];
          i := i + 1;
        }
        level := newLevel;
      }
    }

    /** The second half of Put: the key is not there. */
    method Add(key: Bytes, value: Value, path: seq<Node?>, ghost pathPositions: seq<nat>, ghost c: nat)
      returns (newNode: Node)
      requires Valid() && c < |nodes| && IsPath(nodes, path, pathPositions, level, c, key)
      requires forall p :: 1 <= p <= c ==> Lt(nodes[p].key, key)
      requires forall p :: c < p < |nodes| ==> Lt(key, nodes[p].key)
      modifies Repr
      ensures Valid() && fresh(newNode) && fresh(newNode.next) && Repr == old(Repr) + {newNode, newNode.next}
      ensures Contents == old(Contents)[key := value]
      ensures size == old(size) + 1 && sizeBytes == old(sizeBytes) + |key| + |Payload(value)|
    {
      hide WellShaped, AllLinked, IsPath, Sorted, ToMap, Insert, TotalBytes;
      EntriesSorted();
      InsertInRun(Entries(), c, Entry(key, value));
      var newLevel := RandomLevel();
      var update, us := Grow(newLevel, path, pathPositions, c, key);
      newNode := InsertNode(key, value, newLevel, update, us, c);
    }

    method Put(key: Bytes, value: Value)
      requires Valid()
      modifies Repr
      ensures Valid() && fresh(Repr - old(Repr))
      ensures Contents == old(Contents)[key := value]
      ensures size == old(size) + if key in old(Contents) then 0 else 1
      ensures sizeBytes == old(sizeBytes) + |Payload(value)| + if key in old(Contents) then -|Payload(old(Contents)[key])| else |key|
    {
      hide WellShaped, AllLinked, IsPath, Passed, Before, ToMap, TotalBytes, ObjectsOf;
      var update, us, c := FindUpdate(key);
      FoundAt(c, key);
      StopOfSearch(c, key);
      var current := update[0].next[0];
      if current != null && current.key == key {
        Overwrite(c, current, value);
      } else {
        var _ := Add(key, value, update, us, c);
      }
    }

    /** Level i links exactly the nodes taller than i, in key order: a pointer skips only
        lower nodes, and a null pointer says that no taller node follows. */
    lemma LevelHoldsTallNodes(p: nat, i: nat)
      requires Valid() && p < |nodes| && i < nodes[p].next.Length
      ensures var n := nodes[p].next[i];
        if n == null then nodes[p].next.Length <= 20 && forall q :: p < q < |nodes| ==> nodes[q].next.Length <= i
        else exists q ::
          && p < q < |nodes| && nodes[q] == n && i < nodes[q].next.Length <= 20
          && (forall r :: p < r < q ==> nodes[r].next.Length <= i)
          && (0 < p ==> Precedes(nodes[p].key, n.key))
    {
      hide Precedes;
      assert Linked(nodes, Links(), p, i);
      var q := Follower(Heights(Links()), p, i);
      if q < |nodes| {
        assert nodes[q] == nodes[p].next[i];
        LtIsByteOrder(nodes[p].key, nodes[q].key);
      }
    }
  }

  /** The key comes after those of the first n entries. */
  ghost predicate Above(es: seq<Entry<Value>>, n: nat, key: Bytes) {
    forall i :: 0 <= i < n && i < |es| ==> Precedes(es[i].key, key)
  }

  /** Walks over level 0; it starts before the first entry. */
  class Iterator {
    ghost const list: SkipList
    ghost var pos: nat  // the position of current in list.nodes
    var current: Node

    ghost predicate Valid()
      reads this, list
    {
      pos < |list.nodes| && current == list.nodes[pos]
    }

    constructor (list: SkipList)
      requires list.Valid()
      ensures Valid() && this.list == list && pos == 0
    {
      this.list, pos, current := list, 0, list.head;
    }

    method Next() returns (more: bool)
      requires Valid() && list.Valid()
      modifies this
      ensures Valid() && more == (old(pos) < |list.Entries()|)
      ensures pos == old(pos) + if more then 1 else 0
      ensures more ==> list.Entries()[old(pos)] == Entry(current.key, current.value)
      ensures more ==> Above(list.Entries(), old(pos), current.key)
    {
      hide ObjectsOf, NodesIn, TotalBytes, Precedes;
      list.InOrder();
      assert Linked(list.nodes, list.Links(), pos, 0);
      FollowerIsNext(list.Links(), pos);
      more := current.next[0] != null;
      if more {
        current := current.next[0];
        pos := pos + 1;
      }
    }
  }

  lemma FollowerIsNext(links: seq<seq<Node?>>, p: nat)
    requires p < |links| && forall q :: 0 <= q < |links| ==> |links[q]| > 0
    ensures Follower(Heights(links), p, 0) == p + 1
  {
    FollowerIs(Heights(links), p, 0, p + 1);
  }
}
