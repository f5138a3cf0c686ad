/** The priority queue of the merge: a binary heap in a slice, as container/heap keeps it. */
module MergeHeaps {
  import opened ByteStrings

  datatype Item = Item(key: Bytes, val: Bytes, iterIdx: nat)

  /** Smaller keys first; of equal keys, the one from the newer file. */
  predicate Less(a: Item, b: Item) {
    var cmp := Compare(a.key, b.key);
    if cmp == 0 then a.iterIdx < b.iterIdx else cmp < 0
  }

  predicate AtMost(a: Item, b: Item) {
    !Less(b, a)
  }

  lemma AtMostIs(a: Item, b: Item)
    ensures AtMost(a, b) <==> Lt(a.key, b.key) || (a.key == b.key && a.iterIdx <= b.iterIdx)
    ensures Less(a, b) ==> AtMost(a, b)
  {
    CompareZero(a.key, b.key);
    CompareZero(b.key, a.key);
    CompareFlips(a.key, b.key);
  }

  lemma AtMostTransitive(a: Item, b: Item, c: Item)
    requires AtMost(a, b) && AtMost(b, c)
    ensures AtMost(a, c)
  {
    AtMostIs(a, b);
    AtMostIs(b, c);
    AtMostIs(a, c);
    if Lt(a.key, b.key) && Lt(b.key, c.key) {
      LtTransitive(a.key, b.key, c.key);
    }
  }

  /** Less is a strict total order on items of different files. */
  lemma LessIsTotal(a: Item, b: Item)
    requires a.iterIdx != b.iterIdx
    ensures Less(a, b) <==> !Less(b, a)
  {
    CompareZero(a.key, b.key);
    CompareFlips(a.key, b.key);
  }

  /** An item is less if its key comes earlier byte by byte, or is the same from a newer file. */
  lemma LessIs(a: Item, b: Item)
    ensures Less(a, b) <==> Precedes(a.key, b.key) || (a.key == b.key && a.iterIdx < b.iterIdx)
  {
    hide Precedes;
    CompareZero(a.key, b.key);
    LtIsByteOrder(a.key, b.key);
    LtIrreflexive(a.key);
  }

  function Parent(i: nat): nat
    requires i > 0
  {
    (i - 1) / 2
  }

  ghost predicate IsHeap(h: seq<Item>) {
    forall i :: 0 < i < |h| ==> AtMost(h[Parent(i)], h[i])
  }

  lemma {:induction false} RootIsLeast(h: seq<Item>, k: nat)
    requires IsHeap(h) && k < |h|
    ensures AtMost(h[0], h[k])
  {
    if k == 0 {
      AtMostIs(h[0], h[0]);
    } else {
      RootIsLeast(h, Parent(k));
      AtMostTransitive(h[0], h[Parent(k)], h[k]);
    }
  }

  function Swap(h: seq<Item>, i: nat, j: nat): (r: seq<Item>)
    requires i < |h| && j < |h|
    ensures |r| == |h| && r[i] == h[j] && r[j] == h[i]
    ensures forall k :: 0 <= k < |h| && k != i && k != j ==> r[k] == h[k]
    ensures multiset(r) == multiset(h)
  {
    h[i := h[j]][j := h[i]]
  }

  lemma SwapBelow(h: seq<Item>, i: nat, j: nat, n: nat)
    requires i < n && j < n && n <= |h|
    ensures Swap(h, i, j)[n..] == h[n..]
  {
  }

  /** A heap but for position j, which may be smaller than its parent. */
  ghost predicate HeapUpTo(h: seq<Item>, j: nat) {
    && (forall i :: 0 < i < |h| && i != j ==> AtMost(h[Parent(i)], h[i]))
    && (forall i :: 0 < i < |h| && j > 0 && Parent(i) == j ==> AtMost(h[Parent(j)], h[i]))
  }

  lemma UpStep(h: seq<Item>, j: nat)
    requires 0 < j < |h| && HeapUpTo(h, j) && Less(h[j], h[Parent(j)])
    ensures HeapUpTo(Swap(h, Parent(j), j), Parent(j))
  {
    hide Less, AtMost;
    var p, r := Parent(j), Swap(h, Parent(j), j);
    AtMostIs(h[j], h[p]);
    forall i | 0 < i < |r| && i != p ensures AtMost(r[Parent(i)], r[i]) {
      if i != j && Parent(i) == p {
        AtMostTransitive(h[j], h[p], h[i]);
      }
    }
    forall i | 0 < i < |r| && p > 0 && Parent(i) == p ensures AtMost(r[Parent(p)], r[i]) {
      if i != j {
        AtMostTransitive(h[Parent(p)], h[p], h[i]);
      }
    }
  }

  /** The first n items form a heap but for position i, which may be larger than its children. */
  ghost predicate HeapDownTo(h: seq<Item>, n: nat, i: nat) {
    && n <= |h|
    && (forall k :: 0 < k < n && Parent(k) != i ==> AtMost(h[Parent(k)], h[k]))
    && (forall k :: 0 < k < n && Parent(k) == i && i > 0 ==> AtMost(h[Parent(i)], h[k]))
  }

  lemma DownStep(h: seq<Item>, n: nat, i: nat, c: nat)
    requires HeapDownTo(h, n, i) && 0 < c < n && Parent(c) == i && AtMost(h[c], h[i])
    requires forall k :: 0 < k < n && Parent(k) == i ==> AtMost(h[c], h[k])
    ensures HeapDownTo(Swap(h, i, c), n, c)
  {
  }

  class MergeHeap {
    var items: seq<Item>

    constructor ()
      ensures items == []
    {
      items := [];
    }

    method Push(x: Item)
      requires IsHeap(items)
      modifies this
      ensures IsHeap(items) && multiset(items) == multiset(old(items)) + multiset{x}
    {
      items := items + [x];
      Up(|items| - 1);
    }

    method Up(start: nat)
      requires start < |items| && HeapUpTo(items, start)
      modifies this
      ensures IsHeap(items) && multiset(items) == multiset(old(items))
    {
      var j: nat := start;
      while true
        invariant j < |items| && HeapUpTo(items, j) && multiset(items) == multiset(old(items))
        decreases j
      {
        var i := if j == 0 then 0 else Parent(j);
        if i == j || !Less(items[j], items[i]) {
          break;
        }
        UpStep(items, j);
        items := Swap(items, i, j);
        j := i;
      }
    }

    /** Removes an item that is at most every item. */
    method Pop() returns (x: Item)
      requires IsHeap(items) && items != []
      modifies this
      ensures IsHeap(items) && x in old(items) && multiset(items) == multiset(old(items)) - multiset{x}
      ensures forall y :: y in old(items) ==> AtMost(x, y)
    {
      ghost var before := items;
      forall y | y in items ensures AtMost(items[0], y) {
        var k :| 0 <= k < |items| && items[k] == y;
        RootIsLeast(items, k);
      }
      var n := |items| - 1;
      items := Swap(items, 0, n);
      assert items[..n] + [before[0]] == items;
      Down(0, n);
      x := items[n];
      assert items == items[..n] + [x];
      items := items[..n];
    }

    /** Restores the heap of the first n items, leaving the others alone. */
    method Down(start: nat, n: nat)
      requires n <= |items| && HeapDownTo(items, n, start)
      modifies this
      ensures |items| == |old(items)| && IsHeap(items[..n]) && items[n..] == old(items[n..])
      ensures multiset(items) == multiset(old(items))
    {
      hide Less, AtMost, HeapDownTo, IsHeap, Swap;
      var i: nat := start;
      while true
        invariant n <= |items| == |old(items)| && HeapDownTo(items, n, i)
        invariant items[n..] == old(items[n..]) && multiset(items) == multiset(old(items))
        decreases n - i
      {
        var j: nat := 2 * i + 1;
        if j >= n {
          break;
        }
        var j2 := j + 1;
        if j2 < n && Less(items[j2], items[j]) {
          j := j2;
        }
        SmallerChild(items, n, i, j);
        if !Less(items[j], items[i]) {
          break;
        }
        AtMostIs(items[j], items[i]);
        DownStep(items, n, i, j);
        SwapBelow(items, i, j, n);
        items := Swap(items, i, j);
        i := j;
      }
      DownEnd(items, n, i);
    }
  }

  lemma DownEnd(h: seq<Item>, n: nat, i: nat)
    requires n <= |h| && HeapDownTo(h, n, i)
    requires forall k :: 0 < k < n && Parent(k) == i ==> AtMost(h[i], h[k])
    ensures IsHeap(h[..n])
  {
  }

  lemma SmallerChild(h: seq<Item>, n: nat, i: nat, j: nat)
    requires n <= |h| && j < n && (j == 2 * i + 1 || j == 2 * i + 2)
    requires j == 2 * i + 1 && j + 1 < n ==> !Less(h[j + 1], h[j])
    requires j == 2 * i + 2 ==> Less(h[j], h[j - 1])
    ensures forall k :: 0 < k < n && Parent(k) == i ==> AtMost(h[j], h[k])
    ensures !Less(h[j], h[i]) ==> forall k :: 0 < k < n && Parent(k) == i ==> AtMost(h[i], h[k])
  {
    forall k | 0 < k < n && Parent(k) == i
      ensures AtMost(h[j], h[k])
      ensures !Less(h[j], h[i]) ==> AtMost(h[i], h[k])
    {
      assert k == 2 * i + 1 || k == 2 * i + 2;
      AtMostIs(h[j], h[k]);
      if AtMost(h[i], h[j]) {
        AtMostTransitive(h[i], h[j], h[k]);
      }
    }
  }
}
