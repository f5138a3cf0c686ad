/** Key-value entries, sorted runs of them, and the map a sequence of writes leaves. */
module Entries {
  import opened ByteStrings

  datatype Entry<+V> = Entry(key: Bytes, val: V)

  /** A Go []byte value: a deletion is nil, which is not the same as an empty slice. */
  datatype Value = Nil | Data(bytes: Bytes)

  /** What is written to a file for a value: nil and the empty slice both have length 0. */
  function Payload(v: Value): Bytes {
    match v
    case Nil => []
    case Data(bs) => bs
  }

  ghost predicate Sorted<V>(es: seq<Entry<V>>) {
    forall i, j :: 0 <= i < j < |es| ==> Lt(es[i].key, es[j].key)
  }

  /** The keys ascend byte by byte, each once. */
  ghost predicate InByteOrder<V>(es: seq<Entry<V>>) {
    forall i, j :: 0 <= i < j < |es| ==> Precedes(es[i].key, es[j].key)
  }

  lemma SortedIsByteOrder<V>(es: seq<Entry<V>>)
    ensures Sorted(es) <==> InByteOrder(es)
  {
    hide Lt, Precedes;
    forall i, j | 0 <= i < j < |es| ensures Lt(es[i].key, es[j].key) <==> Precedes(es[i].key, es[j].key) {
      LtIsByteOrder(es[i].key, es[j].key);
    }
  }

  /** The map after writing the entries in order: the last write of a key wins. */
  function ToMap<V>(es: seq<Entry<V>>): map<Bytes, V> {
    if es == [] then map[]
    else ToMap(es[..|es| - 1])[es[|es| - 1].key := es[|es| - 1].val]
  }

  function MapGet(m: map<Bytes, Bytes>, key: Bytes): Option<Bytes> {
    if key in m then Some(m[key]) else None
  }

  /** i is the last position at which k is written. */
  ghost predicate LastWrite<V>(es: seq<Entry<V>>, k: Bytes, i: nat) {
    i < |es| && es[i].key == k && forall j :: i < j < |es| ==> es[j].key != k
  }

  lemma {:induction false} ToMapLookup<V>(es: seq<Entry<V>>, k: Bytes)
    ensures k in ToMap(es) <==> exists i: nat :: LastWrite(es, k, i)
    ensures forall i: nat :: LastWrite(es, k, i) ==> k in ToMap(es) && ToMap(es)[k] == es[i].val
  {
    if es != [] {
      var n := |es| - 1;
      var pre := es[..n];
      ToMapLookup(pre, k);
      if es[n].key == k {
        assert LastWrite(es, k, n);
      } else {
        forall i: nat | LastWrite(es, k, i) ensures LastWrite(pre, k, i) {}
        forall i: nat | LastWrite(pre, k, i) ensures LastWrite(es, k, i) {}
      }
    }
  }

  lemma {:induction false} ToMapConcat<V>(a: seq<Entry<V>>, b: seq<Entry<V>>)
    ensures ToMap(a + b) == ToMap(a) + ToMap(b)
  {
    if b == [] {
      assert a + b == a;
    } else {
      assert (a + b)[..|a + b| - 1] == a + b[..|b| - 1];
      ToMapConcat(a, b[..|b| - 1]);
    }
  }

  /** In a sorted run every entry is the only write of its key. */
  lemma SortedLookup<V>(es: seq<Entry<V>>)
    requires Sorted(es)
    ensures forall i :: 0 <= i < |es| ==> es[i].key in ToMap(es) && ToMap(es)[es[i].key] == es[i].val
    ensures forall k :: k in ToMap(es) ==> exists i :: 0 <= i < |es| && es[i].key == k
  {
    forall i | 0 <= i < |es| ensures es[i].key in ToMap(es) && ToMap(es)[es[i].key] == es[i].val {
      ToMapLookup(es, es[i].key);
      LtIrreflexive(es[i].key);
      assert LastWrite(es, es[i].key, i);
    }
    forall k | k in ToMap(es) ensures exists i :: 0 <= i < |es| && es[i].key == k {
      ToMapLookup(es, k);
      var i: nat :| LastWrite(es, k, i);
    }
  }

  lemma {:induction false} SortedSize<V>(es: seq<Entry<V>>)
    requires Sorted(es)
    ensures |ToMap(es)| == |es|
  {
    if es != [] {
      SortedSize(es[..|es| - 1]);
      DropLast(es);
    }
  }

  lemma NotWritten<V>(es: seq<Entry<V>>, k: Bytes)
    requires forall i :: 0 <= i < |es| ==> es[i].key != k
    ensures k !in ToMap(es)
  {
    ToMapLookup(es, k);
  }

  /** Writing e between a and b, where b does not write its key again. */
  lemma ToMapBetween<V>(a: seq<Entry<V>>, e: Entry<V>, b: seq<Entry<V>>)
    requires forall i :: 0 <= i < |b| ==> b[i].key != e.key
    ensures ToMap(a + [e] + b) == (ToMap(a) + ToMap(b))[e.key := e.val]
  {
    ToMapConcat(a + [e], b);
    assert (a + [e])[..|a|] == a;
    NotWritten(b, e.key);
  }

  /** Overwriting the value at one position of a sorted run. */
  lemma OverwriteInRun<V>(es: seq<Entry<V>>, i: nat, v: V)
    requires Sorted(es) && i < |es|
    ensures Sorted(es[i := Entry(es[i].key, v)])
    ensures ToMap(es[i := Entry(es[i].key, v)]) == ToMap(es)[es[i].key := v]
  {
    var a, b := es[..i], es[i + 1..];
    forall j | 0 <= j < |b| ensures b[j].key != es[i].key {
      LtIrreflexive(b[j].key);
      assert b[j] == es[i + 1 + j];
    }
    ToMapBetween(a, es[i], b);
    ToMapBetween(a, Entry(es[i].key, v), b);
    assert es == a + [es[i]] + b;
    assert es[i := Entry(es[i].key, v)] == a + [Entry(es[i].key, v)] + b;
  }

  /** The position of what was at q, once something has been inserted at k. */
  function Shifted(q: nat, k: nat): nat {
    if q < k then q else q + 1
  }

  ghost function Insert<T>(s: seq<T>, k: nat, x: T): (r: seq<T>)
    requires k <= |s|
    ensures |r| == |s| + 1 && r[k] == x
    ensures forall p :: 0 <= p < |s| ==> r[Shifted(p, k)] == s[p]
  {
    s[..k] + [x] + s[k..]
  }

  lemma InsertKeepsSorted<V>(es: seq<Entry<V>>, i: nat, e: Entry<V>)
    requires Sorted(es) && i <= |es|
    requires forall j :: 0 <= j < i ==> Lt(es[j].key, e.key)
    requires forall j :: i <= j < |es| ==> Lt(e.key, es[j].key)
    ensures Sorted(Insert(es, i, e))
  {
    var inserted := Insert(es, i, e);
    forall x, y | 0 <= x < y < |inserted| ensures Lt(inserted[x].key, inserted[y].key) {
      if x < i {
        assert inserted[x] == es[x];
      } else if x > i {
        assert inserted[x] == es[x - 1];
      }
      if y < i {
        assert inserted[y] == es[y];
      } else if y > i {
        assert inserted[y] == es[y - 1];
      }
    }
  }

  lemma KeyIsNew<V>(es: seq<Entry<V>>, i: nat, e: Entry<V>)
    requires i <= |es|
    requires forall j :: 0 <= j < i ==> Lt(es[j].key, e.key)
    requires forall j :: i <= j < |es| ==> Lt(e.key, es[j].key)
    ensures forall j :: 0 <= j < |es| ==> es[j].key != e.key
  {
    LtIrreflexive(e.key);
  }

  /** Inserting a new key at the position where the run stays sorted. */
  lemma InsertInRun<V>(es: seq<Entry<V>>, i: nat, e: Entry<V>)
    requires Sorted(es) && i <= |es|
    requires forall j :: 0 <= j < i ==> Lt(es[j].key, e.key)
    requires forall j :: i <= j < |es| ==> Lt(e.key, es[j].key)
    ensures Sorted(Insert(es, i, e))
    ensures ToMap(Insert(es, i, e)) == ToMap(es)[e.key := e.val]
    ensures e.key !in ToMap(es)
  {
    hide Lt, Sorted, ToMap;
    InsertKeepsSorted(es, i, e);
    KeyIsNew(es, i, e);
    var a, b := es[..i], es[i..];
    assert es == a + b;
    ToMapBetween(a, e, b);
    ToMapConcat(a, b);
    NotWritten(es, e.key);
  }

  /** The last key of a sorted run is above every other key of its map. */
  lemma LastKeyIsMaximum<V>(es: seq<Entry<V>>, k: Bytes)
    requires Sorted(es) && es != [] && k in ToMap(es)
    ensures k == es[|es| - 1].key || Lt(k, es[|es| - 1].key)
  {
    SortedLookup(es);
  }

  lemma DropLast<V>(es: seq<Entry<V>>)
    requires Sorted(es) && es != []
    ensures Sorted(es[..|es| - 1])
    ensures ToMap(es[..|es| - 1]) == ToMap(es) - {es[|es| - 1].key}
  {
    var pre, k := es[..|es| - 1], es[|es| - 1].key;
    LtIrreflexive(k);
    NotWritten(pre, k);
  }

  lemma NonEmptyMap<V>(es: seq<Entry<V>>)
    ensures es != [] ==> ToMap(es) != map[]
  {
    if es != [] {
      assert es[|es| - 1].key in ToMap(es);
    }
  }

  /** A sorted run is determined by its map. */
  lemma {:induction false} SortedRunUnique<V>(a: seq<Entry<V>>, b: seq<Entry<V>>)
    requires Sorted(a) && Sorted(b) && ToMap(a) == ToMap(b)
    ensures a == b
  {
    if a == [] {
      NonEmptyMap(b);
    } else {
      var x := a[|a| - 1];
      assert x.key in ToMap(b);
      assert b != [];
      var y := b[|b| - 1];
      assert y.key in ToMap(b);
      LastKeyIsMaximum(a, y.key);
      LastKeyIsMaximum(b, x.key);
      if x.key != y.key {
        LtAsymmetric(x.key, y.key);
        assert false;
      }
      assert ToMap(a)[x.key] == x.val && ToMap(b)[y.key] == y.val;
      DropLast(a);
      DropLast(b);
      SortedRunUnique(a[..|a| - 1], b[..|b| - 1]);
      assert a == a[..|a| - 1] + [x] && b == b[..|b| - 1] + [y];
    }
  }

  // ---------- the map written to a file for a map of values ----------

  function Payloads(m: map<Bytes, Value>): map<Bytes, Bytes> {
    map k | k in m :: Payload(m[k])
  }

  function PayloadRun(es: seq<Entry<Value>>): (r: seq<Entry<Bytes>>)
    ensures |r| == |es|
    ensures forall i :: 0 <= i < |es| ==> r[i] == Entry(es[i].key, Payload(es[i].val))
  {
    seq(|es|, i requires 0 <= i < |es| => Entry(es[i].key, Payload(es[i].val)))
  }

  lemma {:induction false} PayloadRunMap(es: seq<Entry<Value>>)
    ensures ToMap(PayloadRun(es)) == Payloads(ToMap(es))
    ensures Sorted(es) ==> Sorted(PayloadRun(es))
  {
    if es != [] {
      var n := |es| - 1;
      PayloadRunMap(es[..n]);
      assert PayloadRun(es)[..n] == PayloadRun(es[..n]);
    }
  }
}
