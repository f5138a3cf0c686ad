/** Byte strings, their lexicographic order, and the little-endian integers that
    every file of the store is made of. */
module ByteStrings {
  newtype byte = x: int | 0 <= x < 256
  type Bytes = seq<byte>

  const TWO32: int := 0x1_0000_0000
  const TWO63: int := 0x8000_0000_0000_0000
  const TWO64: int := 0x1_0000_0000_0000_0000

  type u32 = x: int | 0 <= x < TWO32

  datatype Option<+T> = None | Some(value: T)

  // ---------- order ----------

  /** bytes.Compare: negative, zero or positive. */
  function Compare(a: Bytes, b: Bytes): int {
    if a == [] then (if b == [] then 0 else -1)
    else if b == [] then 1
    else if a[0] < b[0] then -1
    else if b[0] < a[0] then 1
    else Compare(a[1..], b[1..])
  }

  predicate Lt(a: Bytes, b: Bytes) {
    Compare(a, b) < 0
  }

  lemma {:induction false} CompareZero(a: Bytes, b: Bytes)
    ensures Compare(a, b) == 0 <==> a == b
  {
    if a != [] && b != [] {
      CompareZero(a[1..], b[1..]);
      assert a == [a[0]] + a[1..] && b == [b[0]] + b[1..];
    }
  }

  lemma {:induction false} CompareFlips(a: Bytes, b: Bytes)
    ensures Compare(a, b) == -Compare(b, a)
  {
    if a != [] && b != [] {
      CompareFlips(a[1..], b[1..]);
    }
  }

  lemma {:induction false} LtTransitive(a: Bytes, b: Bytes, c: Bytes)
    requires Lt(a, b) && Lt(b, c)
    ensures Lt(a, c)
  {
    if a != [] && a[0] == b[0] == c[0] {
      LtTransitive(a[1..], b[1..], c[1..]);
    }
  }

  lemma LtIrreflexive(a: Bytes)
    ensures !Lt(a, a)
  {
    CompareZero(a, a);
  }

  lemma LtAsymmetric(a: Bytes, b: Bytes)
    ensures !(Lt(a, b) && Lt(b, a))
  {
    CompareFlips(a, b);
  }

  lemma LtTotal(a: Bytes, b: Bytes)
    ensures a == b || Lt(a, b) || Lt(b, a)
  {
    CompareZero(a, b);
    CompareFlips(a, b);
  }

  /** a and b agree on their first n bytes; there a ends, or has the smaller byte. */
  ghost predicate PrecedesAt(a: Bytes, b: Bytes, n: nat) {
    n <= |a| && n < |b| && a[..n] == b[..n] && (n == |a| || a[n] < b[n])
  }

  /** Byte by byte, like the words of a dictionary. */
  ghost predicate Precedes(a: Bytes, b: Bytes) {
    exists n: nat :: PrecedesAt(a, b, n)
  }

  lemma PrecedesRest(a: Bytes, b: Bytes, n: nat)
    requires a != [] && b != [] && a[0] == b[0]
    ensures PrecedesAt(a, b, n + 1) <==> PrecedesAt(a[1..], b[1..], n)
  {
    if n + 1 <= |a| && n + 1 <= |b| {
      assert a[..n + 1] == [a[0]] + a[1..][..n] && b[..n + 1] == [b[0]] + b[1..][..n];
      assert a[1..][..n] == a[..n + 1][1..] && b[1..][..n] == b[..n + 1][1..];
    }
  }

  lemma PrecedesFirst(a: Bytes, b: Bytes, n: nat)
    requires PrecedesAt(a, b, n)
    ensures n == 0 || (a != [] && b != [] && a[0] == b[0])
  {
    if n > 0 {
      assert a[0] == a[..n][0] && b[0] == b[..n][0];
    }
  }

  /** The order of bytes.Compare is this order. */
  lemma {:induction false} LtIsByteOrder(a: Bytes, b: Bytes)
    ensures Lt(a, b) <==> Precedes(a, b)
  {
    assert PrecedesAt(a, b, 0) <==> b != [] && (a == [] || a[0] < b[0]);
    if a != [] && b != [] && a[0] == b[0] {
      LtIsByteOrder(a[1..], b[1..]);
      if n: nat :| PrecedesAt(a[1..], b[1..], n) {
        PrecedesRest(a, b, n);
        assert PrecedesAt(a, b, n + 1);
      }
      if n: nat :| PrecedesAt(a, b, n) {
        assert n > 0;
        PrecedesRest(a, b, n - 1);
      }
    } else {
      if n: nat :| PrecedesAt(a, b, n) {
        PrecedesFirst(a, b, n);
      }
    }
  }

  // ---------- little-endian integers ----------

  function Pow256(w: nat): (p: nat)
    ensures p > 0
  {
    if w == 0 then 1 else 256 * Pow256(w - 1)
  }

  /** The low w bytes of n, least significant first. */
  function LittleEndian(n: nat, w: nat): (bs: Bytes)
    ensures |bs| == w
  {
    if w == 0 then [] else [(n % 256) as byte] + LittleEndian(n / 256, w - 1)
  }

  function FromLittleEndian(bs: Bytes): (n: nat)
    ensures n < Pow256(|bs|)
  {
    if bs == [] then 0 else (bs[0] as int) + 256 * FromLittleEndian(bs[1..])
  }

  lemma {:induction false} LittleEndianRoundTrip(n: nat, w: nat)
    requires n < Pow256(w)
    ensures FromLittleEndian(LittleEndian(n, w)) == n
  {
    if w > 0 {
      LittleEndianRoundTrip(n / 256, w - 1);
      assert LittleEndian(n, w)[1..] == LittleEndian(n / 256, w - 1);
    }
  }

  /** Every byte string is the little-endian form of the number read from it. */
  lemma {:induction false} FromLittleEndianRoundTrip(bs: Bytes)
    ensures LittleEndian(FromLittleEndian(bs), |bs|) == bs
  {
    if bs != [] {
      FromLittleEndianRoundTrip(bs[1..]);
      var n, rest := FromLittleEndian(bs), FromLittleEndian(bs[1..]);
      assert n == (bs[0] as int) + 256 * rest;
      assert n % 256 == bs[0] as int && n / 256 == rest;
    }
  }

  /** The i-th byte is the i-th digit to the base 256. */
  lemma {:induction false} LittleEndianByte(n: nat, w: nat, i: nat)
    requires i < w
    ensures LittleEndian(n, w)[i] as int == n / Pow256(i) % 256
  {
    if i > 0 {
      LittleEndianByte(n / 256, w - 1, i - 1);
      DivideTwice(n, 256, Pow256(i - 1));
    }
  }

  lemma DivideTwice(n: nat, c: nat, p: nat)
    requires c > 0 && p > 0
    ensures c * p > 0 && n / c / p == n / (c * p)
  {
    AtLeastOneMore(c, 0, p);
    var x, low := n / c, n % c;
    var y, rest := x / p, x % p;
    AtLeastOneMore(c, rest, p);
    NestedQuotient(n, c, p, x, low, y, rest);
    QuotientIs(n, c * p, y, c * rest + low);
  }

  lemma NestedQuotient(n: nat, c: nat, p: nat, x: nat, low: nat, y: nat, rest: nat)
    requires n == c * x + low && x == p * y + rest
    ensures n == (c * p) * y + (c * rest + low)
  {
    assert c * (p * y + rest) == c * (p * y) + c * rest;
  }

  lemma QuotientIs(n: nat, m: nat, y: nat, a: nat)
    requires a < m && n == m * y + a
    ensures n / m == y
  {
    QuotientUnique(m, y, a, n / m, n % m);
  }

  lemma QuotientUnique(p: nat, q: nat, a: nat, d: nat, m: nat)
    requires a < p && m < p && p * q + a == p * d + m
    ensures q == d
  {
    if q < d {
      AtLeastOneMore(p, q, d);
    } else if d < q {
      AtLeastOneMore(p, d, q);
    }
  }

  lemma AtLeastOneMore(p: nat, q: nat, d: nat)
    requires q < d
    ensures p * d >= p * q + p
  {
    assert p * d == p * (q + 1) + p * (d - q - 1);
  }

  lemma Pow256Values()
    ensures Pow256(4) == TWO32 && Pow256(8) == TWO64
  {
    assert Pow256(2) == 256 * 256;
    assert Pow256(4) == 256 * 256 * Pow256(2);
    assert Pow256(6) == 256 * 256 * Pow256(4);
  }

  /** A Go uint32(n) conversion written with binary.LittleEndian: n is truncated. */
  function U32Bytes(n: nat): (bs: Bytes)
    ensures |bs| == 4
  {
    LittleEndian(n % TWO32, 4)
  }

  function U64Bytes(n: nat): (bs: Bytes)
    ensures |bs| == 8
  {
    LittleEndian(n % TWO64, 8)
  }

  function U32At(bs: Bytes): u32
    requires |bs| == 4
  {
    Pow256Values();
    FromLittleEndian(bs)
  }

  function U64At(bs: Bytes): (n: nat)
    requires |bs| == 8
    ensures n < TWO64
  {
    Pow256Values();
    FromLittleEndian(bs)
  }

  /** Go's int64(x) of a uint64. */
  function ToInt64(n: nat): (x: int)
    requires n < TWO64
    ensures -TWO63 <= x < TWO63 && x % TWO64 == n
  {
    if n < TWO63 then n else n - TWO64
  }

  lemma U32RoundTrip(n: nat)
    ensures U32At(U32Bytes(n)) == n % TWO32
  {
    Pow256Values();
    LittleEndianRoundTrip(n % TWO32, 4);
  }

  lemma U64RoundTrip(n: nat)
    ensures U64At(U64Bytes(n)) == n % TWO64
  {
    Pow256Values();
    LittleEndianRoundTrip(n % TWO64, 8);
  }

  // ---------- reading from a file at a position ----------

  /** The outcomes of io.ReadFull and binary.Read: the bytes, io.EOF when nothing could
      be read, io.ErrUnexpectedEOF when only some could. */
  datatype Read<+T> = Got(value: T) | Eof | UnexpectedEof

  function ReadFull(data: Bytes, pos: nat, n: nat): Read<Bytes> {
    if n == 0 then Got([])
    else if pos >= |data| then Eof
    else if pos + n > |data| then UnexpectedEof
    else Got(data[pos..pos + n])
  }

  function ReadU32(data: Bytes, pos: nat): Read<u32> {
    match ReadFull(data, pos, 4)
    case Got(bs) => Got(U32At(bs))
    case Eof => Eof
    case UnexpectedEof => UnexpectedEof
  }

  function ReadU64(data: Bytes, pos: nat): (r: Read<nat>)
    ensures r.Got? ==> r.value < TWO64
  {
    match ReadFull(data, pos, 8)
    case Got(bs) => Got(U64At(bs))
    case Eof => Eof
    case UnexpectedEof => UnexpectedEof
  }

  /** x lies in data at position pos. */
  ghost predicate Holds(data: Bytes, pos: nat, x: Bytes) {
    pos + |x| <= |data| && data[pos..pos + |x|] == x
  }

  lemma HoldsParts(data: Bytes, pos: nat, x: Bytes, y: Bytes)
    requires Holds(data, pos, x + y)
    ensures Holds(data, pos, x) && Holds(data, pos + |x|, y)
  {
    var z := data[pos..pos + |x + y|];
    assert z[..|x|] == x && z[|x|..] == y;
    assert data[pos..pos + |x|] == z[..|x|];
    assert data[pos + |x|..pos + |x| + |y|] == z[|x|..];
  }

  /** x lies inside something that lies in data. */
  lemma HoldsInside(data: Bytes, pos: nat, outer: Bytes, at: nat, x: Bytes)
    requires Holds(data, pos, outer) && Holds(outer, at, x)
    ensures Holds(data, pos + at, x)
  {
    forall i | 0 <= i < |x| ensures data[pos + at + i] == x[i] {
      assert x[i] == outer[at..at + |x|][i] == outer[at + i];
      assert outer[at + i] == data[pos..pos + |outer|][at + i];
    }
  }

  lemma HoldsMiddle(a: Bytes, x: Bytes, b: Bytes)
    ensures Holds(a + x + b, |a|, x)
  {
    assert (a + x + b)[|a|..|a| + |x|] == x;
  }

  lemma ReadHeld(data: Bytes, pos: nat, x: Bytes)
    requires Holds(data, pos, x)
    ensures ReadFull(data, pos, |x|) == Got(x)
  {
  }

  lemma ReadHeldU32(data: Bytes, pos: nat, n: nat)
    requires Holds(data, pos, U32Bytes(n))
    ensures ReadU32(data, pos) == Got(n % TWO32)
  {
    U32RoundTrip(n);
  }

  lemma ReadHeldU64(data: Bytes, pos: nat, n: nat)
    requires Holds(data, pos, U64Bytes(n))
    ensures ReadU64(data, pos) == Got(n % TWO64)
  {
    U64RoundTrip(n);
  }
}
