/** The Bloom filter: seven probes by double hashing in wrapping 32-bit arithmetic. */
module Bloom {
  import opened ByteStrings

  const BITS_PER_KEY: nat := 10
  const PROBES: nat := 7

  /** n & (1 << o) != 0: the binary digit of n at position o. */
  predicate HasDigit(n: nat, o: nat)
    decreases o
  {
    if o == 0 then n % 2 == 1 else HasDigit(n / 2, o - 1)
  }

  /** n | (1 << o). */
  function SetDigit(n: nat, o: nat): nat
    decreases o
  {
    if o == 0 then (if n % 2 == 1 then n else n + 1) else 2 * SetDigit(n / 2, o - 1) + n % 2
  }

  function Pow2(w: nat): nat {
    if w == 0 then 1 else 2 * Pow2(w - 1)
  }

  /** The digit is the quotient by the power of two, odd or even. */
  lemma {:induction false} HasDigitIs(n: nat, o: nat)
    ensures Pow2(o) > 0 && (HasDigit(n, o) <==> n / Pow2(o) % 2 == 1)
    decreases o
  {
    if o > 0 {
      HasDigitIs(n / 2, o - 1);
      DivideTwice(n, 2, Pow2(o - 1));
    }
  }

  /** The digits of two numbers side by side. */
  lemma {:induction false} DigitsJoined(low: nat, high: nat, w: nat, p: nat)
    requires low < Pow2(w)
    ensures HasDigit(low + high * Pow2(w), p) <==> if p < w then HasDigit(low, p) else HasDigit(high, p - w)
    decreases w
  {
    if w > 0 {
      var n, half := low + high * Pow2(w), high * Pow2(w - 1);
      assert high * Pow2(w) == 2 * half;
      assert n % 2 == low % 2 && n / 2 == low / 2 + half;
      if p > 0 {
        DigitsJoined(low / 2, high, w - 1, p - 1);
      }
    }
  }

  /** Setting a digit of a w-bit number leaves a w-bit number. */
  lemma {:induction false} SetDigitBound(n: nat, o: nat, w: nat)
    requires n < Pow2(w) && o < w
    ensures SetDigit(n, o) < Pow2(w)
    decreases o
  {
    assert Pow2(w) == 2 * Pow2(w - 1) && n / 2 < Pow2(w - 1);
    if o > 0 {
      SetDigitBound(n / 2, o - 1, w - 1);
    }
  }

  /** Setting a digit sets that digit and no other. */
  lemma {:induction false} SetDigitExact(n: nat, o: nat, p: nat)
    ensures HasDigit(SetDigit(n, o), p) <==> o == p || HasDigit(n, p)
    decreases o
  {
    if o > 0 && p > 0 {
      assert SetDigit(n, o) / 2 == SetDigit(n / 2, o - 1);
      SetDigitExact(n / 2, o - 1, p - 1);
    } else if p > 0 {
      assert SetDigit(n, o) / 2 == n / 2;
    } else if o > 0 {
      assert SetDigit(n, o) % 2 == n % 2;
    }
  }

  predicate HasBit(b: byte, o: nat) {
    HasDigit(b as nat, o)
  }

  function OrBit(b: byte, o: nat): byte
    requires o < 8
  {
    assert Pow2(8) == 256 by { assert Pow2(4) == 16; }
    SetDigitBound(b as nat, o, 8);
    SetDigit(b as nat, o) as byte
  }

  /** (h >> 17) | (h << 15) in 32 bits: the two halves do not overlap. */
  function Delta(h: u32): u32 {
    h / 0x2_0000 + (h % 0x2_0000) * 0x8000
  }

  /** d has the 32 digits of h, each 17 places further down, those at the bottom on top. */
  ghost predicate IsRotated(h: u32, d: u32) {
    forall p :: 0 <= p < 32 ==> (HasDigit(d, p) <==> HasDigit(h, (p + 17) % 32))
  }

  lemma Pow2Values()
    ensures Pow2(15) == 0x8000 && Pow2(17) == 0x2_0000 && Pow2(32) == TWO32
  {
    assert Pow2(5) == 32;
    assert Pow2(10) == 32 * Pow2(5);
    assert Pow2(15) == 32 * Pow2(10);
    assert Pow2(17) == 4 * Pow2(15);
    assert Pow2(22) == 32 * Pow2(17);
    assert Pow2(27) == 32 * Pow2(22);
    assert Pow2(32) == 32 * Pow2(27);
  }

  lemma DeltaIsRotated(h: u32)
    ensures IsRotated(h, Delta(h))
  {
    hide HasDigit, Pow2;
    Pow2Values();
    var low, high := h % 0x2_0000, h / 0x2_0000;
    forall p | 0 <= p < 32 ensures HasDigit(Delta(h), p) <==> HasDigit(h, (p + 17) % 32) {
      DigitsJoined(high, low, 15, p);
      DigitsJoined(low, high, 17, (p + 17) % 32);
    }
  }

  /** No digit at or above its width. */
  lemma {:induction false} SameDigits(a: nat, b: nat, w: nat)
    requires a < Pow2(w) && b < Pow2(w) && forall p :: 0 <= p < w ==> (HasDigit(a, p) <==> HasDigit(b, p))
    ensures a == b
    decreases w
  {
    if w > 0 {
      assert HasDigit(a, 0) <==> HasDigit(b, 0);
      forall p | 0 <= p < w - 1 ensures HasDigit(a / 2, p) <==> HasDigit(b / 2, p) {
        assert HasDigit(a, p + 1) <==> HasDigit(b, p + 1);
      }
      SameDigits(a / 2, b / 2, w - 1);
    }
  }

  /** The step of the double hashing is the hash rotated right by 17 places, and nothing else. */
  lemma RotatedIsDelta(h: u32, d: u32)
    ensures IsRotated(h, d) <==> d == Delta(h)
  {
    hide HasDigit, Pow2;
    Pow2Values();
    DeltaIsRotated(h);
    if IsRotated(h, d) {
      forall p | 0 <= p < 32 ensures HasDigit(d, p) <==> HasDigit(Delta(h), p) {}
      SameDigits(d, Delta(h), 32);
    }
  }

  /** uint32(len(bitset) * 8). */
  function BitLength(bits: Bytes): u32 {
    (|bits| * 8) % TWO32
  }

  /** The value of h after i rounds of h += delta. */
  function HashAt(h: u32, i: nat): u32 {
    (h + i * Delta(h)) % TWO32
  }

  lemma HashStep(h: u32, i: nat)
    ensures HashAt(h, 0) == h
    ensures HashAt(h, i + 1) == (HashAt(h, i) + Delta(h)) % TWO32
  {
    var d := Delta(h);
    var x := h + i * d;
    assert h + (i + 1) * d == x + d;
    assert x == (x / TWO32) * TWO32 + x % TWO32;
    ModPlus(x % TWO32 + d, x / TWO32);
  }

  lemma ModPlus(y: nat, q: nat)
    ensures (q * TWO32 + y) % TWO32 == y % TWO32
  {
  }

  function Probe(bits: Bytes, h: u32, i: nat): (p: nat)
    requires BitLength(bits) != 0
    ensures p < BitLength(bits) <= 8 * |bits|
  {
    HashAt(h, i) % BitLength(bits)
  }

  predicate TestBit(bits: Bytes, n: nat)
    requires n < 8 * |bits|
  {
    HasBit(bits[n / 8], n % 8)
  }

  function SetBit(bits: Bytes, n: nat): (r: Bytes)
    requires n < 8 * |bits|
    ensures |r| == |bits|
  {
    bits[n / 8 := OrBit(bits[n / 8], n % 8)]
  }

  /** Setting a bit sets that bit and no other. */
  lemma SetBitExact(bits: Bytes, n: nat, m: nat)
    requires n < 8 * |bits| && m < 8 * |bits|
    ensures TestBit(SetBit(bits, n), m) <==> n == m || TestBit(bits, m)
  {
    hide HasDigit, SetDigit;
    SetDigitExact(bits[n / 8] as nat, n % 8, m % 8);
  }

  /** The hash, and what it becomes when the step is added once, twice and so on to six times,
      in 32 bits. */
  predicate InSteps(h: u32, d: u32, bits: u32, n: nat)
    requires bits != 0
  {
    || n == h % bits || n == (h + d) % TWO32 % bits || n == (h + 2 * d) % TWO32 % bits || n == (h + 3 * d) % TWO32 % bits
    || n == (h + 4 * d) % TWO32 % bits || n == (h + 5 * d) % TWO32 % bits || n == (h + 6 * d) % TWO32 % bits
  }

  /** One of the seven positions of a hash in a filter of so many bits: the step is the rotated
      hash. */
  ghost predicate IsPosition(h: u32, bits: u32, n: nat)
    requires bits != 0
  {
    exists d: u32 :: IsRotated(h, d) && InSteps(h, d, bits, n)
  }

  lemma SevenProbes(bits: Bytes, h: u32)
    requires BitLength(bits) != 0
    ensures var b, d := BitLength(bits), Delta(h);
      && Probe(bits, h, 0) == h % b && Probe(bits, h, 1) == (h + d) % TWO32 % b && Probe(bits, h, 2) == (h + 2 * d) % TWO32 % b
      && Probe(bits, h, 3) == (h + 3 * d) % TWO32 % b && Probe(bits, h, 4) == (h + 4 * d) % TWO32 % b
      && Probe(bits, h, 5) == (h + 5 * d) % TWO32 % b && Probe(bits, h, 6) == (h + 6 * d) % TWO32 % b
  {
    hide Delta, BitLength, Probe;
    ProbeIs(bits, h, 0, 0);
    ProbeIs(bits, h, 1, Delta(h));
    ProbeIs(bits, h, 2, 2 * Delta(h));
    ProbeIs(bits, h, 3, 3 * Delta(h));
    ProbeIs(bits, h, 4, 4 * Delta(h));
    ProbeIs(bits, h, 5, 5 * Delta(h));
    ProbeIs(bits, h, 6, 6 * Delta(h));
  }

  lemma ProbeIs(bits: Bytes, h: u32, i: nat, steps: nat)
    requires BitLength(bits) != 0 && steps == i * Delta(h)
    ensures Probe(bits, h, i) == (h + steps) % TWO32 % BitLength(bits)
    ensures i == 0 ==> Probe(bits, h, i) == h % BitLength(bits)
  {
    hide Delta, BitLength;
  }

  lemma SomeProbe(bits: Bytes, h: u32, n: nat)
    requires BitLength(bits) != 0
    ensures (exists i :: 0 <= i < PROBES && Probe(bits, h, i) == n) <==>
      (|| n == Probe(bits, h, 0) || n == Probe(bits, h, 1) || n == Probe(bits, h, 2) || n == Probe(bits, h, 3)
       || n == Probe(bits, h, 4) || n == Probe(bits, h, 5) || n == Probe(bits, h, 6))
  {
    hide Probe;
  }

  lemma StepsAreProbes(bits: Bytes, h: u32, n: nat)
    requires BitLength(bits) != 0
    ensures InSteps(h, Delta(h), BitLength(bits), n) <==> exists i :: 0 <= i < PROBES && Probe(bits, h, i) == n
  {
    hide Delta, BitLength, Probe;
    SevenProbes(bits, h);
    SomeProbe(bits, h, n);
  }

  /** These are the probes. */
  lemma PositionsAreProbes(bits: Bytes, h: u32, n: nat)
    requires BitLength(bits) != 0
    ensures IsPosition(h, BitLength(bits), n) <==> exists i :: 0 <= i < PROBES && Probe(bits, h, i) == n
  {
    hide IsRotated, Delta, BitLength, Probe, InSteps;
    RotatedIsDelta(h, Delta(h));
    forall d: u32 | IsRotated(h, d) ensures d == Delta(h) {
      RotatedIsDelta(h, d);
    }
    StepsAreProbes(bits, h, n);
  }

  /** The filter after i of the probes of h. */
  function WithProbes(bits: Bytes, h: u32, i: nat): (r: Bytes)
    requires BitLength(bits) != 0
    ensures |r| == |bits|
  {
    if i == 0 then bits else SetBit(WithProbes(bits, h, i - 1), Probe(bits, h, i - 1))
  }

  function WithHash(bits: Bytes, h: u32): (r: Bytes)
    requires BitLength(bits) != 0
    ensures |r| == |bits|
  {
    WithProbes(bits, h, PROBES)
  }

  /** The filter after adding all hashes in order. */
  function WithHashes(bits: Bytes, hs: seq<u32>): (r: Bytes)
    requires BitLength(bits) != 0
    ensures |r| == |bits|
  {
    if hs == [] then bits else WithHash(WithHashes(bits, hs[..|hs| - 1]), hs[|hs| - 1])
  }

  /** MayContain on the raw bytes. */
  ghost predicate Contains(bits: Bytes, h: u32)
    requires bits != [] ==> BitLength(bits) != 0
  {
    bits == [] || forall i :: 0 <= i < PROBES ==> TestBit(bits, Probe(bits, h, i))
  }

  /** Adding a hash sets exactly its probes, and clears nothing. */
  lemma {:induction false} WithProbesExact(bits: Bytes, h: u32, i: nat, n: nat)
    requires BitLength(bits) != 0 && n < 8 * |bits|
    ensures TestBit(WithProbes(bits, h, i), n) <==> TestBit(bits, n) || exists j :: 0 <= j < i && Probe(bits, h, j) == n
  {
    hide TestBit, SetBit, Probe;
    if i > 0 {
      WithProbesExact(bits, h, i - 1, n);
      SetBitExact(WithProbes(bits, h, i - 1), Probe(bits, h, i - 1), n);
    }
  }

  /** Adding a hash sets its seven positions, and clears nothing. */
  lemma WithHashExact(bits: Bytes, h: u32, n: nat)
    requires BitLength(bits) != 0 && n < 8 * |bits|
    ensures TestBit(WithHash(bits, h), n) <==> TestBit(bits, n) || IsPosition(h, BitLength(bits), n)
  {
    hide TestBit, WithProbes, IsPosition, Probe;
    WithProbesExact(bits, h, PROBES, n);
    PositionsAreProbes(bits, h, n);
  }

  /** A hash may be contained when all its positions are set. */
  lemma ContainsExact(bits: Bytes, h: u32)
    requires bits != [] ==> BitLength(bits) != 0
    ensures Contains(bits, h) <==> bits == [] || forall n :: 0 <= n < 8 * |bits| && IsPosition(h, BitLength(bits), n) ==> TestBit(bits, n)
  {
    hide TestBit, IsPosition, HashAt;
    if bits != [] {
      forall n | 0 <= n < 8 * |bits|
        ensures IsPosition(h, BitLength(bits), n) <==> exists i :: 0 <= i < PROBES && Probe(bits, h, i) == n
      {
        PositionsAreProbes(bits, h, n);
      }
    }
  }

  lemma AddedHashContained(bits: Bytes, h: u32)
    requires BitLength(bits) != 0
    ensures Contains(WithHash(bits, h), h)
  {
    hide TestBit, WithProbes, HashAt;
    forall i | 0 <= i < PROBES ensures TestBit(WithHash(bits, h), Probe(WithHash(bits, h), h, i)) {
      assert Probe(WithHash(bits, h), h, i) == Probe(bits, h, i);
      WithProbesExact(bits, h, PROBES, Probe(bits, h, i));
    }
  }

  lemma ContainsKept(bits: Bytes, h: u32, g: u32)
    requires BitLength(bits) != 0 && Contains(bits, g)
    ensures Contains(WithHash(bits, h), g)
  {
    hide TestBit, WithProbes, HashAt;
    forall i | 0 <= i < PROBES ensures TestBit(WithHash(bits, h), Probe(WithHash(bits, h), g, i)) {
      assert Probe(WithHash(bits, h), g, i) == Probe(bits, g, i);
      WithProbesExact(bits, h, PROBES, Probe(bits, g, i));
    }
  }

  /** Adding hashes sets their positions, and nothing else. */
  lemma {:induction false} WithHashesExact(bits: Bytes, hs: seq<u32>, n: nat)
    requires BitLength(bits) != 0 && n < 8 * |bits|
    ensures TestBit(WithHashes(bits, hs), n) <==> TestBit(bits, n) || exists h :: h in hs && IsPosition(h, BitLength(bits), n)
  {
    hide TestBit, WithHash, IsPosition;
    if hs != [] {
      var pre, last := hs[..|hs| - 1], hs[|hs| - 1];
      WithHashesExact(bits, pre, n);
      WithHashExact(WithHashes(bits, pre), last, n);
      assert hs == pre + [last];
    }
  }

  lemma NoBits(size: nat, n: nat)
    requires n < 8 * size
    ensures !TestBit(Zeros(size), n)
  {
    NoDigits(n % 8);
  }

  lemma {:induction false} NoDigits(o: nat)
    ensures !HasDigit(0, o)
    decreases o
  {
    if o > 0 {
      NoDigits(o - 1);
    }
  }

  /** No false negatives: whatever was added, in whatever order, is contained. */
  lemma {:induction false} NoFalseNegatives(bits: Bytes, hs: seq<u32>, g: u32)
    requires BitLength(bits) != 0 && g in hs
    ensures Contains(WithHashes(bits, hs), g)
  {
    hide Contains, WithHash;
    var pre, h := hs[..|hs| - 1], hs[|hs| - 1];
    if g == h {
      AddedHashContained(WithHashes(bits, pre), h);
    } else {
      assert g in pre;
      NoFalseNegatives(bits, pre, g);
      ContainsKept(WithHashes(bits, pre), h, g);
    }
  }

  function Zeros(n: nat): (z: Bytes)
    ensures |z| == n
  {
    seq(n, _ => 0)
  }

  /** The number of bytes NewBloomFilter allocates. */
  function FilterSize(numKeys: nat): nat {
    ((if numKeys < 64 then 64 else numKeys) * BITS_PER_KEY + 7) / 8
  }

  /** The bit length does not wrap for this many keys. */
  predicate KeysFit(numKeys: nat) {
    numKeys * BITS_PER_KEY + 7 < TWO32
  }

  /** The least number of bytes with ten bits for each key, and for at least 64 keys. */
  lemma FilterSizeIs(numKeys: nat)
    ensures 8 * FilterSize(numKeys) >= 10 * numKeys && 8 * FilterSize(numKeys) >= 640
    ensures numKeys >= 64 ==> 8 * (FilterSize(numKeys) - 1) < 10 * numKeys
    ensures numKeys < 64 ==> FilterSize(numKeys) == 80
  {
  }

  lemma FilterSizeFits(numKeys: nat)
    requires KeysFit(numKeys)
    ensures 0 < FilterSize(numKeys) * 8 < TWO32
    ensures BitLength(Zeros(FilterSize(numKeys))) == FilterSize(numKeys) * 8
  {
  }

  class BloomFilter {
    const bitset: array<byte>

    constructor New(numKeys: nat)
      ensures fresh(bitset) && bitset[..] == Zeros(FilterSize(numKeys))
    {
      var n := if numKeys < 64 then 64 else numKeys;
      var bits := n * BITS_PER_KEY;
      bitset := new byte[(bits + 7) / 8](_ => 0);
    }

    constructor Load(data: Bytes)
      ensures fresh(bitset) && bitset[..] == data
    {
      bitset := new byte[|data|](i requires 0 <= i < |data| => data[i]);
    }

    method AddHash(hash: u32)
      requires BitLength(bitset[..]) != 0
      modifies bitset
      ensures bitset[..] == WithHash(old(bitset[..]), hash)
      ensures forall n :: 0 <= n < 8 * bitset.Length ==>
        (TestBit(bitset[..], n) <==> TestBit(old(bitset[..]), n) || IsPosition(hash, 8 * bitset.Length % TWO32, n))
    {
      hide HashAt, Delta, OrBit, TestBit, IsPosition;
      ghost var bits := bitset[..];
      forall n | 0 <= n < 8 * bitset.Length
        ensures TestBit(WithHash(bits, hash), n) <==> TestBit(bits, n) || IsPosition(hash, BitLength(bits), n)
      {
        WithHashExact(bits, hash, n);
      }
      HashStep(hash, 0);
      var h := hash;
      var delta := Delta(h);
      var bitLength := BitLength(bitset[..]);
      for i := 0 to PROBES
        invariant bitset.Length == |bits| && bitset[..] == WithProbes(bits, hash, i)
        invariant h == HashAt(hash, i)
      {
        HashStep(hash, i);
        var bitPos := h % bitLength;
        bitset[bitPos / 8] := OrBit(bitset[bitPos / 8], bitPos % 8);
        assert bitset[..] == SetBit(WithProbes(bits, hash, i), bitPos);
        h := (h + delta) % TWO32;
      }
    }

    method MayContain(hash: u32) returns (may: bool)
      requires bitset.Length > 0 ==> BitLength(bitset[..]) != 0
      ensures may <==> Contains(bitset[..], hash)
      ensures may <==> (
        || bitset.Length == 0
        || forall n :: 0 <= n < 8 * bitset.Length && IsPosition(hash, 8 * bitset.Length % TWO32, n) ==> TestBit(bitset[..], n))
    {
      hide HashAt, Delta, HasDigit, IsPosition;
      ContainsExact(bitset[..], hash);
      if bitset.Length == 0 {
        return true;
      }
      ghost var bits := bitset[..];
      HashStep(hash, 0);
      var h := hash;
      var delta := Delta(h);
      var bitLength := BitLength(bitset[..]);
      for i := 0 to PROBES
        invariant h == HashAt(hash, i)
        invariant forall j :: 0 <= j < i ==> TestBit(bits, Probe(bits, hash, j))
      {
        var bitPos := h % bitLength;
        assert bitPos == Probe(bits, hash, i);
        if !HasBit(bitset[bitPos / 8], bitPos % 8) {
          assert !TestBit(bits, Probe(bits, hash, i));
          return false;
        }
        HashStep(hash, i);
        h := (h + delta) % TWO32;
      }
      return true;
    }
  }
}
