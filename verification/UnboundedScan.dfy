/** A table and a key for which the forward scan, which knows no limit, finds what was never
    stored: the key is above the last one, and the filter does not reject it because the hash
    maps all keys alike. */
module UnboundedScan {
  import opened ByteStrings
  import opened Entries
  import opened Bloom
  import opened SsTable
  import opened SsTableRoundTrip
  import opened TableLookup

  function ZeroHash(key: Bytes): u32 {
    0
  }

  /** One entry, with the empty key and the empty value. */
  const ONE: seq<Entry<Bytes>> := [Entry([], [])]

  /** The rest of the filter block, and the first bytes of the index block. */
  function Phantom(): Bytes {
    Zeros(76) + U32Bytes(1)
  }

  lemma ProbeZero(bits: Bytes, i: nat)
    requires BitLength(bits) != 0
    ensures Probe(bits, 0, i) == 0
  {
    assert i * Delta(0) == 0;
  }

  lemma FirstBit(bits: Bytes)
    requires bits != [] && (bits[0] == 0 || bits[0] == 1)
    ensures SetBit(bits, 0) == bits[0 := 1]
  {
    assert OrBit(0, 0) == 1 && OrBit(1, 0) == 1;
  }

  lemma {:induction false} ZeroProbes(bits: Bytes, i: nat)
    requires BitLength(bits) != 0 && bits != [] && bits[0] == 0
    ensures WithProbes(bits, 0, i) == if i == 0 then bits else bits[0 := 1]
  {
    hide Probe, SetBit, BitLength;
    if i > 0 {
      ZeroProbes(bits, i - 1);
      ProbeZero(bits, i - 1);
      FirstBit(WithProbes(bits, 0, i - 1));
    }
  }

  lemma OneFilter()
    ensures KeysFit(1) && Filter(ZeroHash, ONE) == Zeros(80)[0 := 1] && |Index(ONE)| == 1 && DataSize(ONE) == 8
    ensures BitLength(Filter(ZeroHash, ONE)) != 0
    ensures forall h: u32 :: h == 0 ==> Contains(Filter(ZeroHash, ONE), h)
  {
    FilterSizeFits(1);
    var hs := Hashes(ZeroHash, ONE);
    assert hs == [0] && hs[..0] == [] && ONE[..0] == [];
    ZeroProbes(Zeros(80), PROBES);
    assert WithHashes(Zeros(80), hs) == WithHash(WithHashes(Zeros(80), []), 0);
    HashesAt(ZeroHash, ONE, 0);
  }

  lemma FourBytes()
    ensures U32At([1, 0, 0, 0]) == 1
  {
    var a, b, c, d: Bytes := [1, 0, 0, 0], [0, 0, 0], [0, 0], [0];
    assert a[1..] == b && b[1..] == c && c[1..] == d && d[1..] == [];
    assert FromLittleEndian(d) == 0;
    assert FromLittleEndian(c) == 0;
    assert FromLittleEndian(b) == 0;
  }

  lemma PhantomIsTrailer()
    ensures KeysFit(1) && TrailerKey(ZeroHash, ONE) == Phantom() && TrailerValue(ZeroHash, ONE) == (96, 97)
  {
    OneFilter();
    FourBytes();
    var bits := Filter(ZeroHash, ONE);
    assert bits[..4] == [1, 0, 0, 0];
    assert bits[4..] == Zeros(76);
  }

  /** With a hash under which all keys collide, the lookup of an absent key succeeds. */
  lemma ScanFindsPhantom()
    ensures KeysFit(1) && Sorted(ONE) && Phantom() !in ToMap(ONE)
    ensures TableGet(ZeroHash, ONE, Phantom()).Some?
  {
    hide FileBytes, Filter, Index, IndexEntriesBytes, U32Bytes, DataBytes, TableGet, TrailerKey, TrailerValue;
    OneFilter();
    PhantomIsTrailer();
    FileParts(ZeroHash, ONE);
    NotWritten(ONE, Phantom());
    assert Lt([], Phantom());
    PhantomIff(ZeroHash, ONE);
  }
}
