/** The bloom filter of a table. The hash is any function to two 64-bit numbers. */
module Bloom {
  import opened Keys
  import opened Coding
  import opened Crc32

  type u64 = x: int | 0 <= x < 0x1_0000_0000_0000_0000

  datatype Hash = Hash(h1: u64, h2: u64)

  /** k = bits per key times ln 2, rounded, kept within 1 and 30. */
  function ProbesForBitsPerKey(bitsPerKey: int): (k: nat)
    ensures 1 <= k <= 30
    ensures k > 1 ==> k as real - 0.5 <= bitsPerKey as real * 0.6931471805599453
    ensures k < 30 ==> bitsPerKey as real * 0.6931471805599453 < k as real + 0.5
  {
    var k := (bitsPerKey as real * 0.6931471805599453 + 0.5).Floor;
    if k < 1 then 1 else if k > 30 then 30 else k
  }

  /** Bits of a filter over n keys: at least 64, a whole number of bytes. */
  function BitCount(n: nat, bitsPerKey: nat): (bits: nat)
    ensures bits >= 64 && bits % 8 == 0
    ensures bits >= n * bitsPerKey && (bits == 64 || bits < n * bitsPerKey + 8)
  {
    var bits := if n * bitsPerKey < 64 then 64 else n * bitsPerKey;
    (bits + 7) / 8 * 8
  }

  // ---- Bits --------------------------------------------------------------------------------------

  /** array[bit >> 3] & (1 << (bit & 7)) */
  predicate TestBit(a: Bytes, bit: nat)
    requires bit / 8 < |a|
  {
    ByteBits(a[bit / 8])[bit % 8]
  }

  /** array[bit >> 3] |= 1 << (bit & 7) */
  function SetBit(a: Bytes, bit: nat): (r: Bytes)
    requires bit / 8 < |a|
    ensures |r| == |a|
  {
    a[bit / 8 := BitsByte(ByteBits(a[bit / 8])[bit % 8 := true])]
  }

  /** Setting a bit sets that bit and no other, and clears none. */
  lemma SetBitTest(a: Bytes, bit: nat, other: nat)
    requires bit / 8 < |a| && other / 8 < |a|
    ensures TestBit(SetBit(a, bit), other) <==> other == bit || TestBit(a, other)
  {
    if other / 8 == bit / 8 && other % 8 == bit % 8 {
      assert other == bit;
    }
  }

  /** h1 + j * h2 in wrapping 64-bit arithmetic. */
  function Mixed(h: Hash, j: nat): u64 {
    (h.h1 + j * h.h2) % TWO_64
  }

  /** The j-th probe of a key: double hashing. */
  function Probe(h: Hash, j: nat, bits: nat): (bit: nat)
    requires bits > 0
    ensures bit < bits
  {
    Mixed(h, j) % bits
  }

  function SetProbes(a: Bytes, h: Hash, bits: nat, k: nat): (r: Bytes)
    requires 0 < bits <= 8 * |a|
    ensures |r| == |a|
  {
    if k == 0 then a else SetBit(SetProbes(a, h, bits, k - 1), Probe(h, k - 1, bits))
  }

  function SetKeys(a: Bytes, hs: seq<Hash>, bits: nat, k: nat): (r: Bytes)
    requires 0 < bits <= 8 * |a|
    ensures |r| == |a|
  {
    if hs == [] then a else SetProbes(SetKeys(a, hs[..|hs| - 1], bits, k), hs[|hs| - 1], bits, k)
  }

  /** The filter block: bit count, probe count, bit array. */
  function FilterBytes(hs: seq<Hash>, bitsPerKey: nat): (s: Bytes)
    ensures |s| >= 5
  {
    var bits := BitCount(|hs|, bitsPerKey);
    var k := ProbesForBitsPerKey(bitsPerKey);
    PutFixed32(bits) + [k] + SetKeys(seq(bits / 8, _ => 0), hs, bits, k)
  }

  // ---- Building ----------------------------------------------------------------------------------

  class BloomBuilder {
    const bitsPerKey: nat
    var hashes: seq<Hash>

    constructor (bitsPerKey: nat)
      ensures this.bitsPerKey == bitsPerKey && hashes == []
    {
      this.bitsPerKey := bitsPerKey;
      hashes := [];
    }

    method Add(key: Key, hash: Key -> Hash)
      modifies this
      ensures hashes == old(hashes) + [hash(key)]
    {
      hashes := hashes + [hash(key)];
    }

    /** Emit the filter and forget the keys. */
    method Finish() returns (out: Bytes)
      modifies this
      ensures out == FilterBytes(old(hashes), bitsPerKey) && hashes == []
    {
      var n := |hashes|;
      var k := ProbesForBitsPerKey(bitsPerKey);
      var bits := n * bitsPerKey;
      if bits < 64 {
        bits := 64;
      }
      var bytes := (bits + 7) / 8;
      bits := bytes * 8;
      assert bits == BitCount(n, bitsPerKey);
      out := PutFixed32(bits) + [k];
      var bitArray: Bytes := seq(bytes, _ => 0);
      ghost var zeros := bitArray;
      assert bytes == bits / 8;
      var i := 0;
      while i < n
        invariant 0 <= i <= n && hashes == old(hashes) && n == |hashes|
        invariant |bitArray| == bytes && bitArray == SetKeys(zeros, hashes[..i], bits, k)
      {
        bitArray := SetOne(bitArray, hashes[i], bits, k);
        assert hashes[..i + 1][..i] == hashes[..i];
        i := i + 1;
      }
      assert hashes[..n] == hashes;
      out := out + bitArray;
      hashes := [];
    }
  }

  /** The probe loop of one key. */
  method SetOne(a0: Bytes, h: Hash, bits: nat, k: nat) returns (bitArray: Bytes)
    requires 0 < bits <= 8 * |a0|
    ensures bitArray == SetProbes(a0, h, bits, k)
  {
    hide Mixed, SetBit;
    bitArray := a0;
    var a := h.h1;
    var j := 0;
    MixedStep(h, 0);
    while j < k
      invariant 0 <= j <= k && |bitArray| == |a0|
      invariant a == Mixed(h, j)
      invariant bitArray == SetProbes(a0, h, bits, j)
    {
      var bit := a % bits;
      bitArray := SetBit(bitArray, bit);
      MixedStep(h, j);
      a := (a + h.h2) % TWO_64;
      j := j + 1;
    }
  }

  lemma MixedStep(h: Hash, j: nat)
    ensures Mixed(h, 0) == h.h1
    ensures (Mixed(h, j) + h.h2) % TWO_64 == Mixed(h, j + 1)
  {
    assert 0 * h.h2 == 0;
    WrapStep(h.h1 + j * h.h2, h.h2);
    assert h.h1 + j * h.h2 + h.h2 == h.h1 + (j + 1) * h.h2;
  }

  lemma WrapStep(x: int, y: int)
    ensures (x % TWO_64 + y) % TWO_64 == (x + y) % TWO_64
  {
    var q := x / TWO_64;
    assert x + y == (x % TWO_64 + y) + q * TWO_64;
    var z := x % TWO_64 + y;
    ModUnique(x + y, TWO_64, z / TWO_64 + q, z % TWO_64);
  }

  // ---- Querying ----------------------------------------------------------------------------------

  /** A filter parsed from a filter block; no bits means it rules nothing out. */
  datatype Filter = Filter(numBits: nat, numProbes: nat, bits: Bytes)

  const NO_FILTER := Filter(0, 0, [])

  ghost predicate WellFormed(f: Filter) {
    f.numBits <= 8 * |f.bits|
  }

  function Reset(data: Bytes): (f: Filter)
    ensures WellFormed(f)
  {
    if |data| < 5 then
      NO_FILTER
    else
      var bits := DecodeFixed32(data);
      if bits == 0 || |data| < 5 + (bits + 7) % TWO_32 / 8 || 8 * |data[5..]| < bits then NO_FILTER
      else Filter(bits, data[4], data[5..])
  }

  predicate Passes(f: Filter, h: Hash, k: nat)
    requires WellFormed(f) && f.numBits > 0
  {
    forall j :: 0 <= j < k ==> TestBit(f.bits, Probe(h, j, f.numBits))
  }

  predicate MayContain(f: Filter, h: Hash)
    requires WellFormed(f)
  {
    f.numBits == 0 || Passes(f, h, f.numProbes)
  }

  method Query(f: Filter, key: Key, hash: Key -> Hash) returns (maybe: bool)
    requires WellFormed(f)
    ensures maybe == MayContain(f, hash(key))
  {
    if f.numBits == 0 {
      return true;
    }
    hide Mixed, TestBit;
    var h := hash(key);
    var a := h.h1;
    var j := 0;
    MixedStep(h, 0);
    while j < f.numProbes
      invariant 0 <= j <= f.numProbes
      invariant a == Mixed(h, j)
      invariant Passes(f, h, j)
    {
      var bit := a % f.numBits;
      assert bit == Probe(h, j, f.numBits);
      if !TestBit(f.bits, bit) {
        return false;
      }
      MixedStep(h, j);
      a := (a + h.h2) % TWO_64;
      j := j + 1;
    }
    return true;
  }

  // ---- No false negatives ------------------------------------------------------------------------

  ghost predicate ProbesSet(a: Bytes, h: Hash, bits: nat, k: nat)
    requires 0 < bits <= 8 * |a|
  {
    forall j :: 0 <= j < k ==> TestBit(a, Probe(h, j, bits))
  }

  /** Setting the probes of a key sets them all and clears no bit. */
  lemma {:induction false} SetProbesSets(a: Bytes, h: Hash, bits: nat, k: nat, other: nat)
    requires 0 < bits <= 8 * |a| && other < bits
    ensures ProbesSet(SetProbes(a, h, bits, k), h, bits, k)
    ensures TestBit(a, other) ==> TestBit(SetProbes(a, h, bits, k), other)
  {
    hide SetBit, TestBit, Probe;
    if k > 0 {
      var before, bit := SetProbes(a, h, bits, k - 1), Probe(h, k - 1, bits);
      SetProbesSets(a, h, bits, k - 1, other);
      SetBitTest(before, bit, other);
      SetBitTest(before, bit, bit);
      forall j | 0 <= j < k ensures TestBit(SetProbes(a, h, bits, k), Probe(h, j, bits)) {
        SetBitTest(before, bit, Probe(h, j, bits));
      }
    }
  }

  lemma {:induction false} SetKeysSets(a: Bytes, hs: seq<Hash>, bits: nat, k: nat, h: Hash)
    requires 0 < bits <= 8 * |a| && h in hs
    ensures ProbesSet(SetKeys(a, hs, bits, k), h, bits, k)
  {
    hide TestBit, Probe, SetProbes;
    var rest, last := hs[..|hs| - 1], hs[|hs| - 1];
    var before := SetKeys(a, rest, bits, k);
    SetProbesSets(before, last, bits, k, 0);
    if h != last {
      assert h in rest;
      SetKeysSets(a, rest, bits, k, h);
      forall j | 0 <= j < k ensures TestBit(SetProbes(before, last, bits, k), Probe(h, j, bits)) {
        SetProbesSets(before, last, bits, k, Probe(h, j, bits));
      }
    }
  }

  // ---- Exactly which keys pass -------------------------------------------------------------------

  /** Setting the probes of a key sets those bits and no others. */
  lemma {:induction false} SetProbesIs(a: Bytes, h: Hash, bits: nat, k: nat, b: nat)
    requires 0 < bits <= 8 * |a| && b < bits
    ensures TestBit(SetProbes(a, h, bits, k), b) <==>
      TestBit(a, b) || exists m :: 0 <= m < k && Probe(h, m, bits) == b
  {
    hide SetBit, TestBit, Probe;
    if k > 0 {
      SetProbesIs(a, h, bits, k - 1, b);
      SetBitTest(SetProbes(a, h, bits, k - 1), Probe(h, k - 1, bits), b);
    }
  }

  lemma {:induction false} SetKeysIs(a: Bytes, hs: seq<Hash>, bits: nat, k: nat, b: nat)
    requires 0 < bits <= 8 * |a| && b < bits
    ensures TestBit(SetKeys(a, hs, bits, k), b) <==>
      TestBit(a, b) || exists i, m :: 0 <= i < |hs| && 0 <= m < k && Probe(hs[i], m, bits) == b
  {
    hide TestBit, Probe, SetProbes;
    if hs != [] {
      var rest, last := hs[..|hs| - 1], hs[|hs| - 1];
      SetKeysIs(a, rest, bits, k, b);
      SetProbesIs(SetKeys(a, rest, bits, k), last, bits, k, b);
      assert hs[|hs| - 1] == last && forall i :: 0 <= i < |rest| ==> rest[i] == hs[i];
    }
  }

  /** Double hashing: h1 + j h2 in 64 bits, modulo the bit count. */
  function DoubleHash(h: Hash, j: nat, bits: nat): nat
    requires bits > 0
  {
    (h.h1 + j * h.h2) % TWO_64 % bits
  }

  lemma ProbeIs(h: Hash, j: nat, bits: nat)
    requires bits > 0
    ensures Probe(h, j, bits) == DoubleHash(h, j, bits)
  {
  }

  /** The bit is one that double hashing gives for an added key. */
  ghost predicate Hit(hs: seq<Hash>, bits: nat, k: nat, b: nat)
    requires bits > 0
  {
    exists i, m :: 0 <= i < |hs| && 0 <= m < k && DoubleHash(hs[i], m, bits) == b
  }

  lemma HitIs(hs: seq<Hash>, bits: nat, k: nat, b: nat)
    requires bits > 0
    ensures Hit(hs, bits, k, b) <==> exists i, m :: 0 <= i < |hs| && 0 <= m < k && Probe(hs[i], m, bits) == b
  {
    hide Probe, DoubleHash;
    forall i, m | 0 <= i < |hs| && 0 <= m < k ensures Probe(hs[i], m, bits) == DoubleHash(hs[i], m, bits) {
      ProbeIs(hs[i], m, bits);
    }
  }

  /** With a bit count that fits, a hash passes if and only if each of its places is a place of some added key. */
  lemma PassesIff(hs: seq<Hash>, bitsPerKey: nat, h: Hash)
    requires BitCount(|hs|, bitsPerKey) < TWO_32
    ensures var bits, k := BitCount(|hs|, bitsPerKey), ProbesForBitsPerKey(bitsPerKey);
      MayContain(Reset(FilterBytes(hs, bitsPerKey)), h) <==>
        forall j :: 0 <= j < k ==> Hit(hs, bits, k, DoubleHash(h, j, bits))
  {
    hide SetKeys, TestBit, FilterBytes, Reset, ProbesForBitsPerKey, BitCount, Probe, DoubleHash, Hit;
    var bits, k := BitCount(|hs|, bitsPerKey), ProbesForBitsPerKey(bitsPerKey);
    var zeros: Bytes := seq(bits / 8, _ => 0);
    var a := SetKeys(zeros, hs, bits, k);
    ResetBuilt(hs, bitsPerKey);
    forall j | 0 <= j < k ensures TestBit(a, Probe(h, j, bits)) <==> Hit(hs, bits, k, DoubleHash(h, j, bits)) {
      ProbeIs(h, j, bits);
      SetKeysIs(zeros, hs, bits, k, Probe(h, j, bits));
      ZeroClear(zeros, Probe(h, j, bits));
      HitIs(hs, bits, k, Probe(h, j, bits));
    }
  }

  /** What Reset makes of a built filter. */
  lemma ResetBuilt(hs: seq<Hash>, bitsPerKey: nat)
    ensures var bits := BitCount(|hs|, bitsPerKey);
      var k := ProbesForBitsPerKey(bitsPerKey);
      Reset(FilterBytes(hs, bitsPerKey)) ==
        if bits % TWO_32 == 0 then NO_FILTER
        else Filter(bits % TWO_32, k, SetKeys(seq(bits / 8, _ => 0), hs, bits, k))
  {
    hide PutFixed32, SetKeys, BitCount, ProbesForBitsPerKey, Reset;
    var bits, k := BitCount(|hs|, bitsPerKey), ProbesForBitsPerKey(bitsPerKey);
    var a := SetKeys(seq(bits / 8, _ => 0), hs, bits, k);
    assert FilterBytes(hs, bitsPerKey) == PutFixed32(bits) + [k] + a;
    ResetHeader(bits, k, a);
  }

  /** What Reset makes of a header and an array of bits. */
  lemma ResetHeader(bits: nat, k: byte, a: Bytes)
    requires bits % 8 == 0 && |a| == bits / 8
    ensures Reset(PutFixed32(bits) + [k] + a) ==
      if bits % TWO_32 == 0 then NO_FILTER else Filter(bits % TWO_32, k, a)
  {
    hide PutFixed32, DecodeFixed32;
    var data := PutFixed32(bits) + [k] + a;
    assert data == PutFixed32(bits) + ([k] + a);
    Fixed32RoundTrip(bits, [k] + a);
    assert data[4] == k && data[5..] == a;
    HeaderBits(bits);
  }

  lemma HeaderBits(bits: nat)
    requires bits % 8 == 0
    ensures var m := bits % TWO_32;
      m <= bits && m % 8 == 0 && (m + 7) % TWO_32 / 8 <= bits / 8
  {
    assert TWO_32 % 8 == 0;
  }

  /** Every added key passes, for every hash, when the bit count fits its header field. */
  lemma NoFalseNegatives(hs: seq<Hash>, bitsPerKey: nat, h: Hash)
    requires h in hs && BitCount(|hs|, bitsPerKey) < TWO_32
    ensures MayContain(Reset(FilterBytes(hs, bitsPerKey)), h)
  {
    hide SetKeys, TestBit, Probe, FilterBytes, Reset;
    var bits, k := BitCount(|hs|, bitsPerKey), ProbesForBitsPerKey(bitsPerKey);
    ResetBuilt(hs, bitsPerKey);
    SetKeysSets(seq(bits / 8, _ => 0), hs, bits, k, h);
  }

  function HashAll(keys: seq<Key>, hash: Key -> Hash): (hs: seq<Hash>)
    ensures |hs| == |keys|
    ensures forall i :: 0 <= i < |keys| ==> hs[i] == hash(keys[i])
  {
    seq(|keys|, i requires 0 <= i < |keys| => hash(keys[i]))
  }

  ghost predicate AllPass(keys: seq<Key>, bitsPerKey: nat, hash: Key -> Hash) {
    forall i :: 0 <= i < |keys| ==> MayContain(Reset(FilterBytes(HashAll(keys, hash), bitsPerKey)), hash(keys[i]))
  }

  ghost predicate NeverRulesOut(keys: seq<Key>, bitsPerKey: nat) {
    forall hash :: AllPass(keys, bitsPerKey, hash)
  }

  /** A filter over some keys never rules one of them out, whatever the hash, exactly when its bit count fits 32
  bits or is a multiple of 2^32 (which Reset takes for no filter at all). */
  lemma NeverRulesOutIff(keys: seq<Key>, bitsPerKey: nat)
    requires keys != []
    ensures NeverRulesOut(keys, bitsPerKey) <==>
      (BitCount(|keys|, bitsPerKey) < TWO_32 || BitCount(|keys|, bitsPerKey) % TWO_32 == 0)
  {
    hide AllPass;
    var bits := BitCount(|keys|, bitsPerKey);
    if bits < TWO_32 || bits % TWO_32 == 0 {
      forall hash: Key -> Hash ensures AllPass(keys, bitsPerKey, hash) {
        FittingFilterPasses(keys, bitsPerKey, hash);
      }
    } else {
      var h1: u64 := if bits <= TWO_64 then bits - 1 else 0xFFFF_FFFF_FFFF_FFFF;
      LargeResidue(bits, h1);
      FalseNegative(keys, bitsPerKey, Hash(h1, 0));
    }
  }

  lemma LargeResidue(bits: nat, h1: u64)
    requires bits > TWO_32 && (if bits <= TWO_64 then h1 == bits - 1 else h1 == 0xFFFF_FFFF_FFFF_FFFF)
    ensures h1 % bits >= TWO_32
  {
    ModUnique(h1, bits, 0, h1);
  }

  lemma FittingFilterPasses(keys: seq<Key>, bitsPerKey: nat, hash: Key -> Hash)
    requires BitCount(|keys|, bitsPerKey) < TWO_32 || BitCount(|keys|, bitsPerKey) % TWO_32 == 0
    ensures AllPass(keys, bitsPerKey, hash)
  {
    hide FilterBytes, Reset, MayContain;
    var hs := HashAll(keys, hash);
    forall i | 0 <= i < |keys| ensures MayContain(Reset(FilterBytes(hs, bitsPerKey)), hash(keys[i])) {
      if BitCount(|hs|, bitsPerKey) < TWO_32 {
        assert hs[i] in hs;
        NoFalseNegatives(hs, bitsPerKey, hash(keys[i]));
      } else {
        EmptyFilterPasses(hs, bitsPerKey, hash(keys[i]));
      }
    }
  }

  lemma EmptyFilterPasses(hs: seq<Hash>, bitsPerKey: nat, h: Hash)
    requires BitCount(|hs|, bitsPerKey) % TWO_32 == 0
    ensures MayContain(Reset(FilterBytes(hs, bitsPerKey)), h)
  {
    hide FilterBytes, Reset;
    ResetBuilt(hs, bitsPerKey);
  }

  /** A hash under which the one bit every key sets is not the bit a query looks at. */
  lemma FalseNegative(keys: seq<Key>, bitsPerKey: nat, h: Hash)
    requires keys != [] && BitCount(|keys|, bitsPerKey) > TWO_32 && BitCount(|keys|, bitsPerKey) % TWO_32 != 0
    requires h.h2 == 0 && h.h1 % BitCount(|keys|, bitsPerKey) >= TWO_32
    ensures !NeverRulesOut(keys, bitsPerKey)
  {
    hide FilterBytes, Reset, SetKeys, MayContain;
    var hash: Key -> Hash := _ => h;
    var hs := HashAll(keys, hash);
    MissedBit(hs, bitsPerKey, h);
    assert !AllPass(keys, bitsPerKey, hash) by {
      assert !MayContain(Reset(FilterBytes(HashAll(keys, hash), bitsPerKey)), hash(keys[0]));
    }
  }

  lemma FirstProbe(h: Hash, bits: nat)
    requires bits > 0
    ensures Probe(h, 0, bits) == h.h1 % bits
  {
    assert 0 * h.h2 == 0;
  }

  lemma MissedBit(hs: seq<Hash>, bitsPerKey: nat, h: Hash)
    requires BitCount(|hs|, bitsPerKey) > TWO_32 && BitCount(|hs|, bitsPerKey) % TWO_32 != 0
    requires h.h2 == 0 && h.h1 % BitCount(|hs|, bitsPerKey) >= TWO_32
    requires forall i :: 0 <= i < |hs| ==> hs[i] == h
    ensures !MayContain(Reset(FilterBytes(hs, bitsPerKey)), h)
  {
    hide FilterBytes, Reset, SetKeys, TestBit, BitCount, ProbesForBitsPerKey;
    var bits, k := BitCount(|hs|, bitsPerKey), ProbesForBitsPerKey(bitsPerKey);
    ResetBuilt(hs, bitsPerKey);
    var m := bits % TWO_32;
    var bit := h.h1 % m;
    var zeros: Bytes := seq(bits / 8, _ => 0);
    OnlyBitSet(zeros, hs, bits, k, h, bit);
    ZeroClear(zeros, bit);
    FirstProbe(h, m);
    assert !Passes(Reset(FilterBytes(hs, bitsPerKey)), h, k);
  }

  lemma ZeroClear(zeros: Bytes, bit: nat)
    requires bit / 8 < |zeros| && zeros[bit / 8] == 0
    ensures !TestBit(zeros, bit)
  {
    ZeroBit(bit % 8);
  }

  lemma {:induction false} ZeroBit(i: nat)
    ensures !Bit(0, i)
    decreases i
  {
    if i > 0 {
      ZeroBit(i - 1);
    }
  }

  lemma {:induction false} OnlyBitSet(a: Bytes, hs: seq<Hash>, bits: nat, k: nat, h: Hash, other: nat)
    requires 0 < bits <= 8 * |a| && other < bits && h.h2 == 0 && other != h.h1 % bits
    requires forall i :: 0 <= i < |hs| ==> hs[i] == h
    ensures TestBit(SetKeys(a, hs, bits, k), other) == TestBit(a, other)
  {
    hide TestBit, SetProbes;
    if hs != [] {
      var rest := hs[..|hs| - 1];
      OnlyBitSet(a, rest, bits, k, h, other);
      OnlyProbeSet(SetKeys(a, rest, bits, k), h, bits, k, other);
    }
  }

  /** Without a second hash all probes are one. */
  lemma ProbeAlone(h: Hash, j: nat, bits: nat)
    requires bits > 0 && h.h2 == 0
    ensures Probe(h, j, bits) == h.h1 % bits
  {
    assert j * h.h2 == 0;
  }

  lemma {:induction false} OnlyProbeSet(a: Bytes, h: Hash, bits: nat, k: nat, other: nat)
    requires 0 < bits <= 8 * |a| && other < bits && h.h2 == 0 && other != h.h1 % bits
    ensures TestBit(SetProbes(a, h, bits, k), other) == TestBit(a, other)
  {
    hide TestBit, SetBit, Probe;
    if k > 0 {
      OnlyProbeSet(a, h, bits, k - 1, other);
      ProbeAlone(h, k - 1, bits);
      SetBitTest(SetProbes(a, h, bits, k - 1), h.h1 % bits, other);
    }
  }
}
