/** Little-endian fixed-width integers and length-prefixed strings (include/lsmdb/coding.h). */
module Coding {
  import opened Keys

  const TWO_32: int := 0x1_0000_0000
  const TWO_64: int := 0x1_0000_0000_0000_0000

  function Pow256(n: nat): (p: nat)
    ensures p > 0
  {
    if n == 0 then 1 else 256 * Pow256(n - 1)
  }

  /** The low n bytes of v, least significant first. */
  function PutFixed(v: nat, n: nat): (s: Bytes)
    ensures |s| == n
  {
    if n == 0 then [] else [v % 256] + PutFixed(v / 256, n - 1)
  }

  function DecodeFixed(s: Bytes): (v: nat)
    ensures v < Pow256(|s|)
  {
    if s == [] then 0 else (s[0] as int) + 256 * DecodeFixed(s[1..])
  }

  /** A v that does not fit is truncated, as the source's cast to uint32_t does. */
  function PutFixed32(v: nat): (s: Bytes)
    ensures |s| == 4
  {
    PutFixed(v, 4)
  }

  function DecodeFixed32(s: Bytes): (v: nat)
    requires |s| >= 4
    ensures v < TWO_32
  {
    PowValues();
    DecodeFixed(s[..4])
  }

  function PutFixed64(v: nat): (s: Bytes)
    ensures |s| == 8
  {
    PutFixed(v, 8)
  }

  function DecodeFixed64(s: Bytes): (v: nat)
    requires |s| >= 8
    ensures v < TWO_64
  {
    PowValues();
    DecodeFixed(s[..8])
  }

  function PutLengthPrefixed(s: Bytes): (r: Bytes)
    ensures |r| == 4 + |s|
  {
    PutFixed32(|s|) + s
  }

  lemma PowValues()
    ensures Pow256(4) == TWO_32 && Pow256(8) == TWO_64
  {
    assert Pow256(2) == 0x1_0000;
    assert Pow256(4) == 0x1_0000_0000;
    assert Pow256(6) == 0x1_0000_0000_0000;
  }

  lemma {:induction false} FixedRoundTrip(v: nat, n: nat)
    ensures DecodeFixed(PutFixed(v, n)) == v % Pow256(n)
  {
    if n > 0 {
      FixedRoundTrip(v / 256, n - 1);
      assert PutFixed(v, n)[1..] == PutFixed(v / 256, n - 1);
      ModStep(v, Pow256(n - 1));
    }
  }

  lemma ModStep(v: nat, p: nat)
    requires p > 0
    ensures v % 256 + 256 * (v / 256 % p) == v % (256 * p)
  {
    var q, r := v / 256 / p, v / 256 % p;
    assert v / 256 == q * p + r;
    assert v == 256 * (q * p + r) + v % 256 == q * (256 * p) + (256 * r + v % 256);
    ModUnique(v, 256 * p, q, 256 * r + v % 256);
  }

  lemma ModUnique(v: int, d: int, q: int, r: int)
    requires 0 <= r < d
    requires v == q * d + r
    ensures v % d == r
  {
    QuotientUnique(d, q, r, v / d, v % d);
  }

  lemma QuotientUnique(d: int, q: int, r: int, q': int, r': int)
    requires 0 <= r < d && 0 <= r' < d
    requires q * d + r == q' * d + r'
    ensures r == r'
  {
    if q > q' {
      ProductAtLeast(q - q', d);
    } else if q < q' {
      ProductAtLeast(q' - q, d);
    }
  }

  lemma ProductAtLeast(k: int, d: int)
    requires k >= 1 && d > 0
    ensures k * d >= d
  {
    assert (k - 1) * d >= 0;
  }

  lemma DigitSplit(low: byte, rest: nat)
    ensures (low + 256 * rest) % 256 == low && (low + 256 * rest) / 256 == rest
  {
  }

  /** Bytes are the encoding of the number they decode to. */
  lemma {:induction false} FixedInverse(s: Bytes)
    ensures PutFixed(DecodeFixed(s), |s|) == s
  {
    if s != [] {
      FixedInverse(s[1..]);
      var rest := DecodeFixed(s[1..]);
      DigitSplit(s[0], rest);
      assert s == [s[0]] + s[1..];
    }
  }

  lemma FourBytes(s: Bytes)
    requires |s| == 4
    ensures DecodeFixed(s) == s[0] as int + 0x100 * s[1] as int + 0x1_0000 * s[2] as int + 0x100_0000 * s[3] as int
  {
    assert s[1..][1..] == s[2..] && s[2..][1..] == s[3..] && s[3..][1..] == [];
    assert DecodeFixed(s[3..]) == s[3];
    assert DecodeFixed(s[2..]) == s[2] as int + 0x100 * s[3] as int;
    assert DecodeFixed(s[1..]) == s[1] as int + 0x100 * s[2] as int + 0x1_0000 * s[3] as int;
  }

  lemma Fixed32RoundTrip(v: nat, rest: Bytes)
    ensures DecodeFixed32(PutFixed32(v) + rest) == v % TWO_32
  {
    PowValues();
    FixedRoundTrip(v, 4);
    assert (PutFixed32(v) + rest)[..4] == PutFixed32(v);
  }

  lemma Fixed64RoundTrip(v: nat, rest: Bytes)
    ensures DecodeFixed64(PutFixed64(v) + rest) == v % TWO_64
  {
    PowValues();
    FixedRoundTrip(v, 8);
    assert (PutFixed64(v) + rest)[..8] == PutFixed64(v);
  }

  lemma Fixed32Inverse(s: Bytes)
    requires |s| >= 4
    ensures PutFixed32(DecodeFixed32(s)) == s[..4]
  {
    FixedInverse(s[..4]);
  }

  lemma Fixed64Inverse(s: Bytes)
    requires |s| >= 8
    ensures PutFixed64(DecodeFixed64(s)) == s[..8]
  {
    FixedInverse(s[..8]);
  }
}
