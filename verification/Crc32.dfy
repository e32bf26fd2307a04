/** CRC-32 of IEEE 802.3: the table-driven form, the bit-serial form it equals, and what it detects.

A uint32_t is the sequence of its 32 bits, lowest bit first, so that `c >> 8` is `c[8..]` filled up with
zeros and `c & 1` is `c[0]`. */
module Crc32 {
  import opened Keys
  import opened Coding

  type Bits = seq<bool>

  // ---- Bit strings -------------------------------------------------------------------------------

  /** Bit i of v. */
  predicate Bit(v: nat, i: nat)
    decreases i
  {
    if i == 0 then v % 2 == 1 else Bit(v / 2, i - 1)
  }

  function LowBits(v: nat, n: nat): (s: Bits)
    ensures |s| == n
  {
    seq(n, i requires 0 <= i < n => Bit(v, i))
  }

  function FromBits(s: Bits): nat {
    if s == [] then 0 else (if s[0] then 1 else 0) + 2 * FromBits(s[1..])
  }

  function ByteBits(b: byte): (s: Bits)
    ensures |s| == 8
  {
    LowBits(b, 8)
  }

  function BitsByte(s: Bits): (b: byte)
    requires |s| == 8
    ensures ByteBits(b) == s
  {
    FromBitsBelow(s);
    FromBitsInverse(s);
    FromBits(s)
  }

  ghost function Pow2(n: nat): (p: nat)
    ensures p > 0
  {
    if n == 0 then 1 else 2 * Pow2(n - 1)
  }

  lemma {:induction false} FromBitsBelow(s: Bits)
    ensures FromBits(s) < Pow2(|s|)
    ensures Pow2(8) == 256
  {
    if s != [] {
      FromBitsBelow(s[1..]);
    }
  }

  lemma {:induction false} FromBitsInverse(s: Bits)
    ensures LowBits(FromBits(s), |s|) == s
  {
    if s != [] {
      FromBitsInverse(s[1..]);
      forall i | 0 < i < |s| ensures Bit(FromBits(s), i) == s[i] {
        assert LowBits(FromBits(s[1..]), |s| - 1)[i - 1] == s[1..][i - 1];
      }
    }
  }

  lemma {:induction false} LowBitsInverse(v: nat, n: nat)
    requires v < Pow2(n)
    ensures FromBits(LowBits(v, n)) == v
    decreases n
  {
    if n > 0 {
      LowBitsInverse(v / 2, n - 1);
      assert LowBits(v, n)[1..] == LowBits(v / 2, n - 1);
    }
  }

  /** The bits of a message in transmission order: bytes in turn, each lowest bit first. */
  function MessageBits(data: Bytes): (s: Bits)
    ensures |s| == 8 * |data|
  {
    if data == [] then [] else ByteBits(data[0]) + MessageBits(data[1..])
  }

  function Zeros(n: nat): (s: Bits)
    ensures |s| == n
  {
    seq(n, _ => false)
  }

  function Xor(a: Bits, b: Bits): (s: Bits)
    requires |a| == |b|
    ensures |s| == |a|
  {
    seq(|a|, i requires 0 <= i < |a| => a[i] != b[i])
  }

  /** A bit string of at most 32 bits as a 32-bit word. */
  function Pad(s: Bits): (w: Bits)
    requires |s| <= 32
    ensures |w| == 32
  {
    s + Zeros(32 - |s|)
  }

  // ---- Bit-serial reference ----------------------------------------------------------------------

  /** The generator polynomial 0xEDB88320, low byte first. The top bit is the one that makes a shift reversible. */
  function Generator(): (g: Bits)
    ensures |g| == 32 && g[31]
  {
    assert Bit(0xED, 7);
    ByteBits(0x20) + ByteBits(0x83) + ByteBits(0xB8) + ByteBits(0xED)
  }

  /** One step of the reflected division register for generator g. */
  function Shift(g: Bits, c: Bits): (r: Bits)
    requires |g| == |c| == 32
    ensures |r| == 32
  {
    if c[0] then Xor(g, c[1..] + [false]) else c[1..] + [false]
  }

  /** Divide a message into register c one bit at a time. */
  function Divide(g: Bits, c: Bits, message: Bits): (r: Bits)
    requires |g| == |c| == 32
    ensures |r| == 32
    decreases |message|
  {
    if message == [] then c else Divide(g, Shift(g, c[0 := c[0] != message[0]]), message[1..])
  }

  function Ones(): (s: Bits)
    ensures |s| == 32
  {
    seq(32, _ => true)
  }

  /** A register as its four bytes, low byte first. */
  function Image(c: Bits): (s: Bytes)
    requires |c| == 32
    ensures |s| == 4
  {
    [BitsByte(c[..8]), BitsByte(c[8..16]), BitsByte(c[16..24]), BitsByte(c[24..])]
  }

  /** The checksum by definition: complement of the bit-serial remainder from an all-ones register. */
  function Checksum(data: Bytes): (v: nat)
    ensures v < TWO_32
  {
    DecodeFixed32(Image(Xor(Divide(Generator(), Ones(), MessageBits(data)), Ones())))
  }

  lemma BitsByteInverse(b: byte)
    ensures BitsByte(ByteBits(b)) == b
  {
    FromBitsBelow([]);
    LowBitsInverse(b, 8);
  }

  // ---- The table-driven form ---------------------------------------------------------------------

  /** The table entry for index i: its eight bits shifted through the register. */
  function TableEntry(g: Bits, i: byte): (r: Bits)
    requires |g| == 32
    ensures |r| == 32
  {
    Divide(g, Pad(ByteBits(i)), Zeros(8))
  }

  method BuildTable(g: Bits) returns (entries: seq<Bits>)
    requires |g| == 32
    ensures |entries| == 256
    ensures forall i :: 0 <= i < 256 ==> entries[i] == TableEntry(g, i)
  {
    hide TableEntry;
    var table := new Bits[256](_ => []);
    ghost var done: seq<Bits> := [];
    var i := 0;
    while i < 256
      invariant 0 <= i <= 256
      invariant table[..i] == done
      invariant |done| == i
      invariant forall j :: 0 <= j < i ==> done[j] == TableEntry(g, j)
    {
      var entry := BuildEntry(g, i);
      table[i] := entry;
      done := done + [entry];
      i := i + 1;
    }
    entries := table[..];
  }

  method BuildEntry(g: Bits, i: byte) returns (c: Bits)
    requires |g| == 32
    ensures c == TableEntry(g, i)
  {
    c := Pad(ByteBits(i));
    ghost var goal := Divide(g, c, Zeros(8));
    var k := 0;
    while k < 8
      invariant 0 <= k <= 8
      invariant |c| == 32
      invariant Divide(g, c, Zeros(8 - k)) == goal
    {
      ZeroStep(g, c, 8 - k);
      c := if c[0] then Xor(g, c[1..] + [false]) else c[1..] + [false];
      k := k + 1;
    }
  }

  lemma ZeroStep(g: Bits, c: Bits, n: nat)
    requires |g| == |c| == 32 && n > 0
    ensures Divide(g, c, Zeros(n)) == Divide(g, Shift(g, c), Zeros(n - 1))
  {
    assert Zeros(n)[1..] == Zeros(n - 1);
    assert c[0 := c[0] != false] == c;
  }

  /** The table loop divides a message byte by byte exactly as the register does bit by bit. */
  method Remainder(g: Bits, data: Bytes) returns (crc: Bits)
    requires |g| == 32
    ensures crc == Divide(g, Ones(), MessageBits(data))
  {
    var table := BuildTable(g);
    crc := Ones();
    ghost var goal := Divide(g, crc, MessageBits(data));
    var i := 0;
    while i < |data|
      invariant 0 <= i <= |data|
      invariant |crc| == 32
      invariant Divide(g, crc, MessageBits(data[i..])) == goal
    {
      TableStep(g, crc, data[i..]);
      assert data[i..][1..] == data[i + 1..];
      var index := BitsByte(Xor(crc[..8], ByteBits(data[i])));
      crc := Xor(table[index], crc[8..] + Zeros(8));
      i := i + 1;
    }
    assert data[i..] == [];
  }

  method Compute(data: Bytes) returns (v: nat)
    ensures v == Checksum(data)
  {
    var crc := Remainder(Generator(), data);
    v := DecodeFixed32(Image(Xor(crc, Ones())));
  }

  lemma {:induction false} DivideAppend(g: Bits, c: Bits, m: Bits, n: Bits)
    requires |g| == |c| == 32
    ensures Divide(g, c, m + n) == Divide(g, Divide(g, c, m), n)
    decreases |m|
  {
    if m == [] {
      assert m + n == n;
    } else {
      assert (m + n)[1..] == m[1..] + n;
      DivideAppend(g, Shift(g, c[0 := c[0] != m[0]]), m[1..], n);
    }
  }

  // ---- Linearity ---------------------------------------------------------------------------------

  lemma ShiftLinear(g: Bits, a: Bits, b: Bits)
    requires |g| == |a| == |b| == 32
    ensures Shift(g, Xor(a, b)) == Xor(Shift(g, a), Shift(g, b))
  {
  }

  lemma {:induction false} DivideLinear(g: Bits, a: Bits, b: Bits, m: Bits, n: Bits)
    requires |g| == |a| == |b| == 32 && |m| == |n|
    ensures Divide(g, Xor(a, b), Xor(m, n)) == Xor(Divide(g, a, m), Divide(g, b, n))
    decreases |m|
  {
    if m != [] {
      var a', b' := a[0 := a[0] != m[0]], b[0 := b[0] != n[0]];
      var x := Xor(a, b);
      assert x[0 := x[0] != Xor(m, n)[0]] == Xor(a', b');
      ShiftLinear(g, a', b');
      assert Xor(m, n)[1..] == Xor(m[1..], n[1..]);
      DivideLinear(g, Shift(g, a'), Shift(g, b'), m[1..], n[1..]);
    }
  }

  lemma ShiftPad(g: Bits, m: Bits)
    requires |g| == 32 && |m| < 32
    ensures Shift(g, Pad([false] + m)) == Pad(m)
  {
  }

  /** A zero bit of the message only shifts the register. */
  lemma ZeroShifts(g: Bits, c: Bits, k: nat)
    requires |g| == |c| == 32 && k > 0
    ensures Divide(g, c, Zeros(k)) == Divide(g, Shift(g, c), Zeros(k - 1))
  {
    hide Shift;
    assert c[0 := c[0] != false] == c;
    assert Zeros(k)[1..] == Zeros(k - 1);
  }

  /** Feeding bits one at a time is xoring them all in and then shifting in zeros. */
  lemma {:induction false} DivideIsShifts(g: Bits, c: Bits, m: Bits)
    requires |g| == |c| == 32 && |m| <= 32
    ensures Divide(g, c, m) == Divide(g, Xor(c, Pad(m)), Zeros(|m|))
    decreases |m|
  {
    if m == [] {
      assert Xor(c, Pad(m)) == c;
    } else {
      var c' := c[0 := c[0] != m[0]];
      var rest := Pad([false] + m[1..]);
      assert Xor(c, Pad(m)) == Xor(c', rest);
      ShiftLinear(g, c', rest);
      ShiftPad(g, m[1..]);
      DivideIsShifts(g, Shift(g, c'), m[1..]);
      ZeroShifts(g, Xor(c, Pad(m)), |m|);
    }
  }

  /** Low zero bits are only moved out. */
  lemma {:induction false} ZerosMoveOut(g: Bits, high: Bits, k: nat, n: nat)
    requires |g| == 32 && |high| + k + n == 32
    ensures Divide(g, Zeros(k) + high + Zeros(n), Zeros(k)) == high + Zeros(n + k)
    decreases k
  {
    hide Shift;
    var c := Zeros(k) + high + Zeros(n);
    if k == 0 {
      assert c == high + Zeros(n);
    } else {
      ZeroShifts(g, c, k);
      LowZeroShifts(g, high, k, n);
      ZerosMoveOut(g, high, k - 1, n + 1);
    }
  }

  lemma LowZeroShifts(g: Bits, high: Bits, k: nat, n: nat)
    requires |g| == 32 && |high| + k + n == 32 && k > 0
    ensures Shift(g, Zeros(k) + high + Zeros(n)) == Zeros(k - 1) + high + Zeros(n + 1)
  {
  }

  /** Eight message bits at once: the low byte of the register picks the table entry. */
  lemma ByteAtOnce(g: Bits, c: Bits, m: Bits, zeros: Bits)
    requires |g| == |c| == 32 && |m| == 8 && zeros == Zeros(|m|)
    ensures Divide(g, c, m) == Xor(Divide(g, Pad(Xor(c[..8], m)), zeros), c[8..] + zeros)
  {
    DivideIsShifts(g, c, m);
    var low, high := Pad(Xor(c[..8], m)), zeros + c[8..] + Zeros(0);
    assert Xor(c, Pad(m)) == Xor(low, high);
    DivideLinear(g, low, high, zeros, zeros);
    assert Xor(zeros, zeros) == zeros;
    ZerosMoveOut(g, c[8..], |m|, 0);
  }

  lemma TableStep(g: Bits, c: Bits, data: Bytes)
    requires |g| == |c| == 32 && data != []
    ensures var c' := Xor(TableEntry(g, BitsByte(Xor(c[..8], ByteBits(data[0])))), c[8..] + Zeros(8));
      Divide(g, c, MessageBits(data)) == Divide(g, c', MessageBits(data[1..]))
  {
    var m := ByteBits(data[0]);
    ByteAtOnce(g, c, m, Zeros(8));
    DivideAppend(g, c, m, MessageBits(data[1..]));
  }

  // ---- What the checksum detects -----------------------------------------------------------------

  lemma ShiftInjective(g: Bits, a: Bits, b: Bits)
    requires |g| == |a| == |b| == 32 && g[31]
    requires Shift(g, a) == Shift(g, b)
    ensures a == b
  {
    assert Shift(g, a)[31] == a[0] && Shift(g, b)[31] == b[0];
    forall i | 0 < i < 32 ensures a[i] == b[i] {
      assert Shift(g, a)[i - 1] == (a[i] != (a[0] && g[i - 1]));
      assert Shift(g, b)[i - 1] == (b[i] != (b[0] && g[i - 1]));
    }
  }

  /** Whatever follows, two different registers stay different. */
  lemma {:induction false} DivideInjective(g: Bits, a: Bits, b: Bits, m: Bits)
    requires |g| == |a| == |b| == 32 && g[31]
    requires Divide(g, a, m) == Divide(g, b, m)
    ensures a == b
    decreases |m|
  {
    if m != [] {
      var a', b' := a[0 := a[0] != m[0]], b[0 := b[0] != m[0]];
      DivideInjective(g, Shift(g, a'), Shift(g, b'), m[1..]);
      ShiftInjective(g, a', b');
      assert a == a'[0 := a'[0] != m[0]] && b == b'[0 := b'[0] != m[0]];
    }
  }

  /** Two different messages of at most 32 bits drive a register to different states. */
  lemma WindowInjective(g: Bits, c: Bits, m: Bits, n: Bits)
    requires |g| == |c| == 32 && g[31] && |m| == |n| <= 32
    requires Divide(g, c, m) == Divide(g, c, n)
    ensures m == n
  {
    DivideIsShifts(g, c, m);
    DivideIsShifts(g, c, n);
    var x, y := Xor(c, Pad(m)), Xor(c, Pad(n));
    DivideInjective(g, x, y, Zeros(|m|));
    forall i | 0 <= i < |m| ensures m[i] == n[i] {
      assert x[i] == (c[i] != m[i]) && y[i] == (c[i] != n[i]);
    }
  }

  lemma {:induction false} MessageBitsAppend(a: Bytes, b: Bytes)
    ensures MessageBits(a + b) == MessageBits(a) + MessageBits(b)
  {
    if a == [] {
      assert a + b == b;
    } else {
      assert (a + b)[1..] == a[1..] + b;
      MessageBitsAppend(a[1..], b);
    }
  }

  lemma {:induction false} MessageBitsInjective(a: Bytes, b: Bytes)
    requires |a| == |b| && MessageBits(a) == MessageBits(b)
    ensures a == b
  {
    if a != [] {
      assert ByteBits(a[0]) == MessageBits(a)[..8] == MessageBits(b)[..8] == ByteBits(b[0]);
      assert MessageBits(a[1..]) == MessageBits(a)[8..] == MessageBits(b)[8..] == MessageBits(b[1..]);
      BitsByteInverse(a[0]);
      BitsByteInverse(b[0]);
      MessageBitsInjective(a[1..], b[1..]);
    }
  }

  lemma ImageBits(c: Bits)
    requires |c| == 32
    ensures MessageBits(Image(c)) == c
  {
    var s := Image(c);
    assert s == s[..2] + s[2..];
    MessageBitsAppend(s[..2], s[2..]);
    TwoBytes(s[..2]);
    TwoBytes(s[2..]);
    assert c == c[..8] + c[8..16] + (c[16..24] + c[24..]);
  }

  lemma TwoBytes(s: Bytes)
    requires |s| == 2
    ensures MessageBits(s) == ByteBits(s[0]) + ByteBits(s[1])
  {
    assert s[1..][1..] == [];
    assert MessageBits(s[1..]) == ByteBits(s[1]) + [];
  }

  /** Damage confined to four consecutive bytes: the strings agree outside [at, at + 4). */
  predicate DiffersWithin(a: Bytes, b: Bytes, at: nat) {
    |a| == |b| && a != b && forall j :: 0 <= j < |a| && (j < at || at + 4 <= j) ==> a[j] == b[j]
  }

  /** Such damage always changes the register, wherever it is and whatever follows it. */
  lemma BurstChangesRegister(a: Bytes, b: Bytes, at: nat)
    requires DiffersWithin(a, b, at)
    ensures Divide(Generator(), Ones(), MessageBits(a)) != Divide(Generator(), Ones(), MessageBits(b))
  {
    hide Divide, MessageBits;
    var n := |a|;
    var lo := if at < n then at else n;
    var hi := if at + 4 < n then at + 4 else n;
    BurstParts(a, b, lo, hi);
    BurstInMiddle(Generator(), Ones(), a[..lo], a[lo..hi], b[lo..hi], a[hi..]);
  }

  /** Two strings that differ between two places only, taken apart there. */
  lemma BurstParts(a: Bytes, b: Bytes, lo: nat, hi: nat)
    requires |a| == |b| && lo <= hi <= |a| && a != b
    requires forall j :: 0 <= j < |a| && (j < lo || hi <= j) ==> a[j] == b[j]
    ensures a == a[..lo] + a[lo..hi] + a[hi..] && b == a[..lo] + b[lo..hi] + a[hi..] && a[lo..hi] != b[lo..hi]
  {
    assert a[..lo] == b[..lo] && a[hi..] == b[hi..];
    assert a == a[..lo] + a[lo..hi] + a[hi..];
    assert b == b[..lo] + b[lo..hi] + b[hi..];
  }

  lemma BurstInMiddle(g: Bits, c: Bits, pre: Bytes, w: Bytes, w': Bytes, tail: Bytes)
    requires |g| == |c| == 32 && g[31]
    requires |w| == |w'| <= 4 && w != w'
    ensures Divide(g, c, MessageBits(pre + w + tail)) != Divide(g, c, MessageBits(pre + w' + tail))
  {
    hide Divide, MessageBits;
    SplitDivide(g, c, pre, w, tail);
    SplitDivide(g, c, pre, w', tail);
    var s := Divide(g, c, MessageBits(pre));
    var x, y := Divide(g, s, MessageBits(w)), Divide(g, s, MessageBits(w'));
    if Divide(g, x, MessageBits(tail)) == Divide(g, y, MessageBits(tail)) {
      DivideInjective(g, x, y, MessageBits(tail));
      WindowInjective(g, s, MessageBits(w), MessageBits(w'));
      MessageBitsInjective(w, w');
    }
  }

  lemma SplitDivide(g: Bits, c: Bits, pre: Bytes, w: Bytes, tail: Bytes)
    requires |g| == |c| == 32
    ensures Divide(g, c, MessageBits(pre + w + tail))
         == Divide(g, Divide(g, Divide(g, c, MessageBits(pre)), MessageBits(w)), MessageBits(tail))
  {
    hide Divide, MessageBits;
    MessageBitsAppend(pre + w, tail);
    MessageBitsAppend(pre, w);
    DivideAppend(g, c, MessageBits(pre + w), MessageBits(tail));
    DivideAppend(g, c, MessageBits(pre), MessageBits(w));
  }

  /** Equal-length messages that differ only within four consecutive bytes have different checksums. */
  lemma BurstChangesChecksum(a: Bytes, b: Bytes, at: nat)
    requires DiffersWithin(a, b, at)
    ensures Checksum(a) != Checksum(b)
  {
    BurstChangesRegister(a, b, at);
    var x, y := Divide(Generator(), Ones(), MessageBits(a)), Divide(Generator(), Ones(), MessageBits(b));
    ComplementInjective(x, y);
    if Checksum(a) == Checksum(b) {
      NumberInjective(Xor(x, Ones()), Xor(y, Ones()));
    }
  }

  lemma ComplementInjective(x: Bits, y: Bits)
    requires |x| == |y| == 32
    ensures Xor(x, Ones()) == Xor(y, Ones()) ==> x == y
  {
    assert forall i :: 0 <= i < 32 ==> Xor(x, Ones())[i] == !x[i] && Xor(y, Ones())[i] == !y[i];
  }

  lemma NumberInjective(x: Bits, y: Bits)
    requires |x| == |y| == 32 && DecodeFixed32(Image(x)) == DecodeFixed32(Image(y))
    ensures x == y
  {
    PutNumber(x);
    PutNumber(y);
    ImageBits(x);
    ImageBits(y);
  }

  lemma PutNumber(x: Bits)
    requires |x| == 32
    ensures PutFixed32(DecodeFixed32(Image(x))) == Image(x)
  {
    assert Image(x)[..4] == Image(x);
    FixedInverse(Image(x));
  }

  /** A block followed by its stored checksum, as it lies in a file, passes the reader's test. */
  predicate Accepted(code: Bytes)
    requires |code| >= 4
  {
    DecodeFixed32(code[|code| - 4..]) == Checksum(code[..|code| - 4])
  }

  /** The test looks at the whole string at once: it passes exactly when dividing the data and the stored
  checksum together leaves the fixed residue. */
  lemma ResidueTest(code: Bytes)
    requires |code| >= 4
    ensures Accepted(code) <==>
      Divide(Generator(), Ones(), MessageBits(code)) == Divide(Generator(), Ones(), Zeros(32))
  {
    var g := Generator();
    var data, stored := code[..|code| - 4], code[|code| - 4..];
    assert code == data + stored;
    MessageBitsAppend(data, stored);
    DivideAppend(g, Ones(), MessageBits(data), MessageBits(stored));
    var s := Divide(g, Ones(), MessageBits(data));
    StoredTest(s, stored);
    var m := MessageBits(stored);
    DivideIsShifts(g, s, m);
    assert Pad(m) == m;
    if Divide(g, Xor(s, m), Zeros(32)) == Divide(g, Ones(), Zeros(32)) {
      DivideInjective(g, Xor(s, m), Ones(), Zeros(32));
    }
  }

  lemma StoredTest(s: Bits, stored: Bytes)
    requires |s| == 32 && |stored| == 4
    ensures DecodeFixed32(stored) == DecodeFixed32(Image(Xor(s, Ones()))) <==> Xor(s, MessageBits(stored)) == Ones()
  {
    var x := Xor(s, Ones());
    var m := MessageBits(stored);
    assert stored[..4] == stored;
    FixedInverse(stored);
    PutNumber(x);
    ImageBits(x);
    assert Xor(s, x) == Ones();
    if Xor(s, m) == Ones() {
      assert forall i :: 0 <= i < 32 ==> Xor(s, m)[i] == (s[i] != m[i]) && x[i] == !s[i];
      assert m == x;
      MessageBitsInjective(stored, Image(x));
    }
  }

  /** Damage within any four consecutive bytes of a block together with its stored checksum is rejected. */
  lemma BurstRejected(code: Bytes, damaged: Bytes, at: nat)
    requires |code| >= 4 && DiffersWithin(code, damaged, at)
    requires Accepted(code)
    ensures !Accepted(damaged)
  {
    ResidueTest(code);
    ResidueTest(damaged);
    BurstChangesRegister(code, damaged, at);
  }

  // ---- Two check values --------------------------------------------------------------------------

  lemma {:induction false} ComplementBits(v: nat, n: nat, i: nat)
    requires v < Pow2(n) && i < n
    ensures Bit(Pow2(n) - 1 - v, i) != Bit(v, i)
    decreases n
  {
    if i > 0 {
      assert (Pow2(n) - 1 - v) / 2 == Pow2(n - 1) - 1 - v / 2;
      ComplementBits(v / 2, n - 1, i - 1);
    }
  }

  lemma ComplementByte(b: byte)
    ensures BitsByte(Xor(ByteBits(b), seq(8, _ => true))) == 255 - b
  {
    hide FromBits, BitsByte, Bit;
    FromBitsBelow([]);
    var c := Xor(ByteBits(b), seq(8, _ => true));
    forall i | 0 <= i < 8 ensures c[i] == ByteBits(255 - b)[i] {
      ComplementBits(b, 8, i);
    }
    assert c == ByteBits(255 - b);
    BitsByteInverse(255 - b);
  }

  /** A register made of four bytes, complemented, is the number of the complemented bytes. */
  lemma ComplementValue(b0: byte, b1: byte, b2: byte, b3: byte)
    ensures var c := ByteBits(b0) + ByteBits(b1) + ByteBits(b2) + ByteBits(b3);
      Image(Xor(c, Ones())) == [255 - b0, 255 - b1, 255 - b2, 255 - b3]
  {
    hide BitsByte, ByteBits;
    var c, ones := ByteBits(b0) + ByteBits(b1) + ByteBits(b2) + ByteBits(b3), seq(8, _ => true);
    var x := Xor(c, Ones());
    assert x[..8] == Xor(ByteBits(b0), ones) && x[8..16] == Xor(ByteBits(b1), ones);
    assert x[16..24] == Xor(ByteBits(b2), ones) && x[24..] == Xor(ByteBits(b3), ones);
    ComplementByte(b0);
    ComplementByte(b1);
    ComplementByte(b2);
    ComplementByte(b3);
  }

  /** 32 one bits, less those of a word, leave the register that 32 zero bits leave from that word. */
  lemma FromOnes(m: Bits)
    requires |m| == 32
    ensures Divide(Generator(), Ones(), m) == Divide(Generator(), Xor(Ones(), m), Zeros(32))
  {
    hide Divide, Shift, Generator;
    DivideIsShifts(Generator(), Ones(), m);
    assert Pad(m) == m;
  }

  /** The last bit of a word, 32 places on, is the generator. */
  lemma LastBitIsGenerator()
    ensures Divide(Generator(), Zeros(31) + [true], Zeros(32)) == Generator()
  {
    hide Divide, Generator;
    var g := Generator();
    ZerosMoveOut(g, [true], 31, 0);
    assert Zeros(31) + [true] + Zeros(0) == Zeros(31) + [true];
    DivideAppend(g, Zeros(31) + [true], Zeros(31), Zeros(1));
    assert Zeros(31) + Zeros(1) == Zeros(32);
    ZeroShifts(g, [true] + Zeros(31), 1);
    assert Shift(g, [true] + Zeros(31)) == g;
    NoMessage(g, g);
  }

  lemma NoMessage(g: Bits, c: Bits)
    requires |g| == |c| == 32
    ensures Divide(g, c, Zeros(0)) == c
  {
  }

  lemma AllOnes()
    ensures ByteBits(0xFF) == seq(8, _ => true) && ByteBits(0x7F) == seq(7, _ => true) + [false]
  {
    FromBitsBelow([]);
    forall i | 0 <= i < 8 ensures ByteBits(0xFF)[i] && ByteBits(0x7F)[i] == (i < 7) {
      ComplementBits(0, 8, i);
      NoBit(i);
      if i < 7 {
        ComplementBits(0, 7, i);
      } else {
        assert Bit(0x7F, 7) == Bit(0, 0);
      }
    }
  }

  lemma {:induction false} NoBit(i: nat)
    ensures !Bit(0, i)
  {
    if i > 0 {
      NoBit(i - 1);
    }
  }

  /** The checksum of FF FF FF 7F is 12477CDF: the generator is EDB88320, the register starts with ones and is
  complemented at the end, and bits go lowest first. */
  lemma CheckValue()
    ensures Checksum([0xFF, 0xFF, 0xFF, 0x7F]) == 0x12477CDF
  {
    hide Divide, Shift, ByteBits, Image;
    var data := [0xFF, 0xFF, 0xFF, 0x7F];
    MessageOfFour(0xFF, 0xFF, 0xFF, 0x7F);
    AllOnes();
    FromOnes(MessageBits(data));
    assert Xor(Ones(), MessageBits(data)) == Zeros(31) + [true];
    LastBitIsGenerator();
    ComplementValue(0x20, 0x83, 0xB8, 0xED);
    var stored: Bytes := [0xDF, 0x7C, 0x47, 0x12];
    assert stored[..4] == stored;
    FourBytes(stored);
  }

  lemma MessageOfFour(b0: byte, b1: byte, b2: byte, b3: byte)
    ensures MessageBits([b0, b1, b2, b3]) == ByteBits(b0) + ByteBits(b1) + ByteBits(b2) + ByteBits(b3)
  {
    hide ByteBits;
    MessageBitsAppend([b0, b1], [b2, b3]);
    assert [b0, b1] + [b2, b3] == [b0, b1, b2, b3];
    TwoBytes([b0, b1]);
    TwoBytes([b2, b3]);
  }
}
