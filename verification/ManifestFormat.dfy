/** The manifest file: which tables make up each level, and the next file number. */
module ManifestFormat {
  import opened Keys
  import opened Coding

  /** What the manifest says about one table. */
  datatype Row = Row(number: nat, fileSize: nat, numEntries: nat, smallest: Key, largest: Key)

  datatype Listing = Listing(next: nat, levels: seq<seq<Row>>)

  // ---- Encoding ----------------------------------------------------------------------------------

  function RowBytes(r: Row): (s: Bytes)
    ensures |s| == 32 + |r.smallest| + |r.largest|
  {
    PutFixed64(r.number) + PutFixed64(r.fileSize) + PutFixed64(r.numEntries)
    + PutLengthPrefixed(r.smallest) + PutLengthPrefixed(r.largest)
  }

  function RowsBytes(rows: seq<Row>): Bytes {
    if rows == [] then [] else RowBytes(rows[0]) + RowsBytes(rows[1..])
  }

  function LevelBytes(rows: seq<Row>): Bytes {
    PutFixed32(|rows|) + RowsBytes(rows)
  }

  function LevelsBytes(levels: seq<seq<Row>>): Bytes {
    if levels == [] then [] else LevelBytes(levels[0]) + LevelsBytes(levels[1..])
  }

  function ListingBytes(m: Listing): Bytes {
    PutFixed64(m.next) + PutFixed32(|m.levels|) + LevelsBytes(m.levels)
  }

  /** The fields hold what they are given. */
  predicate RowFits(r: Row) {
    && r.number < TWO_64 && r.fileSize < TWO_64 && r.numEntries < TWO_64
    && |r.smallest| < TWO_32 && |r.largest| < TWO_32
  }

  predicate RowsFit(rows: seq<Row>) {
    |rows| < TWO_32 && forall r :: r in rows ==> RowFits(r)
  }

  predicate LevelsFit(levels: seq<seq<Row>>) {
    forall l :: 0 <= l < |levels| ==> RowsFit(levels[l])
  }

  predicate ListingFits(m: Listing) {
    m.next < TWO_64 && |m.levels| < TWO_32 && LevelsFit(m.levels)
  }

  method EncodeLevel(buf: Bytes, rows: seq<Row>) returns (out: Bytes)
    ensures out == buf + LevelBytes(rows)
  {
    hide RowBytes, PutFixed32;
    out := buf + PutFixed32(|rows|);
    var i := 0;
    assert rows[0..] == rows;
    assert out + RowsBytes(rows[i..]) == buf + LevelBytes(rows);
    while i < |rows|
      invariant 0 <= i <= |rows|
      invariant out + RowsBytes(rows[i..]) == buf + LevelBytes(rows)
    {
      assert rows[i..][1..] == rows[i + 1..];
      assert out + (RowBytes(rows[i]) + RowsBytes(rows[i + 1..])) == out + RowBytes(rows[i]) + RowsBytes(rows[i + 1..]);
      out := out + RowBytes(rows[i]);
      i := i + 1;
    }
    assert out + [] == out;
  }

  method Encode(m: Listing) returns (buf: Bytes)
    ensures buf == ListingBytes(m)
  {
    hide LevelBytes, PutFixed32, PutFixed64;
    buf := PutFixed64(m.next) + PutFixed32(|m.levels|);
    var i := 0;
    assert m.levels[0..] == m.levels;
    while i < |m.levels|
      invariant 0 <= i <= |m.levels|
      invariant buf + LevelsBytes(m.levels[i..]) == ListingBytes(m)
    {
      assert m.levels[i..][1..] == m.levels[i + 1..];
      var level := m.levels[i];
      assert buf + (LevelBytes(level) + LevelsBytes(m.levels[i + 1..]))
          == buf + LevelBytes(level) + LevelsBytes(m.levels[i + 1..]);
      buf := EncodeLevel(buf, level);
      i := i + 1;
    }
    assert buf + [] == buf;
  }

  // ---- Decoding ----------------------------------------------------------------------------------

  /** What a parser took off the front, and how many bytes that was. */
  datatype Taken<T> = Truncated | Taken(value: T, size: nat)

  function TakeKey(s: Bytes): (t: Taken<Key>)
    ensures t.Taken? ==> t.size <= |s|
  {
    if |s| < 4 then Truncated
    else
      var n := DecodeFixed32(s);
      if 4 + n > |s| then Truncated else Taken(s[4..4 + n], 4 + n)
  }

  function TakeRow(s: Bytes): (t: Taken<Row>)
    ensures t.Taken? ==> t.size <= |s|
  {
    if |s| < 24 then Truncated
    else
      match TakeKey(s[24..])
      case Truncated => Truncated
      case Taken(smallest, n) =>
        match TakeKey(s[24 + n..])
        case Truncated => Truncated
        case Taken(largest, m) =>
          Taken(Row(DecodeFixed64(s), DecodeFixed64(s[8..]), DecodeFixed64(s[16..]), smallest, largest), 24 + n + m)
  }

  function TakeRows(s: Bytes, n: nat): (t: Taken<seq<Row>>)
    ensures t.Taken? ==> t.size <= |s| && |t.value| == n
  {
    if n == 0 then Taken([], 0)
    else
      match TakeRow(s)
      case Truncated => Truncated
      case Taken(r, size) =>
        match TakeRows(s[size..], n - 1)
        case Truncated => Truncated
        case Taken(rest, more) => Taken([r] + rest, size + more)
  }

  function TakeLevel(s: Bytes): (t: Taken<seq<Row>>)
    ensures t.Taken? ==> t.size <= |s|
  {
    if |s| < 4 then Truncated
    else
      match TakeRows(s[4..], DecodeFixed32(s))
      case Truncated => Truncated
      case Taken(rows, size) => Taken(rows, 4 + size)
  }

  function TakeLevels(s: Bytes, n: nat): (t: Taken<seq<seq<Row>>>)
    ensures t.Taken? ==> t.size <= |s| && |t.value| == n
  {
    if n == 0 then Taken([], 0)
    else
      match TakeLevel(s)
      case Truncated => Truncated
      case Taken(rows, size) =>
        match TakeLevels(s[size..], n - 1)
        case Truncated => Truncated
        case Taken(rest, more) => Taken([rows] + rest, size + more)
  }

  function TakeListing(s: Bytes): (t: Taken<Listing>)
    ensures t.Taken? ==> t.size <= |s|
  {
    if |s| < 12 then Truncated
    else
      match TakeLevels(s[12..], DecodeFixed32(s[8..]))
      case Truncated => Truncated
      case Taken(levels, size) => Taken(Listing(DecodeFixed64(s), levels), 12 + size)
  }

  // ---- What was written is read ------------------------------------------------------------------

  lemma KeyReads(k: Key, rest: Bytes)
    requires |k| < TWO_32
    ensures TakeKey(PutLengthPrefixed(k) + rest) == Taken(k, 4 + |k|)
  {
    hide PutFixed32, DecodeFixed32;
    assert PutLengthPrefixed(k) + rest == PutFixed32(|k|) + (k + rest);
    Fixed32RoundTrip(|k|, k + rest);
  }

  lemma RowReads(r: Row, rest: Bytes)
    requires RowFits(r)
    ensures TakeRow(RowBytes(r) + rest) == Taken(r, |RowBytes(r)|)
  {
    hide PutFixed64, DecodeFixed64, TakeKey, PutLengthPrefixed;
    var s := RowBytes(r) + rest;
    var keys := PutLengthPrefixed(r.smallest) + (PutLengthPrefixed(r.largest) + rest);
    assert s == PutFixed64(r.number) + (PutFixed64(r.fileSize) + (PutFixed64(r.numEntries) + keys));
    Fixed64RoundTrip(r.number, PutFixed64(r.fileSize) + (PutFixed64(r.numEntries) + keys));
    assert s[8..] == PutFixed64(r.fileSize) + (PutFixed64(r.numEntries) + keys);
    Fixed64RoundTrip(r.fileSize, PutFixed64(r.numEntries) + keys);
    assert s[16..] == PutFixed64(r.numEntries) + keys;
    Fixed64RoundTrip(r.numEntries, keys);
    assert s[24..] == keys;
    KeyReads(r.smallest, PutLengthPrefixed(r.largest) + rest);
    assert s[28 + |r.smallest|..] == PutLengthPrefixed(r.largest) + rest;
    KeyReads(r.largest, rest);
  }

  lemma NoRowsRead(s: Bytes)
    ensures TakeRows(s, 0) == Taken([], 0)
  {
  }

  /** A row that reads, and rows that read behind it, read together. */
  lemma RowThenRows(r: Row, row: Bytes, tail: Bytes, n: nat)
    requires TakeRow(row + tail) == Taken(r, |row|) && TakeRows(tail, n).Taken?
    ensures var t := TakeRows(tail, n); TakeRows(row + tail, n + 1) == Taken([r] + t.value, |row| + t.size)
  {
    hide TakeRow;
    assert (row + tail)[|row|..] == tail;
  }

  lemma {:induction false} RowsRead(rows: seq<Row>, rest: Bytes)
    requires forall r :: r in rows ==> RowFits(r)
    ensures TakeRows(RowsBytes(rows) + rest, |rows|) == Taken(rows, |RowsBytes(rows)|)
  {
    hide RowBytes, TakeRow, TakeRows;
    if rows == [] {
      NoRowsRead(RowsBytes(rows) + rest);
    } else {
      var r, tail := rows[0], RowsBytes(rows[1..]) + rest;
      RowReads(r, tail);
      RowsRead(rows[1..], rest);
      RowThenRows(r, RowBytes(r), tail, |rows| - 1);
      assert RowsBytes(rows) + rest == RowBytes(r) + tail;
      assert [r] + rows[1..] == rows;
    }
  }

  lemma LevelReads(rows: seq<Row>, rest: Bytes)
    requires RowsFit(rows)
    ensures TakeLevel(LevelBytes(rows) + rest) == Taken(rows, |LevelBytes(rows)|)
  {
    hide RowsBytes, TakeRows, PutFixed32, DecodeFixed32;
    var s, tail := LevelBytes(rows) + rest, RowsBytes(rows) + rest;
    assert s == PutFixed32(|rows|) + tail;
    Fixed32RoundTrip(|rows|, tail);
    assert s[4..] == tail;
    RowsRead(rows, rest);
  }

  lemma NoLevelsRead(s: Bytes)
    ensures TakeLevels(s, 0) == Taken([], 0)
  {
  }

  lemma LevelThenLevels(rows: seq<Row>, level: Bytes, tail: Bytes, n: nat)
    requires TakeLevel(level + tail) == Taken(rows, |level|) && TakeLevels(tail, n).Taken?
    ensures var t := TakeLevels(tail, n); TakeLevels(level + tail, n + 1) == Taken([rows] + t.value, |level| + t.size)
  {
    hide TakeLevel;
    assert (level + tail)[|level|..] == tail;
  }

  lemma {:induction false} LevelsRead(levels: seq<seq<Row>>, rest: Bytes)
    requires LevelsFit(levels)
    ensures TakeLevels(LevelsBytes(levels) + rest, |levels|) == Taken(levels, |LevelsBytes(levels)|)
  {
    hide LevelBytes, TakeLevel, TakeLevels, RowsFit;
    if levels == [] {
      NoLevelsRead(LevelsBytes(levels) + rest);
    } else {
      var rows, tail := levels[0], LevelsBytes(levels[1..]) + rest;
      LevelReads(rows, tail);
      LevelsRead(levels[1..], rest);
      LevelThenLevels(rows, LevelBytes(rows), tail, |levels| - 1);
      assert LevelsBytes(levels) + rest == LevelBytes(rows) + tail;
      assert [rows] + levels[1..] == levels;
    }
  }

  /** A manifest reads back as it was written, whatever follows it. */
  lemma ListingReads(m: Listing, rest: Bytes)
    requires ListingFits(m)
    ensures TakeListing(ListingBytes(m) + rest) == Taken(m, |ListingBytes(m)|)
  {
    hide LevelsBytes, TakeLevels, PutFixed32, DecodeFixed32, PutFixed64, DecodeFixed64, LevelsFit;
    var s, tail := ListingBytes(m) + rest, LevelsBytes(m.levels) + rest;
    assert s == PutFixed64(m.next) + (PutFixed32(|m.levels|) + tail);
    Fixed64RoundTrip(m.next, PutFixed32(|m.levels|) + tail);
    assert s[8..] == PutFixed32(|m.levels|) + tail;
    Fixed32RoundTrip(|m.levels|, tail);
    assert s[12..] == tail;
    LevelsRead(m.levels, rest);
  }

  // ---- What is read was written ------------------------------------------------------------------

  lemma KeyWasWritten(s: Bytes)
    requires TakeKey(s).Taken?
    ensures var t := TakeKey(s); |t.value| < TWO_32 && s[..t.size] == PutLengthPrefixed(t.value)
  {
    hide PutFixed32, DecodeFixed32;
    Fixed32Inverse(s);
    assert s[..4] + s[4..TakeKey(s).size] == s[..TakeKey(s).size];
  }

  lemma RowWasWritten(s: Bytes)
    requires TakeRow(s).Taken?
    ensures var t := TakeRow(s); RowFits(t.value) && s[..t.size] == RowBytes(t.value)
  {
    hide PutFixed64, DecodeFixed64, TakeKey, PutLengthPrefixed;
    Fixed64Inverse(s);
    Fixed64Inverse(s[8..]);
    Fixed64Inverse(s[16..]);
    KeyWasWritten(s[24..]);
    var n := TakeKey(s[24..]).size;
    KeyWasWritten(s[24 + n..]);
    var m := TakeKey(s[24 + n..]).size;
    assert s[..8] + s[8..][..8] + s[16..][..8] + s[24..][..n] + s[24 + n..][..m] == s[..24 + n + m];
  }

  lemma RowsBytesCons(r: Row, rows: seq<Row>)
    ensures RowsBytes([]) == [] && RowsBytes([r] + rows) == RowBytes(r) + RowsBytes(rows)
  {
    hide RowBytes;
    assert ([r] + rows)[1..] == rows;
  }

  lemma LevelsBytesCons(level: seq<Row>, levels: seq<seq<Row>>)
    ensures LevelsBytes([]) == [] && LevelsBytes([level] + levels) == LevelBytes(level) + LevelsBytes(levels)
  {
    hide LevelBytes;
    assert ([level] + levels)[1..] == levels;
  }

  lemma PrefixSplit(s: Bytes, a: nat, b: nat)
    requires a + b <= |s|
    ensures s[..a] + s[a..][..b] == s[..a + b]
  {
  }

  /** Rows that are taken are a row and the rows behind it. */
  lemma RowsTaken(s: Bytes, n: nat)
    requires n > 0 && TakeRows(s, n).Taken?
    ensures TakeRow(s).Taken?
    ensures var t := TakeRow(s); var rest := TakeRows(s[t.size..], n - 1);
      rest.Taken? && TakeRows(s, n) == Taken([t.value] + rest.value, t.size + rest.size)
  {
    hide TakeRow;
  }

  lemma {:induction false} RowsWereWritten(s: Bytes, n: nat)
    requires TakeRows(s, n).Taken?
    ensures var t := TakeRows(s, n);
      (forall r :: r in t.value ==> RowFits(r)) && s[..t.size] == RowsBytes(t.value)
  {
    hide RowBytes, TakeRow, TakeRows, RowFits, RowsBytes;
    if n == 0 {
      NoRowsRead(s);
      RowsBytesCons(Row(0, 0, 0, [], []), []);
    } else {
      RowsTaken(s, n);
      RowWasWritten(s);
      var size := TakeRow(s).size;
      RowsWereWritten(s[size..], n - 1);
      var rest := TakeRows(s[size..], n - 1);
      RowsBytesCons(TakeRow(s).value, rest.value);
      PrefixSplit(s, size, rest.size);
    }
  }

  lemma LevelWasWritten(s: Bytes)
    requires TakeLevel(s).Taken?
    ensures var t := TakeLevel(s); RowsFit(t.value) && s[..t.size] == LevelBytes(t.value)
  {
    hide RowsBytes, TakeRows, PutFixed32, DecodeFixed32, RowFits;
    Fixed32Inverse(s);
    RowsWereWritten(s[4..], DecodeFixed32(s));
    var size := TakeRows(s[4..], DecodeFixed32(s)).size;
    assert s[..4] + s[4..][..size] == s[..4 + size];
  }

  lemma LevelsTaken(s: Bytes, n: nat)
    requires n > 0 && TakeLevels(s, n).Taken?
    ensures TakeLevel(s).Taken?
    ensures var t := TakeLevel(s); var rest := TakeLevels(s[t.size..], n - 1);
      rest.Taken? && TakeLevels(s, n) == Taken([t.value] + rest.value, t.size + rest.size)
  {
    hide TakeLevel;
  }

  lemma {:induction false} LevelsWereWritten(s: Bytes, n: nat)
    requires TakeLevels(s, n).Taken?
    ensures var t := TakeLevels(s, n); LevelsFit(t.value) && s[..t.size] == LevelsBytes(t.value)
  {
    hide LevelBytes, TakeLevel, TakeLevels, RowsFit, LevelsBytes;
    if n == 0 {
      NoLevelsRead(s);
      LevelsBytesCons([], []);
    } else {
      LevelsTaken(s, n);
      LevelWasWritten(s);
      var size := TakeLevel(s).size;
      LevelsWereWritten(s[size..], n - 1);
      var rest := TakeLevels(s[size..], n - 1);
      LevelsBytesCons(TakeLevel(s).value, rest.value);
      PrefixSplit(s, size, rest.size);
    }
  }

  lemma ListingWasWritten(s: Bytes)
    requires TakeListing(s).Taken?
    ensures var t := TakeListing(s); ListingFits(t.value) && s[..t.size] == ListingBytes(t.value)
  {
    hide LevelsBytes, TakeLevels, PutFixed32, DecodeFixed32, PutFixed64, DecodeFixed64, LevelsFit;
    Fixed64Inverse(s);
    Fixed32Inverse(s[8..]);
    LevelsWereWritten(s[12..], DecodeFixed32(s[8..]));
    var size := TakeLevels(s[12..], DecodeFixed32(s[8..])).size;
    assert s[..8] + s[8..][..4] + s[12..][..size] == s[..12 + size];
  }

  /** The decoder accepts a manifest exactly when the file begins with its encoding. */
  lemma AcceptedIffWritten(s: Bytes, m: Listing)
    ensures (TakeListing(s).Taken? && TakeListing(s).value == m) <==> (ListingFits(m) && ListingBytes(m) <= s)
  {
    hide TakeListing, ListingBytes, ListingFits;
    if TakeListing(s).Taken? && TakeListing(s).value == m {
      ListingWasWritten(s);
    }
    if ListingFits(m) && ListingBytes(m) <= s {
      var rest := s[|ListingBytes(m)|..];
      assert s == ListingBytes(m) + rest;
      ListingReads(m, rest);
    }
  }

  /** A manifest cut anywhere is rejected. */
  lemma CutManifestRejected(m: Listing, k: nat)
    requires ListingFits(m) && k < |ListingBytes(m)|
    ensures TakeListing(ListingBytes(m)[..k]).Truncated?
  {
    hide TakeListing, ListingBytes, ListingFits;
    var whole := ListingBytes(m);
    var t := TakeListing(whole[..k]);
    ListingReads(m, []);
    assert whole + [] == whole;
    if t.Taken? {
      ListingWasWritten(whole[..k]);
      var rest := whole[t.size..];
      assert whole == ListingBytes(t.value) + rest;
      ListingReads(t.value, rest);
    }
  }
}
