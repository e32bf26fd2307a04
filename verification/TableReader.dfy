/** Opening a table: footer, index and filter parsed back from the bytes of a file. */
module TableReader {
  import opened Keys
  import opened Coding
  import opened Runs
  import opened TableFormat
  import Crc32
  import Bloom

  datatype Reader = Reader(base: Bytes, index: seq<IndexEntry>, filter: Bloom.Filter, numEntries: nat,
                           smallest: Key, largest: Key)

  // ---- Parsing -----------------------------------------------------------------------------------

  /** The index entries of an index block; None if it ends inside one. */
  function ParseIndex(s: Bytes): Option<seq<IndexEntry>>
    decreases |s|
  {
    if s == [] then Some([])
    else if |s| < 4 then None
    else
      var klen := DecodeFixed32(s);
      if 4 + klen + 12 > |s| then None
      else
        var e := IndexEntry(s[4..4 + klen], DecodeFixed64(s[4 + klen..]), DecodeFixed32(s[12 + klen..]));
        match ParseIndex(s[16 + klen..])
        case None => None
        case Some(rest) => Some([e] + rest)
  }

  /** A block that lies within the file and passes its checksum. */
  function ReadBlock(base: Bytes, e: IndexEntry): (o: Option<Bytes>)
    ensures o.Some? ==> |o.value| == e.length
  {
    if e.offset + e.length + 4 > |base| then None
    else
      var data := base[e.offset..e.offset + e.length];
      if Crc32.Checksum(data) != DecodeFixed32(base[e.offset + e.length..]) then None else Some(data)
  }

  /** The key of the last record of a block, or `last` if there is none. */
  function LastKey(s: Bytes, last: Key): Key
    decreases |s|
  {
    match ParseRecord(s)
    case Nothing => last
    case Parsed(e, n) => LastKey(s[n..], e.key)
  }

  /** A checksummed part of the file, by offset and length. */
  function Part(base: Bytes, offset: nat, length: nat): Option<Bytes> {
    ReadBlock(base, IndexEntry([], offset, length))
  }

  function ParseFilter(base: Bytes, offset: nat, length: nat): Option<Bloom.Filter> {
    if length == 0 then Some(Bloom.NO_FILTER)
    else
      match Part(base, offset, length)
      case None => None
      case Some(data) => Some(Bloom.Reset(data))
  }

  function OpenTable(base: Bytes): Option<Reader> {
    if |base| < FOOTER_SIZE then None
    else
      var footer := base[|base| - FOOTER_SIZE..];
      var filterOffset, filterLength := DecodeFixed64(footer), DecodeFixed64(footer[8..]);
      var indexOffset, indexLength := DecodeFixed64(footer[16..]), DecodeFixed64(footer[24..]);
      var numEntries := DecodeFixed64(footer[32..]);
      if DecodeFixed32(footer[40..]) != MAGIC then None
      else if indexOffset + indexLength + 4 > |base| || filterOffset + filterLength + 4 > |base| then None
      else
        match Part(base, indexOffset, indexLength)
        case None => None
        case Some(data) =>
          match ParseIndex(data)
          case None => None
          case Some(index) =>
            match ParseFilter(base, filterOffset, filterLength)
            case None => None
            case Some(filter) => WithRange(base, index, filter, numEntries)
  }

  /** Add the smallest and the largest key, the latter from the last block. */
  function WithRange(base: Bytes, index: seq<IndexEntry>, filter: Bloom.Filter, numEntries: nat): Option<Reader> {
    if index == [] then Some(Reader(base, index, filter, numEntries, [], []))
    else
      match ReadBlock(base, index[|index| - 1])
      case None => None
      case Some(block) => Some(Reader(base, index, filter, numEntries, index[0].firstKey, LastKey(block, [])))
  }

  // ---- Round trip --------------------------------------------------------------------------------

  lemma {:induction false} IndexParses(index: seq<IndexEntry>, rest: seq<IndexEntry>, tail: Bytes)
    requires forall e :: e in index ==> |e.firstKey| < TWO_32 && e.offset < TWO_64 && e.length < TWO_32
    requires ParseIndex(tail) == Some(rest)
    ensures ParseIndex(IndexBytes(index) + tail) == Some(index + rest)
    decreases |index|
  {
    hide ParseIndex, IndexEntryBytes;
    if index == [] {
      assert IndexBytes(index) + tail == tail;
      assert index + rest == rest;
    } else {
      var before, e := index[..|index| - 1], index[|index| - 1];
      EntryParses(e, tail, rest);
      assert IndexBytes(index) + tail == IndexBytes(before) + (IndexEntryBytes(e) + tail);
      IndexParses(before, [e] + rest, IndexEntryBytes(e) + tail);
      assert before + ([e] + rest) == index + rest;
    }
  }

  lemma EntryParses(e: IndexEntry, tail: Bytes, rest: seq<IndexEntry>)
    requires |e.firstKey| < TWO_32 && e.offset < TWO_64 && e.length < TWO_32
    requires ParseIndex(tail) == Some(rest)
    ensures ParseIndex(IndexEntryBytes(e) + tail) == Some([e] + rest)
  {
    hide PutFixed32, PutFixed64, DecodeFixed32, DecodeFixed64;
    var s, n := IndexEntryBytes(e) + tail, |e.firstKey|;
    var a, c, d := PutFixed32(n), PutFixed64(e.offset), PutFixed32(e.length);
    EntrySlices(a, e.firstKey, c, d, tail, s);
    Fixed32RoundTrip(n, e.firstKey + c + d + tail);
    Fixed64RoundTrip(e.offset, d + tail);
    Fixed32RoundTrip(e.length, tail);
  }

  lemma EntrySlices(a: Bytes, b: Bytes, c: Bytes, d: Bytes, tail: Bytes, s: Bytes)
    requires |a| == 4 && |c| == 8 && |d| == 4 && s == a + b + c + d + tail
    ensures s == a + (b + c + d + tail) && s[4..4 + |b|] == b && s[4 + |b|..] == c + (d + tail)
    ensures s[12 + |b|..] == d + tail && s[16 + |b|..] == tail
  {
  }

  /** A checksummed part reads back wherever it lies. */
  lemma PartReads(before: Bytes, data: Bytes, after: Bytes, key: Key)
    ensures ReadBlock(before + WithChecksum(data) + after, IndexEntry(key, |before|, |data|)) == Some(data)
  {
    hide PutFixed32, DecodeFixed32, Crc32.Checksum;
    var base := before + WithChecksum(data) + after;
    assert base[|before|..|before| + |data|] == data;
    assert base[|before| + |data|..] == PutFixed32(Crc32.Checksum(data)) + after;
    Fixed32RoundTrip(Crc32.Checksum(data), after);
  }

  lemma {:induction false} BlocksSplit(blocks: seq<Run>, i: nat)
    requires i < |blocks|
    ensures exists after ::
      BlocksBytes(blocks) == BlocksBytes(blocks[..i]) + WithChecksum(RecordsBytes(blocks[i])) + after
  {
    hide RecordsBytes, WithChecksum;
    var rest := blocks[..|blocks| - 1];
    if i < |blocks| - 1 {
      BlocksSplit(rest, i);
      assert rest[..i] == blocks[..i];
      var after :| BlocksBytes(rest) == BlocksBytes(blocks[..i]) + WithChecksum(RecordsBytes(blocks[i])) + after;
      var last := WithChecksum(RecordsBytes(blocks[|blocks| - 1]));
      assert BlocksBytes(blocks) == BlocksBytes(blocks[..i]) + WithChecksum(RecordsBytes(blocks[i])) + (after + last);
    } else {
      assert BlocksBytes(blocks) == BlocksBytes(rest) + WithChecksum(RecordsBytes(blocks[i])) + [];
    }
  }

  lemma {:induction false} IndexAt(blocks: seq<Run>, i: nat)
    requires BlocksNonempty(blocks) && i < |blocks|
    ensures IndexOf(blocks)[i] == IndexEntry(blocks[i][0].key, |BlocksBytes(blocks[..i])|, |RecordsBytes(blocks[i])|)
  {
    hide RecordsBytes, BlocksBytes;
    if i < |blocks| - 1 {
      var rest := blocks[..|blocks| - 1];
      IndexAt(rest, i);
      assert rest[..i] == blocks[..i];
    }
  }

  /** Every block of a file that starts with the blocks reads back. */
  lemma BlockReads(blocks: seq<Run>, i: nat, tail: Bytes)
    requires BlocksNonempty(blocks) && i < |blocks|
    ensures ReadBlock(BlocksBytes(blocks) + tail, IndexOf(blocks)[i]) == Some(RecordsBytes(blocks[i]))
  {
    hide RecordsBytes, WithChecksum, BlocksBytes, IndexOf, ReadBlock;
    BlocksSplit(blocks, i);
    var after :| BlocksBytes(blocks) == BlocksBytes(blocks[..i]) + WithChecksum(RecordsBytes(blocks[i])) + after;
    IndexAt(blocks, i);
    assert BlocksBytes(blocks) + tail
        == BlocksBytes(blocks[..i]) + WithChecksum(RecordsBytes(blocks[i])) + (after + tail);
    PartReads(BlocksBytes(blocks[..i]), RecordsBytes(blocks[i]), after + tail, blocks[i][0].key);
  }

  lemma {:induction false} LastKeyOf(es: Run, last: Key)
    requires RunFits(es)
    ensures LastKey(RecordsBytes(es), last) == if es == [] then last else es[|es| - 1].key
    decreases |es|
  {
    hide ParseRecord, RecordBytes;
    if es == [] {
      assert ParseRecord([]).Nothing?;
    } else {
      RecordsFront(es);
      RecordParses(es[0], RecordsBytes(es[1..]));
      assert RecordsBytes(es)[|RecordBytes(es[0])|..] == RecordsBytes(es[1..]);
      LastKeyOf(es[1..], es[0].key);
    }
  }

  lemma FooterParses(a: nat, b: nat, c: nat, d: nat, e: nat)
    requires a < TWO_64 && b < TWO_64 && c < TWO_64 && d < TWO_64 && e < TWO_64
    ensures var s := FooterBytes(a, b, c, d, e);
      && DecodeFixed64(s) == a && DecodeFixed64(s[8..]) == b && DecodeFixed64(s[16..]) == c
      && DecodeFixed64(s[24..]) == d && DecodeFixed64(s[32..]) == e && DecodeFixed32(s[40..]) == MAGIC
  {
    hide PutFixed32, PutFixed64, DecodeFixed32, DecodeFixed64;
    var s, m := FooterBytes(a, b, c, d, e), PutFixed32(MAGIC);
    var s32 := PutFixed64(e) + m;
    var s24 := PutFixed64(d) + s32;
    var s16 := PutFixed64(c) + s24;
    var s8 := PutFixed64(b) + s16;
    assert s == PutFixed64(a) + s8;
    assert s[8..] == s8 && s[16..] == s16 && s[24..] == s24 && s[32..] == s32 && s[40..] == m + [];
    Fixed64RoundTrip(a, s8);
    Fixed64RoundTrip(b, s16);
    Fixed64RoundTrip(c, s24);
    Fixed64RoundTrip(d, s32);
    Fixed64RoundTrip(e, m);
    Fixed32RoundTrip(MAGIC, []);
  }

  /** A file laid out as the table of these blocks, with these bytes where the blocks should be. */
  ghost function TableAround(data: Bytes, blocks: seq<Run>, filter: Bytes): Bytes
    requires BlocksNonempty(blocks)
  {
    var index := IndexBytes(IndexOf(blocks));
    data + WithChecksum(filter) + WithChecksum(index)
    + FooterBytes(|data|, |filter|, |data| + |filter| + 4, |index|, |Flatten(blocks)|)
  }

  /** Bytes in place of the blocks whose last block is intact. */
  ghost predicate LastIntact(data: Bytes, blocks: seq<Run>) {
    |data| == |BlocksBytes(blocks)| && (blocks != [] ==>
      data[|BlocksBytes(blocks[..|blocks| - 1])|..] == WithChecksum(RecordsBytes(blocks[|blocks| - 1])))
  }

  /** Opening looks at footer, index, filter and last block; what lies in the other blocks does not matter. */
  lemma OpenAround(data: Bytes, blocks: seq<Run>, filter: Bytes)
    requires TableFits(blocks, filter) && filter != [] && LastIntact(data, blocks)
    ensures var base, run := TableAround(data, blocks, filter), Flatten(blocks);
      OpenTable(base) == Some(Reader(base, IndexOf(blocks), Bloom.Reset(filter), |run|,
                                     if run == [] then [] else run[0].key,
                                     if run == [] then [] else run[|run| - 1].key))
  {
    hide BlocksBytes, IndexOf, IndexBytes, Flatten, RecordsBytes, ReadBlock, ParseIndex, FooterBytes, WithChecksum;
    hide DecodeFixed32, DecodeFixed64, Bloom.Reset, LastKey, TableFits, LastIntact;
    FitsSizes(blocks, filter);
    assert |data| == |BlocksBytes(blocks)| by { IntactSize(data, blocks); }
    var base := TableAround(data, blocks, filter);
    var index := IndexBytes(IndexOf(blocks));
    var f := FooterBytes(|data|, |filter|, |data| + |filter| + 4, |index|, |Flatten(blocks)|);
    FooterParses(|data|, |filter|, |data| + |filter| + 4, |index|, |Flatten(blocks)|);
    assert base[|base| - FOOTER_SIZE..] == f;

    var head := data + WithChecksum(filter);
    PartReads(head, index, f, []);
    assert base == data + WithChecksum(filter) + (WithChecksum(index) + f);
    PartReads(data, filter, WithChecksum(index) + f, []);
    IndexBlockParses(blocks);
    RangeReads(data, blocks, WithChecksum(filter) + WithChecksum(index) + f, Bloom.Reset(filter));
    assert base == data + (WithChecksum(filter) + WithChecksum(index) + f);
  }

  lemma IntactSize(data: Bytes, blocks: seq<Run>)
    requires LastIntact(data, blocks)
    ensures |data| == |BlocksBytes(blocks)|
  {
  }

  lemma WrittenIsIntact(blocks: seq<Run>)
    ensures LastIntact(BlocksBytes(blocks), blocks)
  {
    hide RecordsBytes, WithChecksum;
    if blocks != [] {
      var before, last := BlocksBytes(blocks[..|blocks| - 1]), WithChecksum(RecordsBytes(blocks[|blocks| - 1]));
      assert BlocksBytes(blocks) == before + last;
    }
  }

  /** Opening the bytes of a table gives back its index, its filter, its entry count and its key range. */
  lemma OpenRoundTrip(blocks: seq<Run>, filter: Bytes)
    requires TableFits(blocks, filter) && filter != []
    ensures var base, run := TableBytes(blocks, filter), Flatten(blocks);
      OpenTable(base) == Some(Reader(base, IndexOf(blocks), Bloom.Reset(filter), |run|,
                                     if run == [] then [] else run[0].key,
                                     if run == [] then [] else run[|run| - 1].key))
  {
    hide BlocksBytes, IndexOf, IndexBytes, Flatten, FooterBytes, WithChecksum, OpenTable, Bloom.Reset, TableFits,
      LastIntact;
    WrittenIsIntact(blocks);
    OpenAround(BlocksBytes(blocks), blocks, filter);
    FitsSizes(blocks, filter);
  }

  lemma FitsSizes(blocks: seq<Run>, filter: Bytes)
    requires TableFits(blocks, filter)
    ensures BlocksNonempty(blocks) && |Flatten(blocks)| < TWO_64
    ensures |BlocksBytes(blocks)| + |filter| + 4 + |IndexBytes(IndexOf(blocks))| + 4 + FOOTER_SIZE < TWO_64
    ensures forall i :: 0 <= i < |blocks| ==> RunFits(blocks[i]) && |RecordsBytes(blocks[i])| < TWO_32
  {
  }

  lemma IndexBlockParses(blocks: seq<Run>)
    requires BlocksNonempty(blocks)
    requires forall i :: 0 <= i < |blocks| ==> RunFits(blocks[i]) && |RecordsBytes(blocks[i])| < TWO_32
    requires |BlocksBytes(blocks)| < TWO_64
    ensures ParseIndex(IndexBytes(IndexOf(blocks))) == Some(IndexOf(blocks))
  {
    hide BlocksBytes, IndexOf, IndexBytes, RecordsBytes, ParseIndex;
    forall e | e in IndexOf(blocks) ensures |e.firstKey| < TWO_32 && e.offset < TWO_64 && e.length < TWO_32 {
      var i :| 0 <= i < |blocks| && IndexOf(blocks)[i] == e;
      IndexAt(blocks, i);
      BlocksSplit(blocks, i);
      assert blocks[i][0] in blocks[i];
    }
    assert ParseIndex([]) == Some([]) by { EmptyIndex(); }
    IndexParses(IndexOf(blocks), [], []);
    assert IndexBytes(IndexOf(blocks)) + [] == IndexBytes(IndexOf(blocks));
    assert IndexOf(blocks) + [] == IndexOf(blocks);
  }

  lemma EmptyIndex()
    ensures ParseIndex([]) == Some([])
  {
  }

  lemma {:induction false} FlattenEnds(blocks: seq<Run>)
    requires BlocksNonempty(blocks) && blocks != []
    ensures Flatten(blocks) != [] && Flatten(blocks)[0] == blocks[0][0]
    ensures var last := blocks[|blocks| - 1]; Flatten(blocks)[|Flatten(blocks)| - 1] == last[|last| - 1]
  {
    if |blocks| > 1 {
      FlattenEnds(blocks[..|blocks| - 1]);
    } else {
      assert Flatten(blocks[..0]) == [];
    }
  }

  lemma RangeReads(data: Bytes, blocks: seq<Run>, tail: Bytes, filter: Bloom.Filter)
    requires BlocksNonempty(blocks) && LastIntact(data, blocks)
    requires forall i :: 0 <= i < |blocks| ==> RunFits(blocks[i])
    ensures var base, run := data + tail, Flatten(blocks);
      WithRange(base, IndexOf(blocks), filter, |run|)
        == Some(Reader(base, IndexOf(blocks), filter, |run|, if run == [] then [] else run[0].key,
                       if run == [] then [] else run[|run| - 1].key))
  {
    hide BlocksBytes, IndexOf, RecordsBytes, ReadBlock, LastKey, WithChecksum;
    if blocks != [] {
      var n := |blocks| - 1;
      IndexAt(blocks, n);
      assert |BlocksBytes(blocks[..n])| <= |data| by { BlocksSplit(blocks, n); }
      var before, last := data[..|BlocksBytes(blocks[..n])|], RecordsBytes(blocks[n]);
      assert data + tail == before + WithChecksum(last) + tail;
      PartReads(before, last, tail, blocks[n][0].key);
      LastKeyOf(blocks[n], []);
      FlattenEnds(blocks);
      IndexAt(blocks, 0);
    }
  }

  // ---- The code that opens a table ---------------------------------------------------------------

  method LoadPart(base: Bytes, offset: nat, length: nat) returns (o: Option<Bytes>)
    requires offset + length + 4 <= |base|
    ensures o == Part(base, offset, length)
  {
    hide DecodeFixed32, Crc32.Checksum;
    var data := base[offset..offset + length];
    var crc := Crc32.Compute(data);
    if crc != DecodeFixed32(base[offset + length..]) {
      return None;
    }
    return Some(data);
  }

  method LoadIndex(data: Bytes) returns (o: Option<seq<IndexEntry>>)
    ensures o == ParseIndex(data)
  {
    hide DecodeFixed32, DecodeFixed64;
    var index: seq<IndexEntry> := [];
    var p := 0;
    assert data[p..] == data;
    assert forall rest: seq<IndexEntry> :: [] + rest == rest;
    while p < |data|
      invariant 0 <= p <= |data|
      invariant ParseIndex(data) == match ParseIndex(data[p..]) case None => None case Some(rest) => Some(index + rest)
    {
      var s := data[p..];
      if |s| < 4 {
        return None;
      }
      var klen := DecodeFixed32(s);
      if 4 + klen + 12 > |s| {
        return None;
      }
      var e := IndexEntry(s[4..4 + klen], DecodeFixed64(s[4 + klen..]), DecodeFixed32(s[12 + klen..]));
      IndexStep(s, index, e);
      assert s[16 + klen..] == data[p + 16 + klen..];
      index := index + [e];
      p := p + 16 + klen;
    }
    assert data[p..] == [];
    assert index + [] == index;
    return Some(index);
  }

  lemma IndexStep(s: Bytes, index: seq<IndexEntry>, e: IndexEntry)
    requires |s| >= 4 && 16 + DecodeFixed32(s) <= |s|
    requires var n := DecodeFixed32(s);
      e == IndexEntry(s[4..4 + n], DecodeFixed64(s[4 + n..]), DecodeFixed32(s[12 + n..]))
    ensures ParseIndex(s) ==
      match ParseIndex(s[16 + DecodeFixed32(s)..]) case None => None case Some(rest) => Some([e] + rest)
    ensures forall rest :: index + ([e] + rest) == index + [e] + rest
  {
    hide DecodeFixed32, DecodeFixed64;
  }

  method ScanLastKey(block: Bytes) returns (last: Key)
    ensures last == LastKey(block, [])
  {
    hide ParseRecord;
    last := [];
    var q := 0;
    assert block[q..] == block;
    while true
      invariant 0 <= q <= |block|
      invariant LastKey(block[q..], last) == LastKey(block, [])
      decreases |block| - q
    {
      var r := ParseRecord(block[q..]);
      if r.Nothing? {
        break;
      }
      assert block[q..][r.size..] == block[q + r.size..];
      last := r.entry.key;
      q := q + r.size;
    }
  }

  /** A table opens only if it is sealed. */
  method Open(base: Bytes) returns (o: Option<Reader>)
    ensures o == OpenTable(base)
    ensures o.Some? ==> Sealed(base, o.value)
  {
    if OpenTable(base).Some? {
      OpenedIsSealed(base);
    }
    o := ParseTable(base);
  }

  method ParseTable(base: Bytes) returns (o: Option<Reader>)
    ensures o == OpenTable(base)
  {
    hide DecodeFixed32, DecodeFixed64, ReadBlock, ParseIndex, LastKey, Bloom.Reset;
    if |base| < FOOTER_SIZE {
      return None;
    }
    var footer := base[|base| - FOOTER_SIZE..];
    var filterOffset := DecodeFixed64(footer);
    var filterLength := DecodeFixed64(footer[8..]);
    var indexOffset := DecodeFixed64(footer[16..]);
    var indexLength := DecodeFixed64(footer[24..]);
    var numEntries := DecodeFixed64(footer[32..]);
    if DecodeFixed32(footer[40..]) != MAGIC {
      return None;
    }
    if indexOffset + indexLength + 4 > |base| || filterOffset + filterLength + 4 > |base| {
      return None;
    }
    var indexData := LoadPart(base, indexOffset, indexLength);
    if indexData.None? {
      return None;
    }
    var index := LoadIndex(indexData.value);
    if index.None? {
      return None;
    }
    var filter := Bloom.NO_FILTER;
    if filterLength > 0 {
      var filterData := LoadPart(base, filterOffset, filterLength);
      if filterData.None? {
        return None;
      }
      filter := Bloom.Reset(filterData.value);
    }
    if index.value == [] {
      return Some(Reader(base, index.value, filter, numEntries, [], []));
    }
    var last := ReadBlock(base, index.value[|index.value| - 1]);
    if last.None? {
      return None;
    }
    var largest := ScanLastKey(last.value);
    return Some(Reader(base, index.value, filter, numEntries, index.value[0].firstKey, largest));
  }

  // ---- Damage ------------------------------------------------------------------------------------

  /** A block any of whose bytes, its stored checksum included, were changed within four consecutive bytes of the
  file is rejected, wherever the four bytes lie. */
  lemma DamagedBlockRejected(base: Bytes, damaged: Bytes, e: IndexEntry, at: nat)
    requires Crc32.DiffersWithin(base, damaged, at)
    requires ReadBlock(base, e).Some?
    requires base[e.offset..e.offset + e.length + 4] != damaged[e.offset..e.offset + e.length + 4]
    ensures ReadBlock(damaged, e).None?
  {
    hide DecodeFixed32, Crc32.Checksum;
    var lo, n := e.offset, e.length;
    var code, code' := base[lo..lo + n + 4], damaged[lo..lo + n + 4];
    var inside := BurstInside(base, damaged, lo, n + 4, at);
    assert code[..n] == base[lo..lo + n] && code'[..n] == damaged[lo..lo + n];
    assert base[lo + n..][..4] == code[n..] && damaged[lo + n..][..4] == code'[n..];
    DecodePrefix(base[lo + n..], code[n..]);
    DecodePrefix(damaged[lo + n..], code'[n..]);
    assert Crc32.Accepted(code);
    Crc32.BurstRejected(code, code', inside);
  }

  /** The part of a burst that lies in a piece of the string is a burst of that piece. */
  lemma BurstInside(a: Bytes, b: Bytes, lo: nat, n: nat, at: nat) returns (inside: nat)
    requires Crc32.DiffersWithin(a, b, at) && lo + n <= |a| && n >= 4 && a[lo..lo + n] != b[lo..lo + n]
    ensures inside + 4 <= n && Crc32.DiffersWithin(a[lo..lo + n], b[lo..lo + n], inside)
  {
    inside := if at < lo then 0 else if at - lo + 4 > n then n - 4 else at - lo;
    var x, y := a[lo..lo + n], b[lo..lo + n];
    forall j | 0 <= j < n && (j < inside || inside + 4 <= j) ensures x[j] == y[j] {
      assert a[lo + j] == b[lo + j];
    }
  }

  /** A block none of whose bytes changed reads as before. */
  lemma ReadSame(base: Bytes, damaged: Bytes, e: IndexEntry)
    requires |base| == |damaged| && e.offset + e.length + 4 <= |base|
    requires base[e.offset..e.offset + e.length + 4] == damaged[e.offset..e.offset + e.length + 4]
    ensures ReadBlock(damaged, e) == ReadBlock(base, e)
  {
    hide DecodeFixed32, Crc32.Checksum;
    var lo, n := e.offset, e.length;
    var code := base[lo..lo + n + 4];
    assert code[..n] == base[lo..lo + n] == damaged[lo..lo + n];
    assert base[lo + n..][..4] == code[n..];
    assert damaged[lo + n..][..4] == damaged[lo..lo + n + 4][n..] == code[n..];
    DecodePrefix(base[lo + n..], code[n..]);
    DecodePrefix(damaged[lo + n..], code[n..]);
  }

  lemma DecodePrefix(s: Bytes, t: Bytes)
    requires |t| == 4 && |s| >= 4 && s[..4] == t
    ensures DecodeFixed32(s) == DecodeFixed32(t)
  {
    assert t[..4] == t;
  }

  // ---- What opening checks -----------------------------------------------------------------------

  /** A part of the file that lies within it and passes its checksum. */
  ghost predicate Checked(base: Bytes, offset: nat, length: nat) {
    offset + length + 4 <= |base| && Crc32.Accepted(base[offset..offset + length + 4])
  }

  lemma ReadIsChecked(base: Bytes, e: IndexEntry)
    ensures ReadBlock(base, e).Some? <==> Checked(base, e.offset, e.length)
  {
    hide DecodeFixed32, Crc32.Checksum;
    var lo, n := e.offset, e.length;
    if lo + n + 4 <= |base| {
      var code := base[lo..lo + n + 4];
      assert code[..n] == base[lo..lo + n];
      assert base[lo + n..][..4] == code[n..];
      DecodePrefix(base[lo + n..], code[n..]);
    }
  }

  /** The file ends with the magic number; the index, the filter and the last block that its footer and its index name
  pass their checksums; and the reader holds what those parts say. */
  ghost predicate Sealed(base: Bytes, r: Reader) {
    |base| >= FOOTER_SIZE && FooterSealed(base, base[|base| - FOOTER_SIZE..], r)
    && (r.index != [] ==> Checked(base, r.index[|r.index| - 1].offset, r.index[|r.index| - 1].length))
  }

  ghost predicate FooterSealed(base: Bytes, footer: Bytes, r: Reader)
    requires |footer| == FOOTER_SIZE
  {
    var filterOffset, filterLength := DecodeFixed64(footer), DecodeFixed64(footer[8..]);
    var indexOffset, indexLength := DecodeFixed64(footer[16..]), DecodeFixed64(footer[24..]);
    && DecodeFixed32(footer[40..]) == MAGIC && r.base == base && r.numEntries == DecodeFixed64(footer[32..])
    && Checked(base, indexOffset, indexLength)
    && ParseIndex(base[indexOffset..indexOffset + indexLength]) == Some(r.index)
    && (if filterLength == 0 then r.filter == Bloom.NO_FILTER
        else Checked(base, filterOffset, filterLength)
             && r.filter == Bloom.Reset(base[filterOffset..filterOffset + filterLength]))
  }

  /** Whatever opens is sealed. */
  lemma OpenedIsSealed(base: Bytes)
    requires OpenTable(base).Some?
    ensures Sealed(base, OpenTable(base).value)
  {
    hide DecodeFixed32, DecodeFixed64, ParseIndex, LastKey, Bloom.Reset, Crc32.Checksum, Crc32.Accepted;
    var footer, r := base[|base| - FOOTER_SIZE..], OpenTable(base).value;
    ReadIsChecked(base, IndexEntry([], DecodeFixed64(footer[16..]), DecodeFixed64(footer[24..])));
    ReadIsChecked(base, IndexEntry([], DecodeFixed64(footer), DecodeFixed64(footer[8..])));
    if r.index != [] {
      ReadIsChecked(base, r.index[|r.index| - 1]);
    }
  }

  // ---- Damage that keeps a table from opening ----------------------------------------------------

  /** A file that does not end with the magic number does not open. */
  lemma ChangedMagicRejected(base: Bytes)
    requires |base| >= 4 && base[|base| - 4..] != PutFixed32(MAGIC)
    ensures OpenTable(base).None?
  {
    hide DecodeFixed32, DecodeFixed64, PutFixed32, ParseIndex, ReadBlock, ParseFilter, WithRange;
    if |base| >= FOOTER_SIZE {
      var stored := base[|base| - 4..];
      assert base[|base| - FOOTER_SIZE..][40..] == stored;
      Fixed32Inverse(stored);
      assert stored[..4] == stored;
    }
  }

  /** Where the parts of a table lie: the last block, the filter, the index and the footer. */
  ghost function LastStart(blocks: seq<Run>): nat {
    if blocks == [] then 0 else |BlocksBytes(blocks[..|blocks| - 1])|
  }

  /** The footer of a changed file still names the index, if the four changed bytes reach at most three into it. */
  lemma FooterNamesIndex(base: Bytes, damaged: Bytes, at: nat)
    requires Crc32.DiffersWithin(base, damaged, at) && |base| >= FOOTER_SIZE && at < |base| - FOOTER_SIZE
    ensures var f, g := base[|base| - FOOTER_SIZE..], damaged[|base| - FOOTER_SIZE..];
      && f[16..] == g[16..] && f[24..] == g[24..] && f[40..] == g[40..]
      && (at + 4 <= |base| - FOOTER_SIZE ==> f == g)
  {
  }

  lemma NoIndexNoTable(base: Bytes)
    requires |base| >= FOOTER_SIZE
    requires var footer := base[|base| - FOOTER_SIZE..];
      ReadBlock(base, IndexEntry([], DecodeFixed64(footer[16..]), DecodeFixed64(footer[24..]))).None?
    ensures OpenTable(base).None?
  {
    hide DecodeFixed32, DecodeFixed64, ParseIndex, ReadBlock, ParseFilter, WithRange;
  }

  lemma NoFilterNoTable(base: Bytes)
    requires |base| >= FOOTER_SIZE
    requires var footer := base[|base| - FOOTER_SIZE..];
      && DecodeFixed64(footer[8..]) > 0
      && ReadBlock(base, IndexEntry([], DecodeFixed64(footer), DecodeFixed64(footer[8..]))).None?
    ensures OpenTable(base).None?
  {
    hide DecodeFixed32, DecodeFixed64, ParseIndex, ReadBlock, WithRange;
  }

  lemma NoLastBlockNoTable(base: Bytes, index: seq<IndexEntry>)
    requires |base| >= FOOTER_SIZE && index != [] && ReadBlock(base, index[|index| - 1]).None?
    requires var footer := base[|base| - FOOTER_SIZE..];
      var part := ReadBlock(base, IndexEntry([], DecodeFixed64(footer[16..]), DecodeFixed64(footer[24..])));
      part.Some? ==> ParseIndex(part.value) == Some(index)
    ensures OpenTable(base).None?
  {
    hide DecodeFixed32, DecodeFixed64, ParseIndex, ReadBlock, ParseFilter;
  }

  /** Where the parts of a written table lie, and that each reads. */
  lemma TableLaidOut(blocks: seq<Run>, filter: Bytes)
    requires TableFits(blocks, filter)
    ensures var base, data, index := TableBytes(blocks, filter), BlocksBytes(blocks), IndexBytes(IndexOf(blocks));
      |base| == |data| + |filter| + 4 + |index| + 4 + FOOTER_SIZE
    ensures var base, data, index := TableBytes(blocks, filter), BlocksBytes(blocks), IndexBytes(IndexOf(blocks));
      var footer := base[|base| - FOOTER_SIZE..];
      && DecodeFixed64(footer) == |data| && DecodeFixed64(footer[8..]) == |filter|
      && DecodeFixed64(footer[16..]) == |data| + |filter| + 4 && DecodeFixed64(footer[24..]) == |index|
    ensures var base, data, index := TableBytes(blocks, filter), BlocksBytes(blocks), IndexBytes(IndexOf(blocks));
      && ReadBlock(base, IndexEntry([], |data|, |filter|)) == Some(filter)
      && ReadBlock(base, IndexEntry([], |data| + |filter| + 4, |index|)) == Some(index)
      && ParseIndex(index) == Some(IndexOf(blocks))
  {
    hide BlocksBytes, IndexOf, IndexBytes, Flatten, RecordsBytes, ReadBlock, ParseIndex, FooterBytes, WithChecksum,
      DecodeFixed64, TableFits;
    FitsSizes(blocks, filter);
    var base, data, index := TableBytes(blocks, filter), BlocksBytes(blocks), IndexBytes(IndexOf(blocks));
    var f := FooterBytes(|data|, |filter|, |data| + |filter| + 4, |index|, |Flatten(blocks)|);
    FooterParses(|data|, |filter|, |data| + |filter| + 4, |index|, |Flatten(blocks)|);
    ChecksumSize(filter);
    ChecksumSize(index);
    assert base[|base| - FOOTER_SIZE..] == f;
    PartReads(data + WithChecksum(filter), index, f, []);
    assert base == data + WithChecksum(filter) + (WithChecksum(index) + f);
    PartReads(data, filter, WithChecksum(index) + f, []);
    IndexBlockParses(blocks);
  }

  lemma ChecksumSize(data: Bytes)
    ensures |WithChecksum(data)| == |data| + 4
  {
  }

  lemma LastLaidOut(blocks: seq<Run>, filter: Bytes)
    requires TableFits(blocks, filter) && blocks != []
    ensures var base, e := TableBytes(blocks, filter), IndexOf(blocks)[|blocks| - 1];
      && ReadBlock(base, e).Some? && e.offset == LastStart(blocks) && e.offset + e.length + 4 == |BlocksBytes(blocks)|
  {
    hide IndexOf, IndexBytes, Flatten, RecordsBytes, ReadBlock, FooterBytes, TableFits, Crc32.Checksum;
    FitsSizes(blocks, filter);
    var n, data, index := |blocks| - 1, BlocksBytes(blocks), IndexBytes(IndexOf(blocks));
    var tail := WithChecksum(filter) + WithChecksum(index)
      + FooterBytes(|data|, |filter|, |data| + |filter| + 4, |index|, |Flatten(blocks)|);
    BlockReads(blocks, n, tail);
    assert TableBytes(blocks, filter) == data + tail;
    IndexAt(blocks, n);
    ChecksumSize(RecordsBytes(blocks[n]));
  }

  lemma SliceDiffers(a: Bytes, b: Bytes, lo: nat, hi: nat, j: nat)
    requires |a| == |b| && lo <= j < hi <= |a| && a[j] != b[j]
    ensures a[lo..hi] != b[lo..hi]
  {
    assert a[lo..hi][j - lo] == a[j] && b[lo..hi][j - lo] == b[j];
  }

  /** The part of a written table around a changed byte is rejected. */
  lemma PartRejected(base: Bytes, damaged: Bytes, e: IndexEntry, at: nat, j: nat)
    requires Crc32.DiffersWithin(base, damaged, at) && j < |base| && base[j] != damaged[j]
    requires ReadBlock(base, e).Some? && e.offset <= j < e.offset + e.length + 4 <= |base|
    ensures ReadBlock(damaged, e).None?
  {
    hide ReadBlock;
    SliceDiffers(base, damaged, e.offset, e.offset + e.length + 4, j);
    DamagedBlockRejected(base, damaged, e, at);
  }

  /** A table one of whose bytes from the last block to the index checksum was changed, within four consecutive bytes,
  does not open. */
  lemma DamagedTailRejected(blocks: seq<Run>, filter: Bytes, damaged: Bytes, at: nat, j: nat)
    requires TableFits(blocks, filter) && filter != []
    requires var base := TableBytes(blocks, filter);
      && Crc32.DiffersWithin(base, damaged, at)
      && LastStart(blocks) <= j && j + FOOTER_SIZE < |base| && base[j] != damaged[j]
    ensures OpenTable(damaged).None?
  {
    hide TableBytes, BlocksBytes, IndexOf, IndexBytes, ReadBlock, ParseIndex, DecodeFixed64, TableFits, OpenTable;
    FitsSizes(blocks, filter);
    var base, data, index := TableBytes(blocks, filter), BlocksBytes(blocks), IndexBytes(IndexOf(blocks));
    TableLaidOut(blocks, filter);
    FooterNamesIndex(base, damaged, at);
    var indexEntry := IndexEntry([], |data| + |filter| + 4, |index|);
    if j >= |data| + |filter| + 4 {
      PartRejected(base, damaged, indexEntry, at, j);
      NoIndexNoTable(damaged);
    } else if j >= |data| {
      PartRejected(base, damaged, IndexEntry([], |data|, |filter|), at, j);
      NoFilterNoTable(damaged);
    } else {
      BlocksBefore(blocks, j);
      LastLaidOut(blocks, filter);
      PartRejected(base, damaged, IndexOf(blocks)[|blocks| - 1], at, j);
      SameOrRejected(base, damaged, indexEntry, at);
      NoLastBlockNoTable(damaged, IndexOf(blocks));
    }
  }

  lemma BlocksBefore(blocks: seq<Run>, j: nat)
    requires j < |BlocksBytes(blocks)|
    ensures blocks != []
  {
  }

  lemma SameOrRejected(base: Bytes, damaged: Bytes, e: IndexEntry, at: nat)
    requires Crc32.DiffersWithin(base, damaged, at) && ReadBlock(base, e).Some?
    ensures ReadBlock(damaged, e).None? || ReadBlock(damaged, e) == ReadBlock(base, e)
  {
    hide DecodeFixed32, Crc32.Checksum;
    var lo, hi := e.offset, e.offset + e.length + 4;
    if base[lo..hi] == damaged[lo..hi] {
      ReadSame(base, damaged, e);
    } else {
      DamagedBlockRejected(base, damaged, e, at);
    }
  }
}
