/** The on-disk table format: records, checksummed blocks, filter, sparse index, footer. */
module TableFormat {
  import opened Keys
  import opened Coding
  import opened Runs
  import Crc32

  const RECORD_HEADER: nat := 9
  const MAGIC: nat := 0x4C534D42
  const FOOTER_SIZE: nat := 44

  // ---- Records -----------------------------------------------------------------------------------

  function RecordBytes(e: Entry): (s: Bytes)
    ensures |s| == RECORD_HEADER + |e.key| + |e.value|
  {
    [if e.tombstone then 1 else 0] + PutFixed32(|e.key|) + PutFixed32(|e.value|) + e.key + e.value
  }

  function RecordsBytes(es: Run): Bytes {
    if es == [] then [] else RecordsBytes(es[..|es| - 1]) + RecordBytes(es[|es| - 1])
  }

  predicate EntryFits(e: Entry) {
    |e.key| < TWO_32 && |e.value| < TWO_32
  }

  predicate RunFits(es: Run) {
    forall e :: e in es ==> EntryFits(e)
  }

  /** The record at the front of a block's rest, and its size; Nothing where no whole record follows. */
  datatype Parsed = Nothing | Parsed(entry: Entry, size: nat)

  function ParseRecord(s: Bytes): (p: Parsed)
    ensures p.Parsed? ==> RECORD_HEADER <= p.size <= |s|
  {
    if |s| < RECORD_HEADER then
      Nothing
    else
      var klen := DecodeFixed32(s[1..]);
      var vlen := DecodeFixed32(s[5..]);
      if RECORD_HEADER + klen + vlen > |s| then Nothing
      else Parsed(Entry(s[9..9 + klen], s[9 + klen..9 + klen + vlen], s[0] == 1), RECORD_HEADER + klen + vlen)
  }

  lemma RecordParses(e: Entry, rest: Bytes)
    requires EntryFits(e)
    ensures ParseRecord(RecordBytes(e) + rest) == Parsed(e, |RecordBytes(e)|)
  {
    hide PutFixed32, DecodeFixed32;
    var s := RecordBytes(e) + rest;
    var tail := e.key + e.value + rest;
    assert s[1..] == PutFixed32(|e.key|) + (PutFixed32(|e.value|) + tail);
    Fixed32RoundTrip(|e.key|, PutFixed32(|e.value|) + tail);
    assert s[5..] == PutFixed32(|e.value|) + tail;
    Fixed32RoundTrip(|e.value|, tail);
    assert s[9..9 + |e.key|] == e.key;
    assert s[9 + |e.key|..9 + |e.key| + |e.value|] == e.value;
  }

  lemma RecordsLast(es: Run)
    ensures es == [] ==> RecordsBytes(es) == []
    ensures es != [] ==> RecordsBytes(es) == RecordsBytes(es[..|es| - 1]) + RecordBytes(es[|es| - 1])
  {
    hide RecordBytes;
  }

  lemma {:induction false} RecordsSplit(es: Run, m: nat)
    requires m <= |es|
    ensures RecordsBytes(es) == RecordsBytes(es[..m]) + RecordsBytes(es[m..])
  {
    hide RecordBytes, RecordsBytes;
    if m == |es| {
      assert es[..m] == es && es[m..] == [];
      RecordsLast([]);
    } else {
      var rest, more := es[..|es| - 1], es[m..];
      RecordsSplit(rest, m);
      RecordsLast(es);
      RecordsLast(more);
      assert rest[..m] == es[..m] && more[..|more| - 1] == rest[m..] && more[|more| - 1] == es[|es| - 1];
    }
  }

  lemma RecordsFront(es: Run)
    requires es != []
    ensures RecordsBytes(es) == RecordBytes(es[0]) + RecordsBytes(es[1..])
  {
    RecordsSplit(es, 1);
    assert es[..1][..0] == [];
    assert RecordsBytes(es[..1]) == [] + RecordBytes(es[0]);
  }

  /** Behind the first m records of a block, the next one parses to entry m. */
  lemma ParseAt(es: Run, m: nat)
    requires RunFits(es) && m <= |es|
    ensures var s := RecordsBytes(es); var pos := |RecordsBytes(es[..m])|;
      && pos <= |s|
      && (m == |es| <==> pos == |s|)
      && (m < |es| ==> ParseRecord(s[pos..]) == Parsed(es[m], |RecordBytes(es[m])|)
                       && pos + |RecordBytes(es[m])| == |RecordsBytes(es[..m + 1])|)
  {
    hide ParseRecord, RecordBytes;
    var s, pos := RecordsBytes(es), |RecordsBytes(es[..m])|;
    RecordsSplit(es, m);
    assert s[pos..] == RecordsBytes(es[m..]);
    if m < |es| {
      RecordsFront(es[m..]);
      assert es[m..][0] == es[m];
      RecordParses(es[m], RecordsBytes(es[m..][1..]));
      assert es[..m + 1][..m] == es[..m];
    } else {
      assert es[..m] == es;
    }
  }

  // ---- Blocks ------------------------------------------------------------------------------------

  function WithChecksum(data: Bytes): (s: Bytes)
    ensures |s| == |data| + 4
  {
    data + PutFixed32(Crc32.Checksum(data))
  }

  function BlocksBytes(blocks: seq<Run>): Bytes {
    if blocks == [] then [] else BlocksBytes(blocks[..|blocks| - 1]) + WithChecksum(RecordsBytes(blocks[|blocks| - 1]))
  }

  datatype IndexEntry = IndexEntry(firstKey: Key, offset: nat, length: nat)

  ghost predicate BlocksNonempty(blocks: seq<Run>) {
    forall i :: 0 <= i < |blocks| ==> blocks[i] != []
  }

  function IndexOf(blocks: seq<Run>): (index: seq<IndexEntry>)
    requires BlocksNonempty(blocks)
    ensures |index| == |blocks|
  {
    if blocks == [] then []
    else
      var rest, last := blocks[..|blocks| - 1], blocks[|blocks| - 1];
      IndexOf(rest) + [IndexEntry(last[0].key, |BlocksBytes(rest)|, |RecordsBytes(last)|)]
  }

  function Flatten(blocks: seq<Run>): Run {
    if blocks == [] then [] else Flatten(blocks[..|blocks| - 1]) + blocks[|blocks| - 1]
  }

  // ---- Index block and footer --------------------------------------------------------------------

  function IndexEntryBytes(e: IndexEntry): (s: Bytes)
    ensures |s| == 16 + |e.firstKey|
  {
    PutLengthPrefixed(e.firstKey) + PutFixed64(e.offset) + PutFixed32(e.length)
  }

  function IndexBytes(index: seq<IndexEntry>): Bytes {
    if index == [] then [] else IndexBytes(index[..|index| - 1]) + IndexEntryBytes(index[|index| - 1])
  }

  function FooterBytes(filterOffset: nat, filterLength: nat, indexOffset: nat, indexLength: nat,
                       numEntries: nat): (s: Bytes)
    ensures |s| == FOOTER_SIZE
  {
    PutFixed64(filterOffset) + PutFixed64(filterLength) + PutFixed64(indexOffset) + PutFixed64(indexLength)
    + PutFixed64(numEntries) + PutFixed32(MAGIC)
  }

  /** A whole table file. */
  function TableBytes(blocks: seq<Run>, filter: Bytes): Bytes
    requires BlocksNonempty(blocks)
  {
    var data, index := BlocksBytes(blocks), IndexBytes(IndexOf(blocks));
    data + WithChecksum(filter) + WithChecksum(index)
    + FooterBytes(|data|, |filter|, |data| + |filter| + 4, |index|, |Flatten(blocks)|)
  }

  /** What fits the format's fields. */
  ghost predicate TableFits(blocks: seq<Run>, filter: Bytes) {
    && BlocksNonempty(blocks)
    && (forall i :: 0 <= i < |blocks| ==> RunFits(blocks[i]) && |RecordsBytes(blocks[i])| < TWO_32 - 4)
    && |BlocksBytes(blocks)| + |filter| + 4 + |IndexBytes(IndexOf(blocks))| + 4 + FOOTER_SIZE < TWO_64
    && |Flatten(blocks)| < TWO_64
  }
}
