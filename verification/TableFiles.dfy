/** Table files as the engine uses them: written from a list of records, opened again, and standing for that list. */
module TableFiles {
  import opened Keys
  import opened Coding
  import opened Runs
  import opened Versions
  import opened TableFormat
  import opened TableWriter
  import opened TableReader
  import opened TableGet
  import Bloom
  import Crc32

  const BLOCK_SIZE: nat := 4096

  /** Open tables, by file number. */
  type Readers = map<nat, Reader>

  /** Every size in the table of these records fits its field. */
  ghost predicate TableRoom(run: Run, hash: Key -> Bloom.Hash, bits: nat) {
    && TableFits(BlocksOf(run, BLOCK_SIZE), Bloom.FilterBytes(KeysHash(run, hash), bits))
    && Bloom.BitCount(|run|, bits) < TWO_32
  }

  // ---- The records behind a reader ---------------------------------------------------------------

  function BlockRecords(s: Bytes): Run
    decreases |s|
  {
    match ParseRecord(s)
    case Nothing => []
    case Parsed(e, n) => [e] + BlockRecords(s[n..])
  }

  function IndexRecords(base: Bytes, index: seq<IndexEntry>): Run {
    if index == [] then []
    else
      var last := ReadBlock(base, index[|index| - 1]);
      IndexRecords(base, index[..|index| - 1]) + (if last.Some? then BlockRecords(last.value) else [])
  }

  /** All records of all blocks. */
  function Records(r: Reader): Run {
    IndexRecords(r.base, r.index)
  }

  lemma {:induction false} BlockRecordsReads(es: Run)
    requires RunFits(es)
    ensures BlockRecords(RecordsBytes(es)) == es
  {
    hide RecordsBytes, ParseRecord, RecordBytes;
    if es == [] {
      RecordsLast(es);
      assert ParseRecord([]).Nothing? by { NothingThere(); }
    } else {
      RecordsFront(es);
      var rest := RecordsBytes(es[1..]);
      RecordParses(es[0], rest);
      assert RecordsBytes(es)[|RecordBytes(es[0])|..] == rest;
      BlockRecordsReads(es[1..]);
    }
  }

  lemma NothingThere()
    ensures ParseRecord([]).Nothing?
  {
  }

  lemma {:induction false} IndexRecordsRead(r: Reader, blocks: seq<Run>, n: nat)
    requires Serves(r, blocks) && AllReadable(r) && n <= |blocks|
    ensures IndexRecords(r.base, r.index[..n]) == Flatten(blocks[..n])
  {
    hide ReadBlock, BlockRecords, RecordsBytes, Sorted, RunFits;
    if n > 0 {
      IndexRecordsRead(r, blocks, n - 1);
      assert r.index[..n][..n - 1] == r.index[..n - 1] && blocks[..n][..n - 1] == blocks[..n - 1];
      assert Readable(r, n - 1);
      BlockRecordsReads(blocks[n - 1]);
    }
  }

  // ---- A reader that stands for a list of records ------------------------------------------------

  ghost predicate StandsFor(r: Reader, run: Run, hash: Key -> Bloom.Hash) {
    Serves(r, BlocksOf(run, BLOCK_SIZE)) && FilterSound(r, BlocksOf(run, BLOCK_SIZE), hash)
  }

  /** Every one of the files has a reader that stands for its records. */
  ghost predicate TablesStand(files: seq<FileMeta>, readers: Readers, hash: Key -> Bloom.Hash) {
    forall f :: f in files ==> f.number in readers && StandsFor(readers[f.number], f.run, hash)
  }

  /** A reader all of whose blocks can be read gives back the records of the blocks, in order. */
  lemma ReadableRecords(r: Reader, blocks: seq<Run>)
    requires Serves(r, blocks) && AllReadable(r)
    ensures Records(r) == Flatten(blocks)
  {
    hide Serves, IndexRecords, Flatten, AllReadable;
    ServesSize(r, blocks);
    IndexRecordsRead(r, blocks, |blocks|);
    assert r.index[..|blocks|] == r.index && blocks[..|blocks|] == blocks;
  }

  /** A table written from sorted records with any block size opens, serves them all, gives them back and knows its
  range. */
  lemma WrittenReopens(run: Run, blockSize: nat, hash: Key -> Bloom.Hash, bits: nat)
    requires Sorted(run) && TableFits(BlocksOf(run, blockSize), Bloom.FilterBytes(KeysHash(run, hash), bits))
    requires Bloom.BitCount(|run|, bits) < TWO_32
    ensures var o := OpenTable(FileBytes(run, blockSize, hash, bits)); var blocks := BlocksOf(run, blockSize);
      && o.Some? && Serves(o.value, blocks) && FilterSound(o.value, blocks, hash) && AllReadable(o.value)
      && Records(o.value) == run && DistinctOffsets(o.value)
      && (run != [] ==> o.value.smallest == run[0].key && o.value.largest == run[|run| - 1].key)
  {
    hide TableFits, BlocksOf, OpenTable, TableBytes, Serves, FilterSound, AllReadable, Records, Bloom.FilterBytes,
      Bloom.BitCount, IndexOf, DistinctOffsets;
    var blocks, hs := BlocksOf(run, blockSize), KeysHash(run, hash);
    BlocksOfFlatten(run, blockSize);
    OpenedServes(blocks, hs, bits, hash);
    FilterNotEmpty(hs, bits);
    OpenRoundTrip(blocks, Bloom.FilterBytes(hs, bits));
    var r := OpenTable(FileBytes(run, blockSize, hash, bits)).value;
    OffsetsAscend(blocks, r);
    ReadableRecords(r, blocks);
  }

  /** At the engine's block size, the reader stands for the records. */
  lemma WrittenOpens(run: Run, hash: Key -> Bloom.Hash, bits: nat)
    requires Sorted(run) && TableRoom(run, hash, bits)
    ensures var o := OpenTable(FileBytes(run, BLOCK_SIZE, hash, bits));
      && o.Some? && StandsFor(o.value, run, hash) && AllReadable(o.value) && Records(o.value) == run
      && DistinctOffsets(o.value)
      && (run != [] ==> o.value.smallest == run[0].key && o.value.largest == run[|run| - 1].key)
  {
    hide TableFits, BlocksOf, OpenTable, FileBytes, Serves, FilterSound, AllReadable, Records, Bloom.FilterBytes,
      Bloom.BitCount, DistinctOffsets;
    WrittenReopens(run, BLOCK_SIZE, hash, bits);
  }

  /** No two blocks of a file lie at the same place. */
  ghost predicate DistinctOffsets(r: Reader) {
    forall i, j :: 0 <= i < j < |r.index| ==> r.index[i].offset != r.index[j].offset
  }

  lemma OffsetsAscend(blocks: seq<Run>, r: Reader)
    requires BlocksNonempty(blocks) && r.index == IndexOf(blocks)
    ensures DistinctOffsets(r)
  {
    hide BlocksBytes, RecordsBytes, IndexOf;
    forall i, j | 0 <= i < j < |blocks| ensures r.index[i].offset < r.index[j].offset {
      IndexAt(blocks, i);
      IndexAt(blocks, j);
      var front := blocks[..j];
      BlocksSplit(front, i);
      assert front[..i] == blocks[..i];
    }
  }

  lemma FilterNotEmpty(hs: seq<Bloom.Hash>, bits: nat)
    ensures Bloom.FilterBytes(hs, bits) != []
  {
  }

  // ---- A damaged table ---------------------------------------------------------------------------

  /** None of the bytes of block i changed. */
  ghost predicate Untouched(base: Bytes, damaged: Bytes, e: IndexEntry) {
    && e.offset + e.length + 4 <= |base| == |damaged|
    && base[e.offset..e.offset + e.length + 4] == damaged[e.offset..e.offset + e.length + 4]
  }

  /** The four bytes from here on lie in front of the last block. */
  ghost predicate InFront(run: Run, at: nat) {
    var blocks := BlocksOf(run, BLOCK_SIZE);
    blocks != [] && at + 4 <= |BlocksBytes(blocks[..|blocks| - 1])|
  }

  /** A table damaged within four consecutive bytes in front of its last block still opens, with the same index,
  filter and range; it serves the untouched blocks and rejects the others. */
  lemma DamagedOpens(run: Run, hash: Key -> Bloom.Hash, bits: nat, damaged: Bytes, at: nat)
    requires Sorted(run) && TableRoom(run, hash, bits)
    requires Crc32.DiffersWithin(FileBytes(run, BLOCK_SIZE, hash, bits), damaged, at)
    requires InFront(run, at)
    ensures var o := OpenTable(damaged); var base := FileBytes(run, BLOCK_SIZE, hash, bits);
      && o.Some? && StandsFor(o.value, run, hash) && DistinctOffsets(o.value)
      && o.value.index == IndexOf(BlocksOf(run, BLOCK_SIZE)) && o.value.base == damaged
      && (forall i :: 0 <= i < |o.value.index| ==>
            (Readable(o.value, i) <==> Untouched(base, damaged, o.value.index[i])))
      && (run != [] ==> o.value.smallest == run[0].key && o.value.largest == run[|run| - 1].key)
  {
    hide TableFits, BlocksOf, OpenTable, Serves, FilterSound, Bloom.FilterBytes, Bloom.BitCount, BlocksBytes, IndexOf,
      DistinctOffsets, Readable, Untouched, TableAround, TableBytes, LastIntact;
    var blocks, hs := BlocksOf(run, BLOCK_SIZE), KeysHash(run, hash);
    var filter, base := Bloom.FilterBytes(hs, bits), FileBytes(run, BLOCK_SIZE, hash, bits);
    BlocksOfFlatten(run, BLOCK_SIZE);
    OpenedServes(blocks, hs, bits, hash);
    FilterNotEmpty(hs, bits);
    OpenRoundTrip(blocks, filter);
    var data := DamagedData(blocks, filter, damaged, at);
    OpenAround(data, blocks, filter);
    var r, r' := OpenTable(base).value, OpenTable(damaged).value;
    OffsetsAscend(blocks, r');
    forall i | 0 <= i < |blocks|
      ensures Readable(r', i) <==> Untouched(base, damaged, r'.index[i])
      ensures ReadBlock(damaged, r'.index[i]) == Some(RecordsBytes(blocks[i])) || ReadBlock(damaged, r'.index[i]).None?
    {
      DamagedRead(r, blocks, hash, damaged, at, i);
    }
    SameIndexServes(r, r', blocks, hash);
  }

  /** A block with a changed byte is not untouched. */
  lemma TouchedAt(base: Bytes, damaged: Bytes, e: IndexEntry, j: nat)
    requires e.offset <= j < e.offset + e.length + 4 && j < |base| == |damaged| && base[j] != damaged[j]
    ensures !Untouched(base, damaged, e)
  {
    var lo, hi := e.offset, e.offset + e.length + 4;
    if hi <= |base| {
      assert base[lo..hi][j - lo] == base[j] && damaged[lo..hi][j - lo] == damaged[j];
    }
  }

  lemma {:induction false} BlockOfByte(blocks: seq<Run>, j: nat) returns (i: nat)
    requires j < |BlocksBytes(blocks)|
    ensures i < |blocks| && |BlocksBytes(blocks[..i])| <= j < |BlocksBytes(blocks[..i])| + |RecordsBytes(blocks[i])| + 4
  {
    hide RecordsBytes, Crc32.Checksum;
    var rest := blocks[..|blocks| - 1];
    if j < |BlocksBytes(rest)| {
      i := BlockOfByte(rest, j);
      assert rest[..i] == blocks[..i];
    } else {
      i := |blocks| - 1;
    }
  }

  /** Damage to the table's blocks always hits one of them. */
  lemma DamagedUnreadable(run: Run, hash: Key -> Bloom.Hash, bits: nat, damaged: Bytes, at: nat)
    requires Sorted(run) && TableRoom(run, hash, bits)
    requires Crc32.DiffersWithin(FileBytes(run, BLOCK_SIZE, hash, bits), damaged, at)
    requires InFront(run, at)
    ensures OpenTable(damaged).Some? && !AllReadable(OpenTable(damaged).value)
  {
    hide TableRoom, BlocksOf, OpenTable, StandsFor, Readable, Untouched, BlocksBytes, IndexOf, DistinctOffsets,
      FileBytes;
    var blocks, base := BlocksOf(run, BLOCK_SIZE), FileBytes(run, BLOCK_SIZE, hash, bits);
    DamagedOpens(run, hash, bits, damaged, at);
    BlocksOfFlatten(run, BLOCK_SIZE);
    var j :| 0 <= j < |base| && base[j] != damaged[j];
    var front := blocks[..|blocks| - 1];
    var i := BlockOfByte(front, j);
    assert front[..i] == blocks[..i];
    IndexAt(blocks, i);
    TouchedAt(base, damaged, OpenTable(damaged).value.index[i], j);
    assert !Readable(OpenTable(damaged).value, i);
  }

  /** A table damaged within four consecutive bytes in front of its footer opens if and only if all bytes from its last
  block on are as they were written. */
  lemma DamagedOpensIff(run: Run, hash: Key -> Bloom.Hash, bits: nat, damaged: Bytes, at: nat)
    requires Sorted(run) && TableRoom(run, hash, bits)
    requires var base := FileBytes(run, BLOCK_SIZE, hash, bits);
      && Crc32.DiffersWithin(base, damaged, at)
      && forall j :: 0 <= j < |base| && |base| <= j + FOOTER_SIZE ==> base[j] == damaged[j]
    ensures var base := FileBytes(run, BLOCK_SIZE, hash, bits);
      OpenTable(damaged).Some? <==>
        forall j :: LastStart(BlocksOf(run, BLOCK_SIZE)) <= j < |base| ==> base[j] == damaged[j]
  {
    hide OpenTable, TableFits, TableBytes, BlocksOf, Bloom.FilterBytes, Bloom.BitCount, LastStart, StandsFor, Readable,
      Untouched, DistinctOffsets, IndexOf;
    var blocks, hs := BlocksOf(run, BLOCK_SIZE), KeysHash(run, hash);
    var base, filter, start := FileBytes(run, BLOCK_SIZE, hash, bits), Bloom.FilterBytes(hs, bits), LastStart(blocks);
    if j :| start <= j < |base| && base[j] != damaged[j] {
      FilterNotEmpty(hs, bits);
      DamagedTailRejected(blocks, filter, damaged, at, j);
    } else {
      var window := WindowInFront(blocks, base, damaged, at);
      assert InFront(run, window) by { InFrontIs(run, window); }
      DamagedOpens(run, hash, bits, damaged, window);
    }
  }

  lemma InFrontIs(run: Run, at: nat)
    ensures InFront(run, at) <==> at + 4 <= LastStart(BlocksOf(run, BLOCK_SIZE))
  {
    hide BlocksOf, BlocksBytes;
  }

  /** Changed bytes that all lie in front of the last block lie in four bytes in front of it. */
  lemma WindowInFront(blocks: seq<Run>, base: Bytes, damaged: Bytes, at: nat) returns (window: nat)
    requires Crc32.DiffersWithin(base, damaged, at)
    requires forall j :: LastStart(blocks) <= j < |base| ==> base[j] == damaged[j]
    ensures window + 4 <= LastStart(blocks) && Crc32.DiffersWithin(base, damaged, window)
  {
    hide LastStart;
    var start := LastStart(blocks);
    var j :| 0 <= j < |base| && base[j] != damaged[j];
    LastStartSize(blocks);
    window := if at + 4 <= start then at else start - 4;
  }

  lemma LastStartSize(blocks: seq<Run>)
    ensures LastStart(blocks) == 0 || LastStart(blocks) >= 4
  {
    hide RecordsBytes, Crc32.Checksum;
  }

  lemma DamagedRead(r: Reader, blocks: seq<Run>, hash: Key -> Bloom.Hash, damaged: Bytes, at: nat, i: nat)
    requires Serves(r, blocks) && AllReadable(r) && i < |blocks| && Crc32.DiffersWithin(r.base, damaged, at)
    ensures Readable(r.(base := damaged), i) <==> Untouched(r.base, damaged, r.index[i])
    ensures ReadBlock(damaged, r.index[i]) == Some(RecordsBytes(blocks[i])) || ReadBlock(damaged, r.index[i]).None?
  {
    hide RecordsBytes, Flatten, Sorted, RunFits, Crc32.Checksum, DecodeFixed32;
    assert Readable(r, i);
    if Untouched(r.base, damaged, r.index[i]) {
      ReadSame(r.base, damaged, r.index[i]);
    } else {
      DamagedBlockRejected(r.base, damaged, r.index[i], at);
    }
  }

  lemma SameIndexServes(r: Reader, r': Reader, blocks: seq<Run>, hash: Key -> Bloom.Hash)
    requires Serves(r, blocks) && FilterSound(r, blocks, hash) && r'.index == r.index && r'.filter == r.filter
    requires forall i :: 0 <= i < |blocks| && i < |r'.index| ==>
      ReadBlock(r'.base, r'.index[i]) == Some(RecordsBytes(blocks[i])) || ReadBlock(r'.base, r'.index[i]).None?
    ensures Serves(r', blocks) && FilterSound(r', blocks, hash)
  {
    hide ReadBlock, RecordsBytes, Flatten, Sorted, RunFits, Bloom.MayContain;
  }

  /** The damage lies in the blocks, in front of the last one. */
  lemma DamagedData(blocks: seq<Run>, filter: Bytes, damaged: Bytes, at: nat) returns (data: Bytes)
    requires BlocksNonempty(blocks) && blocks != [] && Crc32.DiffersWithin(TableBytes(blocks, filter), damaged, at)
    requires at + 4 <= |BlocksBytes(blocks[..|blocks| - 1])|
    ensures LastIntact(data, blocks) && damaged == TableAround(data, blocks, filter)
  {
    hide IndexOf, IndexBytes, FooterBytes, WithChecksum, RecordsBytes, Flatten;
    var whole, base, n := BlocksBytes(blocks), TableBytes(blocks, filter), |BlocksBytes(blocks[..|blocks| - 1])|;
    WrittenIsIntact(blocks);
    data := damaged[..|whole|];
    assert base == TableAround(whole, blocks, filter);
    assert base[..|whole|] == whole;
    assert damaged[|whole|..] == base[|whole|..];
    assert data[n..] == whole[n..];
    assert damaged == data + damaged[|whole|..];
    assert base == whole + base[|whole|..];
    AroundSplit(whole, data, blocks, filter);
  }

  lemma AroundSplit(whole: Bytes, data: Bytes, blocks: seq<Run>, filter: Bytes)
    requires BlocksNonempty(blocks) && |whole| == |data|
    ensures TableAround(data, blocks, filter) == data + TableAround(whole, blocks, filter)[|whole|..]
  {
    hide IndexOf, IndexBytes, FooterBytes, WithChecksum, Flatten;
    var index := IndexBytes(IndexOf(blocks));
    var tail := WithChecksum(filter) + WithChecksum(index)
              + FooterBytes(|data|, |filter|, |data| + |filter| + 4, |index|, |Flatten(blocks)|);
    assert TableAround(whole, blocks, filter) == whole + tail;
    assert TableAround(data, blocks, filter) == data + tail;
  }
}
