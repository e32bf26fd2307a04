/** Writing a table: records gathered into blocks, then filter, index and footer. */
module TableWriter {
  import opened Keys
  import opened Coding
  import opened Runs
  import opened TableFormat
  import Crc32
  import Bloom

  /** Finished blocks and the records of the block being filled. */
  datatype Cutting = Cutting(blocks: seq<Run>, cur: Run)

  /** A block ends with the record that brings it to the block size. */
  function AddRecord(c: Cutting, e: Entry, blockSize: nat): Cutting {
    if |RecordsBytes(c.cur + [e])| >= blockSize then Cutting(c.blocks + [c.cur + [e]], [])
    else Cutting(c.blocks, c.cur + [e])
  }

  function Cut(run: Run, blockSize: nat): Cutting {
    if run == [] then Cutting([], []) else AddRecord(Cut(run[..|run| - 1], blockSize), run[|run| - 1], blockSize)
  }

  /** The blocks once the block being filled is closed. */
  function Closed(blocks: seq<Run>, cur: Run): seq<Run> {
    if cur == [] then blocks else blocks + [cur]
  }

  /** The blocks of a finished table. */
  function BlocksOf(run: Run, blockSize: nat): seq<Run> {
    var c := Cut(run, blockSize);
    Closed(c.blocks, c.cur)
  }

  lemma FlattenAppend(blocks: seq<Run>, b: Run)
    ensures Flatten(blocks + [b]) == Flatten(blocks) + b
  {
    assert (blocks + [b])[..|blocks|] == blocks;
  }

  /** Cutting loses nothing: the blocks are the records in order, and none is empty. */
  lemma {:induction false} CutKeepsRecords(run: Run, blockSize: nat)
    ensures Flatten(Cut(run, blockSize).blocks) + Cut(run, blockSize).cur == run
    ensures BlocksNonempty(Cut(run, blockSize).blocks)
  {
    hide RecordsBytes, Flatten;
    if run == [] {
      FlattenNone();
    } else {
      var rest, e := run[..|run| - 1], run[|run| - 1];
      CutKeepsRecords(rest, blockSize);
      var c, d := Cut(rest, blockSize), Cut(run, blockSize);
      FlattenAppend(c.blocks, c.cur + [e]);
      assert Flatten(c.blocks) + (c.cur + [e]) == rest + [e] == run;
      if d.cur == [] {
        assert Flatten(d.blocks) + [] == Flatten(d.blocks);
      }
    }
  }

  /** Every block but the one being filled ends with the record that brought it to the block size. */
  lemma {:induction false} BlocksBySize(run: Run, blockSize: nat)
    requires blockSize > 0
    ensures |RecordsBytes(Cut(run, blockSize).cur)| < blockSize
    ensures forall b :: b in Cut(run, blockSize).blocks ==> FullWithLast(b, blockSize)
  {
    hide RecordsBytes;
    RecordsLast([]);
    if run != [] {
      var rest, e := run[..|run| - 1], run[|run| - 1];
      BlocksBySize(rest, blockSize);
      var c := Cut(rest, blockSize);
      assert (c.cur + [e])[..|c.cur + [e]| - 1] == c.cur;
      assert forall b :: b in c.blocks + [c.cur + [e]] ==> b in c.blocks || b == c.cur + [e];
    }
  }

  predicate FullWithLast(b: Run, blockSize: nat) {
    b != [] && |RecordsBytes(b)| >= blockSize && |RecordsBytes(b[..|b| - 1])| < blockSize
  }

  lemma FlattenNone()
    ensures Flatten([]) == []
  {
  }

  lemma BlocksOfFlatten(run: Run, blockSize: nat)
    ensures Flatten(BlocksOf(run, blockSize)) == run
    ensures BlocksNonempty(BlocksOf(run, blockSize))
  {
    hide Cut, Flatten;
    CutKeepsRecords(run, blockSize);
    var c := Cut(run, blockSize);
    FlattenAppend(c.blocks, c.cur);
    assert c.cur == [] ==> Flatten(c.blocks) + c.cur == Flatten(c.blocks);
  }

  function KeysHash(run: Run, hash: Key -> Bloom.Hash): (hs: seq<Bloom.Hash>)
    ensures |hs| == |run|
    ensures forall i :: 0 <= i < |run| ==> hs[i] == hash(run[i].key)
  {
    seq(|run|, i requires 0 <= i < |run| => hash(run[i].key))
  }

  /** The bytes of the table a list of records is written to. */
  function FileBytes(run: Run, blockSize: nat, hash: Key -> Bloom.Hash, bitsPerKey: nat): Bytes {
    BlocksOfFlatten(run, blockSize);
    TableBytes(BlocksOf(run, blockSize), Bloom.FilterBytes(KeysHash(run, hash), bitsPerKey))
  }

  class SSTableWriter {
    const blockSize: nat
    const hash: Key -> Bloom.Hash
    const bloom: Bloom.BloomBuilder
    /** The file written so far. */
    var file: Bytes
    var offset: nat
    var numEntries: nat
    var blockBuf: Bytes
    var blockFirstKey: Key
    var index: seq<IndexEntry>
    var finished: bool
    ghost var run: Run

    /** The state while records are being added. */
    ghost predicate Open()
      reads this, bloom
    {
      var c := Cut(run, blockSize);
      && !finished
      && BlocksNonempty(c.blocks)
      && file == BlocksBytes(c.blocks) && offset == |file|
      && blockBuf == RecordsBytes(c.cur)
      && (c.cur != [] ==> blockFirstKey == c.cur[0].key)
      && index == IndexOf(c.blocks)
      && numEntries == |run|
      && bloom.hashes == KeysHash(run, hash)
    }

    constructor (blockSize: nat, bitsPerKey: nat, hash: Key -> Bloom.Hash)
      ensures Open() && run == [] && fresh(bloom) && bloom.bitsPerKey == bitsPerKey
      ensures this.blockSize == blockSize && this.hash == hash
    {
      this.blockSize := blockSize;
      this.hash := hash;
      bloom := new Bloom.BloomBuilder(bitsPerKey);
      file, offset, numEntries, blockBuf, blockFirstKey, index, finished := [], 0, 0, [], [], [], false;
      run := [];
    }

    method Add(key: Key, value: Bytes, tombstone: bool)
      requires Open()
      modifies this, bloom
      ensures Open() && run == old(run) + [Entry(key, value, tombstone)]
    {
      hide RecordBytes, RecordsBytes, IndexOf, BlocksBytes, Cut, PutFixed32, Crc32.Checksum;
      ghost var e, c := Entry(key, value, tombstone), Cut(run, blockSize);
      CutStep(run, e, blockSize);
      EmptyBuffer([]);
      EmptyBuffer(c.cur);
      if blockBuf == [] {
        blockFirstKey := key;
      }
      AppendRecord(c.cur, e);
      blockBuf := blockBuf + RecordBytes(Entry(key, value, tombstone));
      bloom.Add(key, hash);
      numEntries := numEntries + 1;
      ghost var after := run + [e];
      assert KeysHash(after, hash) == KeysHash(run, hash) + [hash(key)];
      run := after;
      if |blockBuf| >= blockSize {
        FlushBlock(c.blocks, c.cur + [e]);
      }
    }

    /** Write the current block, its checksum and its index entry; nothing if the block is empty. */
    method FlushBlock(ghost blocks: seq<Run>, ghost cur: Run)
      requires BlocksNonempty(blocks)
      requires file == BlocksBytes(blocks) && offset == |file| && index == IndexOf(blocks)
      requires blockBuf == RecordsBytes(cur) && (cur != [] ==> blockFirstKey == cur[0].key)
      modifies this`file, this`offset, this`index, this`blockBuf
      ensures BlocksNonempty(Closed(blocks, cur))
      ensures file == BlocksBytes(Closed(blocks, cur)) && offset == |file| && index == IndexOf(Closed(blocks, cur))
      ensures blockBuf == []
    {
      hide RecordsBytes, PutFixed32, Crc32.Checksum, BlocksBytes, IndexOf;
      EmptyBuffer(cur);
      if blockBuf == [] {
        return;
      }
      AppendBlock(blocks, cur);
      var blockOffset := offset;
      var crc := Crc32.Compute(blockBuf);
      file := file + blockBuf;
      file := file + PutFixed32(crc);
      offset := offset + |blockBuf| + 4;
      index := index + [IndexEntry(blockFirstKey, blockOffset, |blockBuf|)];
      blockBuf := [];
    }

    /** The state once the table is written. */
    ghost predicate Done()
      reads this, bloom
    {
      finished && numEntries == |run| && file == FileBytes(run, blockSize, hash, bloom.bitsPerKey) && offset == |file|
    }

    /** Finishing twice is finishing once. */
    method Finish()
      requires Open() || Done()
      modifies this, bloom
      ensures Done() && run == old(run)
      ensures old(finished) ==> unchanged(this)
    {
      hide FileBytes, Cut, BlocksBytes, IndexOf, RecordsBytes;
      if !finished {
        WriteTail();
      }
    }

    /** Flush the last block and write filter, index and footer. */
    method WriteTail()
      requires Open()
      modifies this, bloom
      ensures Done() && run == old(run)
    {
      hide RecordsBytes, PutFixed32, PutFixed64, Crc32.Checksum, BlocksBytes, IndexOf, IndexBytes, Cut,
        Bloom.FilterBytes;
      hide FooterBytes, TableBytes, Flatten;
      finished := true;
      ghost var c := Cut(run, blockSize);
      FlushBlock(c.blocks, c.cur);
      ghost var blocks := BlocksOf(run, blockSize);
      BlocksOfFlatten(run, blockSize);
      assert file == BlocksBytes(blocks) && index == IndexOf(blocks);

      var filterBuf := bloom.Finish();
      var filterOffset, filterLength := offset, |filterBuf|;
      var filterCrc := Crc32.Compute(filterBuf);
      file := file + filterBuf;
      file := file + PutFixed32(filterCrc);
      offset := offset + filterLength + 4;

      var indexBuf := EncodeIndex(index);
      var indexOffset, indexLength := offset, |indexBuf|;
      var indexCrc := Crc32.Compute(indexBuf);
      file := file + indexBuf;
      file := file + PutFixed32(indexCrc);
      offset := offset + indexLength + 4;

      var footer := FooterBytes(filterOffset, filterLength, indexOffset, indexLength, numEntries);
      file := file + footer;
      offset := offset + |footer|;
      AssembleTable(blocks, filterBuf, filterOffset, indexBuf, file);
    }
  }

  method EncodeIndex(index: seq<IndexEntry>) returns (buf: Bytes)
    ensures buf == IndexBytes(index)
  {
    hide PutFixed32, PutFixed64;
    buf := [];
    var n := 0;
    while n < |index|
      invariant 0 <= n <= |index|
      invariant buf == IndexBytes(index[..n])
    {
      assert index[..n + 1][..n] == index[..n];
      var e := index[n];
      buf := buf + (PutLengthPrefixed(e.firstKey) + PutFixed64(e.offset) + PutFixed32(e.length));
      n := n + 1;
    }
    assert index[..n] == index;
  }

  lemma AssembleTable(blocks: seq<Run>, filter: Bytes, filterOffset: nat, index: Bytes, file: Bytes)
    requires BlocksNonempty(blocks) && filterOffset == |BlocksBytes(blocks)| && index == IndexBytes(IndexOf(blocks))
    requires file == BlocksBytes(blocks) + filter + PutFixed32(Crc32.Checksum(filter)) + index
                   + PutFixed32(Crc32.Checksum(index))
                   + FooterBytes(filterOffset, |filter|, filterOffset + |filter| + 4, |index|, |Flatten(blocks)|)
    ensures file == TableBytes(blocks, filter)
  {
    hide RecordsBytes, PutFixed32, PutFixed64, Crc32.Checksum, BlocksBytes, IndexOf, IndexBytes, FooterBytes, Flatten;
    var data := BlocksBytes(blocks);
    assert data + filter + PutFixed32(Crc32.Checksum(filter)) == data + WithChecksum(filter);
    assert data + WithChecksum(filter) + index + PutFixed32(Crc32.Checksum(index))
        == data + WithChecksum(filter) + WithChecksum(index);
  }

  lemma CutStep(run: Run, e: Entry, blockSize: nat)
    ensures Cut(run + [e], blockSize) == AddRecord(Cut(run, blockSize), e, blockSize)
  {
    hide AddRecord;
    assert (run + [e])[..|run|] == run;
  }

  lemma AppendBlock(blocks: seq<Run>, cur: Run)
    requires BlocksNonempty(blocks) && cur != []
    ensures BlocksNonempty(blocks + [cur])
    ensures BlocksBytes(blocks + [cur]) == BlocksBytes(blocks) + WithChecksum(RecordsBytes(cur))
    ensures IndexOf(blocks + [cur]) ==
            IndexOf(blocks) + [IndexEntry(cur[0].key, |BlocksBytes(blocks)|, |RecordsBytes(cur)|)]
  {
    hide RecordsBytes, WithChecksum;
    assert (blocks + [cur])[..|blocks|] == blocks;
  }

  lemma AppendRecord(cur: Run, e: Entry)
    ensures RecordsBytes(cur + [e]) == RecordsBytes(cur) + RecordBytes(e)
  {
    assert (cur + [e])[..|cur|] == cur;
  }

  lemma EmptyBuffer(cur: Run)
    ensures RecordsBytes(cur) == [] <==> cur == []
  {
  }
}
