/** What the block cache may hold: the blocks of the open tables, as they were written. */
module BlockStore {
  import opened Keys
  import opened Runs
  import opened TableFormat
  import opened TableWriter
  import opened TableReader
  import opened TableGet
  import opened TableFiles
  import opened Cache

  /** The records each open table was written from. */
  type Written = map<nat, Run>

  ghost predicate HasBlock(readers: Readers, id: BlockId) {
    id.file in readers && exists i :: 0 <= i < |readers[id.file].index| && readers[id.file].index[i].offset == id.offset
  }

  /** The block written at an offset. */
  ghost function BlockAt(index: seq<IndexEntry>, blocks: seq<Run>, offset: nat): Bytes
    decreases |index|
  {
    if index == [] || blocks == [] then []
    else if index[0].offset == offset then RecordsBytes(blocks[0])
    else BlockAt(index[1..], blocks[1..], offset)
  }

  ghost function BlockOf(readers: Readers, written: Written, id: BlockId): Bytes {
    if id.file in readers && id.file in written then
      BlockAt(readers[id.file].index, BlocksOf(written[id.file], BLOCK_SIZE), id.offset)
    else []
  }

  ghost function IdsOf(readers: Readers): (ids: set<BlockId>)
    ensures forall id :: id in ids <==> HasBlock(readers, id)
  {
    set n, i | n in readers && 0 <= i < |readers[n].index| :: BlockId(n, readers[n].index[i].offset)
  }

  /** Every block of every open table, by file and offset. */
  ghost function StoreOf(readers: Readers, written: Written): (store: map<BlockId, Bytes>)
    ensures forall id :: id in store <==> HasBlock(readers, id)
    ensures forall id :: id in store ==> store[id] == BlockOf(readers, written, id)
  {
    map id | id in IdsOf(readers) :: BlockOf(readers, written, id)
  }

  lemma {:induction false} BlockAtIndex(index: seq<IndexEntry>, blocks: seq<Run>, i: nat)
    requires i < |index| == |blocks| && forall j :: 0 <= j < i ==> index[j].offset != index[i].offset
    ensures BlockAt(index, blocks, index[i].offset) == RecordsBytes(blocks[i])
    decreases i
  {
    hide RecordsBytes;
    if i > 0 {
      assert index[1..][i - 1] == index[i] && blocks[1..][i - 1] == blocks[i];
      BlockAtIndex(index[1..], blocks[1..], i - 1);
    }
  }

  lemma StoreKnows(readers: Readers, written: Written, n: nat)
    requires n in readers && n in written && DistinctOffsets(readers[n])
    requires Serves(readers[n], BlocksOf(written[n], BLOCK_SIZE))
    ensures CacheKnows(StoreOf(readers, written), n, readers[n], BlocksOf(written[n], BLOCK_SIZE))
  {
    hide RecordsBytes, BlockAt, BlocksOf, Serves;
    var r, blocks := readers[n], BlocksOf(written[n], BLOCK_SIZE);
    ServesSize(r, blocks);
    forall i | 0 <= i < |blocks|
      ensures var id := BlockId(n, r.index[i].offset);
        id in StoreOf(readers, written) && StoreOf(readers, written)[id] == RecordsBytes(blocks[i])
    {
      assert HasBlock(readers, BlockId(n, r.index[i].offset));
      BlockAtIndex(r.index, blocks, i);
    }
  }

  /** Opening one more table leaves what is cached of the others right. */
  lemma StoreGrows(readers: Readers, written: Written, n: nat, r: Reader, run: Run, c: seq<Cached>)
    requires n !in readers && Faithful(c, StoreOf(readers, written))
    ensures Faithful(c, StoreOf(readers[n := r], written[n := run]))
  {
    hide BlockAt, StoreOf, HasBlock, BlockOf;
    forall x | x in c
      ensures x.id in StoreOf(readers[n := r], written[n := run])
      ensures x.block == StoreOf(readers[n := r], written[n := run])[x.id]
    {
      assert x.id in StoreOf(readers, written);
      SameBlock(readers, written, n, r, run, x.id);
    }
  }

  lemma SameBlock(readers: Readers, written: Written, n: nat, r: Reader, run: Run, id: BlockId)
    requires n !in readers && HasBlock(readers, id)
    ensures HasBlock(readers[n := r], id)
    ensures BlockOf(readers[n := r], written[n := run], id) == BlockOf(readers, written, id)
  {
    hide BlockAt, BlocksOf;
  }
}
