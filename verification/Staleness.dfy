/** What a damaged block does to a lookup: the table keeps quiet, and an older table may answer in its place. */
module Staleness {
  import opened Keys
  import opened Runs
  import opened Versions
  import opened TableFormat
  import opened TableWriter
  import opened TableReader
  import opened TableGet
  import opened TableFiles
  import opened Reads
  import opened Room
  import opened Cache
  import Crc32
  import Bloom

  // ---- Which damage makes a table keep quiet -----------------------------------------------------

  /** The block that holds a key is the last one that does not start behind it. */
  lemma KeyCandidate(blocks: seq<Run>, i: nat, k: Key)
    requires BlocksNonempty(blocks) && Sorted(Flatten(blocks)) && i < |blocks| && Lookup(blocks[i], k).Some?
    ensures Candidate(blocks, k, i)
  {
    hide Lt, Le, Rank, Flatten, Lookup;
    var m :| 0 <= m < |blocks[i]| && blocks[i][m] == Lookup(blocks[i], k).value;
    FlattenAt(blocks, i);
    BlockEntry(blocks, i, m);
    BlockEntry(blocks, i, 0);
    if i + 1 < |blocks| {
      BlockEntry(blocks, i + 1, 0);
    }
  }

  /** The index leads to the block that holds the key. */
  lemma KeyBlock(r: Reader, blocks: seq<Run>, i: nat, k: Key)
    requires Serves(r, blocks) && i < |blocks| && Lookup(blocks[i], k).Some?
    ensures CandidateIndex(r.index, k) == i
  {
    hide Lt, Le, Rank, Flatten, Sorted, Lookup, CandidateIndex, RunFits, ReadBlock, RecordsBytes;
    KeyCandidate(blocks, i, k);
    forall a, b | 0 <= a < b < |r.index| ensures Lt(r.index[a].firstKey, r.index[b].firstKey) {
      FirstKeysAscend(blocks, a, b);
    }
    CandidateAt(r.index, k, i + 1);
  }

  lemma BlockEntry(blocks: seq<Run>, i: nat, m: nat)
    requires i < |blocks| && m < |blocks[i]|
    ensures Start(blocks, i) + m < |Flatten(blocks)| && Flatten(blocks)[Start(blocks, i) + m] == blocks[i][m]
  {
    hide Flatten;
    FlattenAt(blocks, i);
    var run, lo, hi := Flatten(blocks), Start(blocks, i), Start(blocks, i + 1);
    assert run[lo..hi][m] == run[lo + m];
  }

  /** A table damaged within four consecutive bytes in front of its last block opens without complaint, and answers for
  a key it holds if and only if the bytes of the key's block are untouched or the block is cached. */
  lemma DamagedAnswersIff(run: Run, hash: Key -> Bloom.Hash, bits: nat, damaged: Bytes, at: nat, i: nat, k: Key,
                          file: nat, c: seq<Cached>)
    requires Sorted(run) && TableRoom(run, hash, bits)
    requires Crc32.DiffersWithin(FileBytes(run, BLOCK_SIZE, hash, bits), damaged, at)
    requires var blocks := BlocksOf(run, BLOCK_SIZE);
      i < |blocks| && InFront(run, at) && Lookup(blocks[i], k).Some?
    ensures OpenTable(damaged).Some? && |OpenTable(damaged).value.index| == |BlocksOf(run, BLOCK_SIZE)|
    ensures var r := OpenTable(damaged).value;
      Answerable(r, k, hash, file, c) <==>
        || Holds(c, BlockId(file, r.index[i].offset))
        || Untouched(FileBytes(run, BLOCK_SIZE, hash, bits), damaged, r.index[i])
  {
    hide TableRoom, FileBytes, BlocksOf, OpenTable, Serves, DistinctOffsets, Readable, Untouched, IndexOf, BlocksBytes,
      CandidateIndex, Bloom.MayContain, Lookup, Flatten;
    DamagedOpens(run, hash, bits, damaged, at);
    var r, blocks := OpenTable(damaged).value, BlocksOf(run, BLOCK_SIZE);
    ServesSize(r, blocks);
    KeyBlock(r, blocks, i, k);
    KeyPasses(r, blocks, hash, i, k);
  }

  lemma KeyPasses(r: Reader, blocks: seq<Run>, hash: Key -> Bloom.Hash, i: nat, k: Key)
    requires FilterSound(r, blocks, hash) && i < |blocks| && Lookup(blocks[i], k).Some?
    ensures Bloom.WellFormed(r.filter) && Bloom.MayContain(r.filter, hash(k))
  {
    hide Lookup, Flatten, Bloom.MayContain;
    var m :| 0 <= m < |blocks[i]| && blocks[i][m] == Lookup(blocks[i], k).value;
    BlockEntry(blocks, i, m);
    assert blocks[i][m] in Flatten(blocks);
  }

  // ---- Two versions of one key -------------------------------------------------------------------

  /** Two tables of L0 that hold the key: the newer one answers if it can, and otherwise the older one, which can. */
  lemma TwoTables(older: FileMeta, newer: FileMeta, q: Query, c: seq<Cached>)
    requires Lookup(newer.run, q.key).Some? && Lookup(older.run, q.key).Some?
    requires older.number in q.readers && AllReadable(q.readers[older.number])
    ensures var v := Version([[older, newer]]);
      && View(v, q.key) == Lookup(newer.run, q.key)
      && Answer(Tables(v), q, c) == Result(Lookup(if CanAnswer(newer, q, c) then newer.run else older.run, q.key))
  {
    hide Lookup, CanAnswer, AfterTurn, AllReadable, Answer, Newest;
    var v := Version([[older, newer]]);
    assert Tables(v) == [newer] + [older] by {
      assert DeepTables(v, 1) == [];
    }
    AnswerStep(newer, [older], q, c);
    assert [older] + [] == [older];
    AnswerStep(older, [], q, AfterTurn(newer, q, c));
    ReadableAnswers(q.readers[older.number], q, older.number, AfterTurn(newer, q, c));
    assert CanAnswer(older, q, AfterTurn(newer, q, c)) by {
      CanAnswerIs(older, q, AfterTurn(newer, q, c));
    }
    TablesView(v, q.key);
    NewestAt(RunsIn(Tables(v)), 0, q.key);
  }

  lemma CanAnswerIs(f: FileMeta, q: Query, c: seq<Cached>)
    requires f.number in q.readers && Answerable(q.readers[f.number], q.key, q.hash, f.number, c)
    ensures CanAnswer(f, q, c)
  {
    hide Answerable;
  }

  // ---- A stale answer ----------------------------------------------------------------------------

  const OLD_RUN: Run := [Entry([], [1], false)]
  const SECOND: Entry := Entry([0], [], false)

  /** This record fills a block. */
  function First(): Entry {
    Entry([], seq(BLOCK_SIZE, i => 0), false)
  }

  function NewRun(): Run {
    [First(), SECOND]
  }

  lemma NewBlocks()
    ensures BlocksOf(NewRun(), BLOCK_SIZE) == [[First()], [SECOND]]
  {
    hide RecordsBytes;
    OneBulk(First());
    OneBulk(SECOND);
    assert NewRun()[..1] == [First()] && NewRun()[..1][..0] == [];
    assert [] + [First()] == [First()] && [] + [SECOND] == [SECOND];
    assert Cut([], BLOCK_SIZE) == Cutting([], []);
    assert Cut([First()], BLOCK_SIZE) == Cutting([[First()]], []);
    assert Cut(NewRun(), BLOCK_SIZE) == Cutting([[First()]], [SECOND]);
  }

  function OldFile(hash: Key -> Bloom.Hash, bits: nat): Bytes {
    FileBytes(OLD_RUN, BLOCK_SIZE, hash, bits)
  }

  function NewFile(hash: Key -> Bloom.Hash, bits: nat): Bytes {
    FileBytes(NewRun(), BLOCK_SIZE, hash, bits)
  }

  function Flipped(s: Bytes): Bytes {
    if s == [] then [] else s[0 := 255 - s[0]]
  }

  /** The newer table with its first byte changed. */
  function Damaged(hash: Key -> Bloom.Hash, bits: nat): Bytes {
    Flipped(NewFile(hash, bits))
  }

  lemma FlippedDiffers(s: Bytes)
    requires s != []
    ensures Crc32.DiffersWithin(s, Flipped(s), 0) && s[0] != Flipped(s)[0]
  {
    assert s[0] != 255 - s[0];
  }

  lemma NewFileSize(hash: Key -> Bloom.Hash, bits: nat)
    ensures NewFile(hash, bits) != []
  {
    hide BlocksOf, Bloom.FilterBytes;
    BlocksOfFlatten(NewRun(), BLOCK_SIZE);
  }

  /** Both tables in L0, the newer one behind the older one. */
  function TwoFiles(hash: Key -> Bloom.Hash, bits: nat): Version {
    Version([[FileMeta(1, [], [], |OldFile(hash, bits)|, 1, OLD_RUN),
              FileMeta(2, [], [0], |NewFile(hash, bits)|, 2, NewRun())]])
  }

  lemma RunsSorted()
    ensures Sorted(OLD_RUN) && Sorted(NewRun())
  {
  }

  lemma TwoFilesValid(hash: Key -> Bloom.Hash, bits: nat)
    ensures ValidVersion(TwoFiles(hash, bits))
  {
    hide OldFile, NewFile, Sorted;
    RunsSorted();
  }

  lemma FilesRoom(hash: Key -> Bloom.Hash, bits: nat)
    requires bits < TWO_30
    ensures TableRoom(OLD_RUN, hash, bits) && TableRoom(NewRun(), hash, bits)
  {
    hide TableRoom, Bulk;
    OneBulk(First());
    OneBulk(SECOND);
    OneBulk(OLD_RUN[0]);
    BulkSplit(NewRun(), 1);
    assert NewRun()[..1] == [First()] && NewRun()[1..] == [SECOND];
    SmallTableFits(OLD_RUN, hash, bits);
    SmallTableFits(NewRun(), hash, bits);
  }

  lemma FirstOffset()
    ensures IndexOf([[First()], [SECOND]])[0].offset == 0
  {
    hide RecordsBytes;
    assert [[First()], [SECOND]][..1] == [[First()]] && [[First()]][..0] == [];
    assert IndexOf([[First()]])[0].offset == 0;
  }

  lemma FirstBlock()
    ensures var blocks := BlocksOf(NewRun(), BLOCK_SIZE);
      |blocks| == 2 && Lookup(blocks[0], []).Some? && InFront(NewRun(), 0)
  {
    hide BlocksOf, RecordsBytes;
    NewBlocks();
    assert [[First()], [SECOND]][..1] == [[First()]] && [[First()]][..0] == [];
  }

  lemma SameSize(a: Bytes, b: Bytes, at: nat)
    requires Crc32.DiffersWithin(a, b, at)
    ensures |a| == |b|
  {
  }

  /** The damaged table opens, and cannot answer for the key of its first record. */
  lemma NewerKeepsQuiet(hash: Key -> Bloom.Hash, bits: nat)
    requires bits < TWO_30
    ensures var o := OpenTable(Damaged(hash, bits));
      && o.Some? && StandsFor(o.value, NewRun(), hash) && !Answerable(o.value, [], hash, 2, [])
  {
    hide TableRoom, FileBytes, BlocksOf, OpenTable, DistinctOffsets, Readable, Untouched, IndexOf, BlocksBytes,
      StandsFor, Answerable, Flipped, Sorted, Crc32.DiffersWithin;
    var base, damaged := NewFile(hash, bits), Damaged(hash, bits);
    NewFileSize(hash, bits);
    FlippedDiffers(base);
    RunsSorted();
    FilesRoom(hash, bits);
    FirstBlock();
    DamagedOpens(NewRun(), hash, bits, damaged, 0);
    DamagedAnswersIff(NewRun(), hash, bits, damaged, 0, 0, [], 2, []);
    NewBlocks();
    FirstOffset();
    SameSize(base, damaged, 0);
    TouchedAt(base, damaged, OpenTable(damaged).value.index[0], 0);
  }

  /** A lookup of a key whose newest record lies in a damaged block returns the overwritten value, as if all were
  well. */
  method StaleRead(hash: Key -> Bloom.Hash, bits: nat) returns (readers: Readers, res: LookupResult)
    requires bits < TWO_30
    ensures readers.Keys == {1, 2} && OpenTable(OldFile(hash, bits)) == Some(readers[1])
    ensures OpenTable(Damaged(hash, bits)) == Some(readers[2])
    ensures Crc32.DiffersWithin(NewFile(hash, bits), Damaged(hash, bits), 0)
    ensures Result(View(TwoFiles(hash, bits), [])) == Found(First().value)
    ensures res == Found([1])
  {
    hide TableRoom, Flipped, Crc32.DiffersWithin, FileBytes, OpenTable, StandsFor, AllReadable, DistinctOffsets,
      Answerable, ValidVersion, Answer, View, First, Sealed;
    RunsSorted();
    FilesRoom(hash, bits);
    NewFileSize(hash, bits);
    FlippedDiffers(NewFile(hash, bits));
    WrittenOpens(OLD_RUN, hash, bits);
    NewerKeepsQuiet(hash, bits);
    var old1 := TableReader.Open(OldFile(hash, bits));
    var new2 := TableReader.Open(Damaged(hash, bits));
    readers := map[1 := old1.value, 2 := new2.value];
    ghost var q := Query(readers, hash, [], 0);
    var v := TwoFiles(hash, bits);
    TwoFilesValid(hash, bits);
    TwoTables(v.levels[0][0], v.levels[0][1], q, []);
    res := GetFromVersion(v, readers, [], hash, null, map[]);
  }
}
