/** Bounds under which every table the engine writes fits the file format. */
module Room {
  import opened Keys
  import opened Coding
  import opened Runs
  import opened TableFormat
  import opened TableWriter
  import opened TableFiles
  import Bloom

  const TWO_31: nat := 0x8000_0000

  /** The bytes of the records of a run. */
  function Bulk(run: Run): nat {
    |RecordsBytes(run)|
  }

  // ---- One table ---------------------------------------------------------------------------------

  lemma BulkSplit(run: Run, m: nat)
    requires m <= |run|
    ensures Bulk(run) == Bulk(run[..m]) + Bulk(run[m..])
  {
    hide RecordsBytes;
    RecordsSplit(run, m);
  }

  lemma {:induction false} BulkOfEntries(run: Run)
    ensures Bulk(run) >= 9 * |run|
    ensures forall e :: e in run ==> |e.key| + |e.value| < Bulk(run)
  {
    if run != [] {
      BulkOfEntries(run[..|run| - 1]);
    }
  }

  /** All blocks together: the records, and a checksum each. */
  lemma {:induction false} BlocksBulk(blocks: seq<Run>)
    requires BlocksNonempty(blocks)
    ensures |BlocksBytes(blocks)| == Bulk(Flatten(blocks)) + 4 * |blocks|
    ensures |blocks| <= |Flatten(blocks)|
    ensures |IndexBytes(IndexOf(blocks))| <= 16 * |blocks| + Bulk(Flatten(blocks))
  {
    hide RecordsBytes;
    if blocks == [] {
      RecordsLast([]);
    } else {
      var rest, last := blocks[..|blocks| - 1], blocks[|blocks| - 1];
      BlocksBulk(rest);
      BulkSplit(Flatten(blocks), |Flatten(rest)|);
      assert Flatten(blocks)[..|Flatten(rest)|] == Flatten(rest);
      assert Flatten(blocks)[|Flatten(rest)|..] == last;
      BulkOfEntries(last);
      assert last[0] in last;
      var index := IndexOf(blocks);
      assert index[..|index| - 1] == IndexOf(rest);
    }
  }

  lemma FilterBulk(hs: seq<Bloom.Hash>, bits: nat)
    requires |hs| * bits < TWO_31
    ensures |Bloom.FilterBytes(hs, bits)| < TWO_31 && Bloom.BitCount(|hs|, bits) < TWO_32
  {
    hide Bloom.SetKeys;
  }

  // ---- The tables the engine writes --------------------------------------------------------------

  const TWO_29: nat := 0x2000_0000
  const TWO_30: nat := 0x4000_0000
  const TWO_60: nat := 0x1000_0000_0000_0000

  /** A record that fits the 32-bit length of a block, behind a block's worth of others. */
  predicate SmallEntry(e: Entry) {
    |e.key| + |e.value| + RECORD_HEADER + BLOCK_SIZE + 4 < TWO_32
  }

  predicate SmallRun(run: Run) {
    forall e :: e in run ==> SmallEntry(e)
  }

  /** The memtable's table fits the file format. */
  predicate MemFits(mem: Run, bits: nat) {
    Bulk(mem) < TWO_60 && |mem| * bits < TWO_31
  }

  /** Outputs of this size fit the file format, however much the store holds. */
  predicate TargetFits(target: nat, bits: nat) {
    target < TWO_60 / 2 && (target + BLOCK_SIZE + 9) * bits < 9 * TWO_31
  }

  /** No block is larger than a block's worth of records and one more. */
  predicate BlockFits(b: Run) {
    RunFits(b) && Bulk(b) < TWO_32 - 4
  }

  lemma {:induction false} CutFits(run: Run)
    requires SmallRun(run)
    ensures BlockFits(Cut(run, BLOCK_SIZE).cur) && forall b :: b in Cut(run, BLOCK_SIZE).blocks ==> BlockFits(b)
  {
    hide Bulk, RecordsBytes, RunFits, SmallEntry;
    NothingFits();
    if run != [] {
      var rest, e := run[..|run| - 1], run[|run| - 1];
      assert e in run && forall x :: x in rest ==> x in run;
      CutFits(rest);
      CutBulk(rest);
      var c := Cut(rest, BLOCK_SIZE);
      OneMoreFits(c.cur, e);
      assert forall b :: b in c.blocks + [c.cur + [e]] ==> b in c.blocks || b == c.cur + [e];
    }
  }

  lemma NothingFits()
    ensures BlockFits([])
  {
    NoBulk();
  }

  lemma OneMoreFits(cur: Run, e: Entry)
    requires RunFits(cur) && Bulk(cur) < BLOCK_SIZE && SmallEntry(e)
    ensures BlockFits(cur + [e])
  {
    hide Bulk;
    BulkSplit(cur + [e], |cur|);
    assert (cur + [e])[..|cur|] == cur && (cur + [e])[|cur|..] == [e];
    OneBulk(e);
  }

  lemma SmallTableFits(run: Run, hash: Key -> Bloom.Hash, bits: nat)
    requires SmallRun(run) && MemFits(run, bits)
    ensures TableRoom(run, hash, bits)
  {
    hide RecordsBytes, Flatten, Cut, Bloom.FilterBytes, Bloom.BitCount, RunFits, SmallRun, BlocksBytes, IndexBytes,
      IndexOf;
    var blocks, hs := BlocksOf(run, BLOCK_SIZE), KeysHash(run, hash);
    BlocksOfFlatten(run, BLOCK_SIZE);
    BlocksBulk(blocks);
    BulkOfEntries(run);
    FilterBulk(hs, bits);
    CutFits(run);
    forall i | 0 <= i < |blocks| ensures RunFits(blocks[i]) && |RecordsBytes(blocks[i])| < TWO_32 - 4 {
      assert BlockFits(blocks[i]);
    }
  }

  lemma {:induction false} CutBulk(run: Run)
    ensures var c := Cut(run, BLOCK_SIZE);
      Bulk(run) <= |BlocksBytes(c.blocks)| + Bulk(c.cur) && Bulk(c.cur) < BLOCK_SIZE
  {
    hide RecordsBytes, BlocksBytes, Bulk;
    NoBulk();
    if run != [] {
      var rest, e := run[..|run| - 1], run[|run| - 1];
      CutBulk(rest);
      var c := Cut(rest, BLOCK_SIZE);
      BulkSplit(run, |run| - 1);
      assert run[|run| - 1..] == [e];
      BulkSplit(c.cur + [e], |c.cur|);
      assert (c.cur + [e])[..|c.cur|] == c.cur && (c.cur + [e])[|c.cur|..] == [e];
      ClosedBulk(c.blocks, c.cur + [e]);
    }
  }

  lemma NoBulk()
    ensures Bulk([]) == 0
  {
  }

  lemma ClosedBulk(blocks: seq<Run>, b: Run)
    ensures |BlocksBytes(blocks + [b])| == |BlocksBytes(blocks)| + Bulk(b) + 4
    ensures |RecordsBytes(b)| == Bulk(b)
  {
    hide RecordsBytes;
    assert (blocks + [b])[..|blocks|] == blocks;
  }

  /** A record added to an output that has not reached its target size leaves a table that fits. */
  lemma OutputRoom(run: Run, e: Entry, target: nat, hash: Key -> Bloom.Hash, bits: nat)
    requires SmallRun(run) && Bulk(run) < target + BLOCK_SIZE && SmallEntry(e) && TargetFits(target, bits)
    ensures TableRoom(run + [e], hash, bits)
  {
    hide TableRoom, Bulk;
    BulkSplit(run + [e], |run|);
    assert (run + [e])[..|run|] == run && (run + [e])[|run|..] == [e];
    OneBulk(e);
    BulkOfEntries(run);
    KeysFit(|run| + 1, target, bits);
    SmallTableFits(run + [e], hash, bits);
  }

  /** A key takes at least nine bytes of an output. */
  lemma KeysFit(n: nat, target: nat, bits: nat)
    requires 9 * n <= target + BLOCK_SIZE + 9 && TargetFits(target, bits)
    ensures n * bits < TWO_31
  {
    Times(9 * n, target + BLOCK_SIZE + 9, bits);
    assert 9 * n * bits == 9 * (n * bits);
  }

  lemma OneBulk(e: Entry)
    ensures Bulk([e]) == 9 + |e.key| + |e.value|
  {
    assert [e][..0] == [];
    assert RecordsBytes([e]) == [] + RecordBytes(e);
  }

  lemma Times(a: nat, b: nat, c: nat)
    requires a <= b
    ensures a * c <= b * c
  {
  }
}
