/** The ordered iterator over a table: it walks the blocks byte by byte, and stops with a failure at the first
block it cannot read. */
module TableIterator {
  import opened Keys
  import opened Runs
  import opened Merge
  import opened TableFormat
  import opened TableReader
  import opened TableGet

  /** The first position from block i on that lies in an unreadable block. */
  ghost function LimitFrom(r: Reader, blocks: seq<Run>, i: nat): (n: nat)
    requires i <= |blocks| == |r.index|
    decreases |blocks| - i
  {
    if i == |blocks| then |Flatten(blocks)|
    else if !Readable(r, i) then Start(blocks, i)
    else LimitFrom(r, blocks, i + 1)
  }

  /** Where an iterator over the blocks starts. */
  ghost function FirstCursor(r: Reader, blocks: seq<Run>): Cursor {
    Cursor(Flatten(blocks), 0, if |blocks| == |r.index| then LimitFrom(r, blocks, 0) else 0)
  }

  /** The first position in an unreadable block from the block a search for the key starts in. */
  ghost function SeekLimit(r: Reader, blocks: seq<Run>, key: Key): nat {
    var i := CandidateIndex(r.index, key);
    if |blocks| != |r.index| then 0 else LimitFrom(r, blocks, if i < 0 then 0 else i)
  }

  lemma {:induction false} LimitBounds(r: Reader, blocks: seq<Run>, i: nat)
    requires i <= |blocks| == |r.index|
    ensures Start(blocks, i) <= LimitFrom(r, blocks, i) <= |Flatten(blocks)|
    ensures i < |blocks| && Readable(r, i) ==> Start(blocks, i + 1) <= LimitFrom(r, blocks, i)
    decreases |blocks| - i
  {
    hide Flatten, Readable;
    StartEnd(blocks, i);
    if i < |blocks| {
      FlattenAt(blocks, i);
      LimitBounds(r, blocks, i + 1);
    }
  }

  lemma StartEnd(blocks: seq<Run>, i: nat)
    requires i <= |blocks|
    ensures Start(blocks, 0) == 0 && Start(blocks, |blocks|) == |Flatten(blocks)|
    ensures Start(blocks, i) <= |Flatten(blocks)|
  {
    hide Flatten;
    assert blocks[..|blocks|] == blocks;
    assert Flatten(blocks[..0]) == [] by { FlattenNothing(blocks[..0]); }
    StartMonotone(blocks, i, |blocks|);
  }

  lemma FlattenNothing(blocks: seq<Run>)
    requires blocks == []
    ensures Flatten(blocks) == []
  {
  }

  class TableCursor {
    const reader: Reader
    var blockIdx: nat
    var pos: nat
    var block: Bytes
    var valid: bool
    var key: Key
    var value: Bytes
    var tombstone: bool
    var ok: bool

    ghost const blocks: seq<Run>
    /** Records of the current block already taken. */
    ghost var taken: nat
    ghost var cursor: Cursor

    constructor (reader: Reader, ghost blocks: seq<Run>)
      ensures this.reader == reader && this.blocks == blocks && ok && !valid
    {
      this.reader, this.blocks := reader, blocks;
      blockIdx, pos, block, valid, key, value, tombstone, ok := 0, 0, [], false, [], [], false, true;
      taken := 0;
      cursor := Cursor([], 0, 0);
    }

    /** The next record to parse is number n of the table, or cannot be read. */
    ghost predicate Ready(n: nat)
      reads this
    {
      && Serves(reader, blocks) && blockIdx < |blocks|
      && ok == Readable(reader, blockIdx)
      && taken <= |blocks[blockIdx]| && n == Start(blocks, blockIdx) + taken
      && (ok ==> block == RecordsBytes(blocks[blockIdx]) && pos == |RecordsBytes(blocks[blockIdx][..taken])|)
      && (!ok ==> taken == 0)
    }

    /** The iterator can be positioned. */
    ghost predicate Serving()
      reads this
    {
      Serves(reader, blocks) && (blocks == [] ==> ok)
    }

    /** The iterator behaves as its cursor says. */
    ghost predicate Tracks()
      reads this
    {
      && Serves(reader, blocks)
      && cursor.run == Flatten(blocks) && cursor.WellFormed()
      && valid == cursor.Valid() && ok == cursor.Ok()
      && (valid ==> Entry(key, value, tombstone) == cursor.Head())
      && (valid ==> Ready(cursor.pos + 1) && cursor.limit == LimitFrom(reader, blocks, blockIdx))
    }

    method LoadBlock(i: nat)
      requires Serves(reader, blocks) && i < |blocks|
      modifies this`blockIdx, this`pos, this`block, this`ok, this`taken
      ensures blockIdx == i && Ready(Start(blocks, i)) && taken == 0
    {
      hide RecordsBytes, Flatten, Sorted;
      blockIdx := i;
      pos := 0;
      taken := 0;
      RecordsLast(blocks[i][..0]);
      var data := ReadBlock(reader.base, reader.index[i]);
      ok := data.Some?;
      if ok {
        block := data.value;
      }
    }

    /** Parse the next record, crossing into the next blocks as needed. */
    method ParseCurrent(ghost n: nat)
      requires Ready(n)
      modifies this
      ensures Tracks() && cursor == Cursor(Flatten(blocks), n, LimitFrom(reader, blocks, old(blockIdx)))
    {
      hide RecordsBytes, Flatten, Sorted, ParseRecord, Readable, LimitFrom;
      ghost var limit := LimitFrom(reader, blocks, blockIdx);
      while true
        invariant Ready(n) && limit == LimitFrom(reader, blocks, blockIdx)
        decreases |blocks| - blockIdx, if ok then 1 else 0
      {
        LimitBounds(reader, blocks, blockIdx);
        FlattenAt(blocks, blockIdx);
        LimitUnfold(reader, blocks, blockIdx);
        cursor := Cursor(Flatten(blocks), n, limit);
        if !ok {
          valid := false;
          break;
        }
        ParseAt(blocks[blockIdx], taken);
        if pos >= |block| {
          if blockIdx + 1 >= |reader.index| {
            StartEnd(blocks, blockIdx);
            valid := false;
            break;
          }
          LoadBlock(blockIdx + 1);
          continue;
        }
        TakeRecord(n);
        break;
      }
    }

    /** The fields of the record at `pos`, and the position behind it. */
    method TakeRecord(ghost n: nat)
      requires Ready(n) && ok && pos < |block|
      modifies this`pos, this`valid, this`key, this`value, this`tombstone, this`taken
      ensures n < |Flatten(blocks)| && Entry(key, value, tombstone) == Flatten(blocks)[n]
      ensures valid && Ready(n + 1) && Start(blocks, blockIdx) <= n < Start(blocks, blockIdx + 1)
    {
      hide RecordsBytes, Flatten, Sorted, ParseRecord, Readable;
      ParseAt(blocks[blockIdx], taken);
      RecordAt(blocks, blockIdx, taken);
      FlattenAt(blocks, blockIdx);
      var rec := ParseRecord(block[pos..]);
      key, value, tombstone := rec.entry.key, rec.entry.value, rec.entry.tombstone;
      pos := pos + rec.size;
      taken := taken + 1;
      valid := true;
    }

    method SeekToFirst()
      requires Serving()
      modifies this
      ensures Tracks() && cursor == FirstCursor(reader, blocks)
    {
      hide RecordsBytes, Flatten, Sorted, Readable, LimitFrom;
      StartEnd(blocks, 0);
      if reader.index == [] {
        NoBlocks(reader, blocks);
        cursor := Cursor([], 0, 0);
        valid := false;
        return;
      }
      LoadBlock(0);
      ParseCurrent(0);
    }

    method Next()
      requires Tracks()
      modifies this
      ensures Tracks() && cursor == if old(valid) then old(cursor).Next() else old(cursor)
    {
      hide RecordsBytes, Flatten, Sorted, Readable, LimitFrom;
      if valid {
        ParseCurrent(cursor.pos + 1);
      }
    }

    /** The first record whose key is not below the target, unless an unreadable block comes first. */
    method Seek(target: Key)
      requires Serving()
      modifies this
      ensures Tracks() && cursor == Merge.Seek(Flatten(blocks), target, SeekLimit(reader, blocks, target))
    {
      hide Lt, Le, Rank, RecordsBytes, Flatten, Sorted, Readable, LimitFrom, LowerBound, CandidateIndex;
      if reader.index == [] {
        NoBlocks(reader, blocks);
        cursor := Cursor([], 0, 0);
        valid := false;
        return;
      }
      var lo := UpperBound(reader.index, target, blocks);
      var idx := if lo == 0 then 0 else lo - 1;
      ghost var n, readable := Start(blocks, idx), LimitFrom(reader, blocks, idx);
      LimitBounds(reader, blocks, idx);
      SeekStarts(blocks, target, idx);
      LoadBlock(idx);
      while true
        invariant Ready(n) && LimitFrom(reader, blocks, blockIdx) == readable <= |Flatten(blocks)|
        invariant n <= LowerBound(Flatten(blocks), target)
        decreases |Flatten(blocks)| + 1 - n
      {
        ParseCurrent(n);
        LowerBoundBefore(Flatten(blocks), target, n);
        if !valid || Le(target, key) {
          break;
        }
        n := n + 1;
      }
    }
  }

  /** Walk a whole table: its records in order, up to the first block that cannot be read. */
  method ReadAll(r: Reader, ghost blocks: seq<Run>) returns (out: Run, ok: bool)
    requires Serves(r, blocks)
    ensures LimitFrom(r, blocks, 0) <= |Flatten(blocks)| && out == Flatten(blocks)[..LimitFrom(r, blocks, 0)]
    ensures ok == (out == Flatten(blocks))
    ensures AllReadable(r) ==> ok
  {
    hide RecordsBytes, Flatten, Sorted, Readable, LimitFrom, Serves;
    ServesSize(r, blocks);
    LimitBounds(r, blocks, 0);
    if AllReadable(r) {
      AllReadableLimit(r, blocks, 0);
    }
    var it := new TableCursor(r, blocks);
    it.SeekToFirst();
    out := [];
    ghost var run, limit := Flatten(blocks), LimitFrom(r, blocks, 0);
    while it.valid
      invariant fresh(it) && it.reader == r && it.blocks == blocks && it.Tracks()
      invariant it.cursor == Cursor(run, |out|, limit) && |out| <= limit && out == run[..|out|]
      decreases limit - |out|
    {
      out := out + [Entry(it.key, it.value, it.tombstone)];
      it.Next();
    }
    ok := it.ok;
  }

  lemma NoBlocks(r: Reader, blocks: seq<Run>)
    requires Serves(r, blocks) && r.index == []
    ensures Flatten(blocks) == [] && LimitFrom(r, blocks, 0) == 0 && Sorted([])
  {
  }

  /** The block the search starts in does not lie behind the target. */
  lemma SeekStarts(blocks: seq<Run>, target: Key, idx: nat)
    requires BlocksNonempty(blocks) && Sorted(Flatten(blocks)) && idx < |blocks|
    requires idx == 0 || Candidate(blocks, target, idx)
    ensures Start(blocks, idx) <= LowerBound(Flatten(blocks), target)
  {
    hide Lt, Le, Rank, Flatten, LowerBound;
    StartEnd(blocks, idx);
    if idx > 0 {
      RecordAt(blocks, idx, 0);
    }
  }

  lemma LowerBoundBefore(run: Run, k: Key, n: nat)
    requires n <= LowerBound(run, k)
    ensures n < |run| && Lt(run[n].key, k) ==> n + 1 <= LowerBound(run, k)
    ensures n < |run| && !Lt(run[n].key, k) ==> n == LowerBound(run, k)
  {
    hide Lt, Le, Rank, LowerBound;
  }

  lemma {:induction false} AllReadableLimit(r: Reader, blocks: seq<Run>, i: nat)
    requires i <= |blocks| == |r.index| && AllReadable(r)
    ensures LimitFrom(r, blocks, i) == |Flatten(blocks)|
    decreases |blocks| - i
  {
    hide Readable, Flatten;
    if i < |blocks| {
      AllReadableLimit(r, blocks, i + 1);
    }
  }

  lemma SeekLimitReadable(r: Reader, blocks: seq<Run>, key: Key)
    requires |blocks| == |r.index| && AllReadable(r)
    ensures SeekLimit(r, blocks, key) == |Flatten(blocks)|
  {
    hide Readable, Flatten, LimitFrom, CandidateIndex;
    var i := CandidateIndex(r.index, key);
    AllReadableLimit(r, blocks, if i < 0 then 0 else i);
  }

  /** A limit at the end means that every block from there on is readable. */
  lemma {:induction false} FullLimit(r: Reader, blocks: seq<Run>, i: nat)
    requires i <= |blocks| == |r.index| && BlocksNonempty(blocks) && LimitFrom(r, blocks, i) >= |Flatten(blocks)|
    ensures forall j :: i <= j < |blocks| ==> Readable(r, j)
    decreases |blocks| - i
  {
    hide Readable, Flatten;
    if i < |blocks| {
      FlattenAt(blocks, i);
      StartEnd(blocks, i + 1);
      FullLimit(r, blocks, i + 1);
    }
  }

  lemma LimitUnfold(r: Reader, blocks: seq<Run>, i: nat)
    requires i < |blocks| == |r.index|
    ensures !Readable(r, i) ==> LimitFrom(r, blocks, i) == Start(blocks, i)
    ensures Readable(r, i) ==> LimitFrom(r, blocks, i) == LimitFrom(r, blocks, i + 1)
    ensures LimitFrom(r, blocks, |blocks|) == |Flatten(blocks)|
  {
    hide Readable, Flatten;
  }

  lemma RecordAt(blocks: seq<Run>, i: nat, m: nat)
    requires i < |blocks| && m < |blocks[i]|
    ensures Start(blocks, i) + m < |Flatten(blocks)| && Flatten(blocks)[Start(blocks, i) + m] == blocks[i][m]
  {
    hide Flatten;
    FlattenAt(blocks, i);
    assert Flatten(blocks)[Start(blocks, i)..Start(blocks, i + 1)][m] == Flatten(blocks)[Start(blocks, i) + m];
  }
}
