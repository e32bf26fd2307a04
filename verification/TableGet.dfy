/** Point lookups in one table: filter, sparse index, block cache and early-exit block scan. */
module TableGet {
  import opened Keys
  import opened Coding
  import opened Runs
  import opened TableFormat
  import opened TableReader
  import opened Cache
  import Bloom

  // ---- A reader and the records it serves --------------------------------------------------------

  /** The reader's index describes these blocks, and each block reads back as written or is rejected. */
  ghost predicate Serves(r: Reader, blocks: seq<Run>) {
    && BlocksNonempty(blocks) && |r.index| == |blocks|
    && (forall i :: 0 <= i < |blocks| ==>
          && RunFits(blocks[i]) && r.index[i].firstKey == blocks[i][0].key
          && (ReadBlock(r.base, r.index[i]) == Some(RecordsBytes(blocks[i])) || ReadBlock(r.base, r.index[i]).None?))
    && Sorted(Flatten(blocks))
    && Bloom.WellFormed(r.filter)
  }

  lemma ServesSize(r: Reader, blocks: seq<Run>)
    requires Serves(r, blocks)
    ensures |r.index| == |blocks|
  {
  }

  ghost predicate Readable(r: Reader, i: nat)
    requires i < |r.index|
  {
    ReadBlock(r.base, r.index[i]).Some?
  }

  ghost predicate AllReadable(r: Reader) {
    forall i :: 0 <= i < |r.index| ==> Readable(r, i)
  }

  /** The filter rules out none of the keys. */
  ghost predicate FilterSound(r: Reader, blocks: seq<Run>, hash: Key -> Bloom.Hash) {
    Bloom.WellFormed(r.filter) && forall e :: e in Flatten(blocks) ==> Bloom.MayContain(r.filter, hash(e.key))
  }

  /** A table opened from the bytes the writer made serves exactly the records, all of them readable. */
  lemma OpenedServes(blocks: seq<Run>, hs: seq<Bloom.Hash>, bitsPerKey: nat, hash: Key -> Bloom.Hash)
    requires TableFits(blocks, Bloom.FilterBytes(hs, bitsPerKey)) && Sorted(Flatten(blocks))
    requires |hs| == |Flatten(blocks)| && forall i :: 0 <= i < |hs| ==> hs[i] == hash(Flatten(blocks)[i].key)
    requires Bloom.BitCount(|hs|, bitsPerKey) < TWO_32
    ensures var o := OpenTable(TableBytes(blocks, Bloom.FilterBytes(hs, bitsPerKey)));
      o.Some? && Serves(o.value, blocks) && AllReadable(o.value) && FilterSound(o.value, blocks, hash)
  {
    hide TableFits, BlocksBytes, IndexOf, IndexBytes, Flatten, RecordsBytes, ReadBlock, OpenTable, WithChecksum,
      FooterBytes;
    hide Bloom.FilterBytes, Bloom.Reset, Bloom.MayContain, Bloom.BitCount;
    var filter := Bloom.FilterBytes(hs, bitsPerKey);
    OpenRoundTrip(blocks, filter);
    FitsSizes(blocks, filter);
    var base := TableBytes(blocks, filter);
    var tail := TableTail(blocks, filter);
    assert base == BlocksBytes(blocks) + tail by { TableSplit(blocks, filter); }
    forall i | 0 <= i < |blocks|
      ensures ReadBlock(base, IndexOf(blocks)[i]) == Some(RecordsBytes(blocks[i]))
      ensures IndexOf(blocks)[i].firstKey == blocks[i][0].key
    {
      BlockReads(blocks, i, tail);
      IndexAt(blocks, i);
    }
    forall e | e in Flatten(blocks) ensures Bloom.MayContain(Bloom.Reset(filter), hash(e.key)) {
      var i :| 0 <= i < |Flatten(blocks)| && Flatten(blocks)[i] == e;
      assert hs[i] in hs;
      Bloom.NoFalseNegatives(hs, bitsPerKey, hash(e.key));
    }
  }

  ghost function TableTail(blocks: seq<Run>, filter: Bytes): Bytes
    requires BlocksNonempty(blocks)
  {
    var data, index := BlocksBytes(blocks), IndexBytes(IndexOf(blocks));
    WithChecksum(filter) + WithChecksum(index)
    + FooterBytes(|data|, |filter|, |data| + |filter| + 4, |index|, |Flatten(blocks)|)
  }

  lemma TableSplit(blocks: seq<Run>, filter: Bytes)
    requires BlocksNonempty(blocks)
    ensures TableBytes(blocks, filter) == BlocksBytes(blocks) + TableTail(blocks, filter)
  {
    hide BlocksBytes, IndexOf, IndexBytes, Flatten, WithChecksum, FooterBytes;
  }

  // ---- Which block a key can be in ---------------------------------------------------------------

  function Start(blocks: seq<Run>, i: nat): nat
    requires i <= |blocks|
  {
    |Flatten(blocks[..i])|
  }

  lemma {:induction false} FlattenAt(blocks: seq<Run>, i: nat)
    requires i < |blocks|
    ensures Start(blocks, i + 1) == Start(blocks, i) + |blocks[i]| <= |Flatten(blocks)|
    ensures Flatten(blocks)[Start(blocks, i)..Start(blocks, i + 1)] == blocks[i]
  {
    assert blocks[..i + 1][..i] == blocks[..i];
    if i < |blocks| - 1 {
      var rest := blocks[..|blocks| - 1];
      FlattenAt(rest, i);
      assert rest[..i] == blocks[..i] && rest[..i + 1] == blocks[..i + 1];
    } else {
      assert blocks[..i + 1] == blocks;
    }
  }

  /** Block i is the last one that does not start behind the key. */
  ghost predicate Candidate(blocks: seq<Run>, key: Key, i: nat)
    requires BlocksNonempty(blocks)
  {
    i < |blocks| && Le(blocks[i][0].key, key) && (i + 1 < |blocks| ==> Lt(key, blocks[i + 1][0].key))
  }

  lemma CandidateHolds(blocks: seq<Run>, key: Key, i: nat)
    requires BlocksNonempty(blocks) && Sorted(Flatten(blocks)) && Candidate(blocks, key, i)
    ensures Lookup(Flatten(blocks), key) == Lookup(blocks[i], key)
  {
    hide Lt, Le, Rank, Flatten;
    var run, lo := Flatten(blocks), Start(blocks, i);
    FlattenAt(blocks, i);
    var hi := Start(blocks, i + 1);
    assert run[lo] == blocks[i][0] by { assert run[lo..hi][0] == run[lo]; }
    if i + 1 < |blocks| {
      FlattenAt(blocks, i + 1);
      assert run[hi] == blocks[i + 1][0] by { assert run[hi..Start(blocks, i + 2)][0] == run[hi]; }
    } else {
      assert blocks[..i + 1] == blocks;
    }
    LookupInside(run, key, lo, hi);
  }

  /** A key between two positions of a sorted run is looked up between them. */
  lemma LookupInside(run: Run, key: Key, lo: nat, hi: nat)
    requires Sorted(run) && lo < hi <= |run| && Le(run[lo].key, key) && (hi < |run| ==> Lt(key, run[hi].key))
    ensures Lookup(run, key) == Lookup(run[lo..hi], key)
  {
    hide Lt, Le, Rank, Lookup, Sorted;
    var a, b, c := run[..lo], run[lo..hi], run[hi..];
    assert run == a + b + c;
    LookupAppend(a + b, c, key);
    LookupAppend(a, b, key);
    forall j | 0 <= j < |a| ensures a[j].key != key {
      KeysAscend(run, j, lo);
    }
    forall j | 0 <= j < |c| ensures c[j].key != key {
      assert c[j] == run[hi + j];
      if j > 0 {
        KeysAscend(run, hi, hi + j);
      }
    }
  }

  lemma KeysAscend(run: Run, i: nat, j: nat)
    requires Sorted(run) && i < j < |run|
    ensures Lt(run[i].key, run[j].key)
  {
    hide Lt;
  }

  lemma BeforeFirst(blocks: seq<Run>, key: Key)
    requires BlocksNonempty(blocks) && Sorted(Flatten(blocks)) && (blocks == [] || Lt(key, blocks[0][0].key))
    ensures Lookup(Flatten(blocks), key).None?
  {
    hide Lt, Le, Rank;
    if blocks != [] {
      FlattenEnds(blocks);
      var run := Flatten(blocks);
      forall j | 0 <= j < |run| ensures run[j].key != key {
        assert j > 0 ==> Lt(run[0].key, run[j].key);
      }
    }
  }

  lemma {:induction false} FirstKeysAscend(blocks: seq<Run>, i: nat, j: nat)
    requires BlocksNonempty(blocks) && Sorted(Flatten(blocks)) && i < j < |blocks|
    ensures Lt(blocks[i][0].key, blocks[j][0].key)
  {
    hide Lt, Le, Rank, Flatten;
    FlattenAt(blocks, i);
    FlattenAt(blocks, j);
    StartMonotone(blocks, i + 1, j);
    var run := Flatten(blocks);
    assert run[Start(blocks, i)..Start(blocks, i + 1)][0] == run[Start(blocks, i)];
    assert run[Start(blocks, j)..Start(blocks, j + 1)][0] == run[Start(blocks, j)];
  }

  lemma {:induction false} StartMonotone(blocks: seq<Run>, i: nat, j: nat)
    requires i <= j <= |blocks|
    ensures Start(blocks, i) <= Start(blocks, j)
    decreases j
  {
    hide Flatten;
    if i < j {
      FlattenAt(blocks, j - 1);
      StartMonotone(blocks, i, j - 1);
    }
  }

  // ---- Lookup ------------------------------------------------------------------------------------

  /** The last block that does not start behind the key, or -1. */
  function CandidateIndex(index: seq<IndexEntry>, key: Key): (i: int)
    ensures -1 <= i < |index|
  {
    if index == [] then -1
    else if Le(index[|index| - 1].firstKey, key) then |index| - 1
    else CandidateIndex(index[..|index| - 1], key)
  }

  /** With first keys ascending, one boundary determines the candidate. */
  lemma {:induction false} CandidateAt(index: seq<IndexEntry>, key: Key, n: nat)
    requires n <= |index| && forall i, j :: 0 <= i < j < |index| ==> Lt(index[i].firstKey, index[j].firstKey)
    requires n > 0 ==> Le(index[n - 1].firstKey, key)
    requires n < |index| ==> Lt(key, index[n].firstKey)
    ensures CandidateIndex(index, key) == n - 1
  {
    hide Lt, Le, Rank;
    if n < |index| {
      assert n < |index| - 1 ==> Lt(index[n].firstKey, index[|index| - 1].firstKey);
      CandidateAt(index[..|index| - 1], key, n);
    }
  }

  /** Binary search of the sparse index: how many blocks start at or before the key. */
  method UpperBound(index: seq<IndexEntry>, key: Key, ghost blocks: seq<Run>) returns (n: nat)
    requires BlocksNonempty(blocks) && Sorted(Flatten(blocks)) && |index| == |blocks|
    requires forall i :: 0 <= i < |blocks| ==> index[i].firstKey == blocks[i][0].key
    ensures n == CandidateIndex(index, key) + 1
    ensures n == 0 ==> (blocks == [] || Lt(key, blocks[0][0].key))
    ensures n > 0 ==> Candidate(blocks, key, n - 1)
  {
    hide Lt, Le, Rank, Flatten, Sorted, CandidateIndex;
    var lo, hi := 0, |index|;
    while lo < hi
      invariant 0 <= lo <= hi <= |index|
      invariant lo > 0 ==> Le(blocks[lo - 1][0].key, key)
      invariant hi < |index| ==> Lt(key, blocks[hi][0].key)
    {
      var mid := (lo + hi) / 2;
      if Le(index[mid].firstKey, key) {
        lo := mid + 1;
      } else {
        hi := mid;
      }
    }
    n := lo;
    forall i, j | 0 <= i < j < |index| ensures Lt(index[i].firstKey, index[j].firstKey) {
      FirstKeysAscend(blocks, i, j);
    }
    CandidateAt(index, key, n);
  }

  // ---- What a lookup needs, and what it does to the cache ----------------------------------------

  ghost function Contents(cache: BlockCache?): seq<Cached>
    reads cache
  {
    if cache == null then [] else cache.contents
  }

  ghost function CapacityOf(cache: BlockCache?): nat {
    if cache == null then 0 else cache.capacity
  }

  /** A block can be had: from the cache, or from the file. */
  ghost predicate Available(r: Reader, i: nat, file: nat, c: seq<Cached>)
    requires i < |r.index|
  {
    Holds(c, BlockId(file, r.index[i].offset)) || Readable(r, i)
  }

  /** A table can answer for a key: the filter or the index rules it out, or the one block it can be in is available. */
  ghost predicate Answerable(r: Reader, key: Key, hash: Key -> Bloom.Hash, file: nat, c: seq<Cached>) {
    var i := CandidateIndex(r.index, key);
    Bloom.WellFormed(r.filter) && Bloom.MayContain(r.filter, hash(key)) && i >= 0 ==> Available(r, i, file, c)
  }

  /** The cache after a block was asked for. */
  ghost function AfterBlock(r: Reader, i: nat, file: nat, c: seq<Cached>, capacity: nat): seq<Cached>
    requires i < |r.index|
  {
    var id := BlockId(file, r.index[i].offset);
    if Holds(c, id) || !Readable(r, i) then AfterLookup(c, id)
    else AfterInsert(AfterLookup(c, id), capacity, id, ReadBlock(r.base, r.index[i]).value)
  }

  /** The cache after a table was asked for a key. */
  ghost function AfterGet(r: Reader, key: Key, hash: Key -> Bloom.Hash, file: nat, c: seq<Cached>, capacity: nat)
    : seq<Cached>
  {
    var i := CandidateIndex(r.index, key);
    if Bloom.WellFormed(r.filter) && Bloom.MayContain(r.filter, hash(key)) && i >= 0 then
      AfterBlock(r, i, file, c, capacity)
    else c
  }

  /** Cached blocks of this file are the blocks that were written. */
  ghost predicate CacheKnows(store: map<BlockId, Bytes>, file: nat, r: Reader, blocks: seq<Run>) {
    |r.index| == |blocks| && forall i :: 0 <= i < |blocks| ==>
      BlockId(file, r.index[i].offset) in store && store[BlockId(file, r.index[i].offset)] == RecordsBytes(blocks[i])
  }

  /** A block through the cache is the block the file holds; it is had exactly if it is cached or readable. */
  method GetBlock(r: Reader, i: nat, cache: BlockCache?, file: nat, ghost blocks: seq<Run>,
                  ghost store: map<BlockId, Bytes>)
    returns (o: Option<Bytes>)
    requires Serves(r, blocks) && i < |blocks|
    requires cache != null ==> cache.Valid() && Faithful(cache.contents, store) && CacheKnows(store, file, r, blocks)
    requires cache != null ==> WithinBudget(cache.contents, cache.capacity)
    modifies if cache != null then cache.Repr() else {}
    ensures cache != null ==>
      cache.Valid() && Faithful(cache.contents, store) && fresh(cache.Repr() - old(cache.Repr()))
    ensures cache != null ==> WithinBudget(cache.contents, cache.capacity)
    ensures o.Some? ==> o.value == RecordsBytes(blocks[i])
    ensures o.Some? == Available(r, i, file, old(Contents(cache)))
    ensures Contents(cache) == AfterBlock(r, i, file, old(Contents(cache)), CapacityOf(cache))
  {
    hide ReadBlock, RecordsBytes, Flatten, Sorted, BlockCache.Valid, WithinBudget, AfterLookup, AfterInsert;
    var offset := r.index[i].offset;
    var id := BlockId(file, offset);
    NoCache(id);
    if cache != null {
      ghost var c := cache.contents;
      CacheDistinct(cache);
      AccessKeepsFaithful(c, cache.capacity, Look(id), store);
      var cached := cache.Lookup(id);
      if cached.Some? {
        FindMember(c, id);
        return cached;
      }
    }
    var block := ReadBlock(r.base, r.index[i]);
    if block.None? {
      return None;
    }
    if cache != null {
      CacheDistinct(cache);
      AccessKeepsFaithful(cache.contents, cache.capacity, Store(id, block.value), store);
      cache.Insert(id, block.value);
    }
    return block;
  }

  /** Without a cache nothing is cached and nothing stays. */
  lemma NoCache(id: BlockId)
    ensures AfterLookup([], id) == [] && forall block :: AfterInsert([], 0, id, block) == []
  {
  }

  lemma CacheDistinct(cache: BlockCache)
    requires cache.Valid()
    ensures DistinctIds(cache.contents)
  {
  }

  /** Scan one block for the key, stopping at the first larger one. */
  method ScanBlock(block: Bytes, key: Key, ghost es: Run) returns (r: LookupResult)
    requires RunFits(es) && Sorted(es) && block == RecordsBytes(es)
    ensures r == Result(Lookup(es, key))
  {
    hide Lt, Le, Rank, RecordsBytes, ParseRecord, Lookup;
    var p := 0;
    ghost var m := 0;
    ParseAt(es, 0);
    assert RecordsBytes(es[..0]) == [] by { RecordsLast(es[..0]); }
    while p < |block|
      invariant 0 <= m <= |es| && p == |RecordsBytes(es[..m])| <= |block|
      invariant forall i :: 0 <= i < m ==> Lt(es[i].key, key)
      decreases |es| - m
    {
      ParseAt(es, m);
      var rec := ParseRecord(block[p..]);
      var e := rec.entry;
      p := p + rec.size;
      if e.key == key {
        LookupAt(es, m);
        return if e.tombstone then Deleted else Found(e.value);
      }
      if Lt(key, e.key) {
        NotBefore(es, key, m);
        return NotFound;
      }
      m := m + 1;
    }
    ParseAt(es, m);
    NotBefore(es, key, m);
    return NotFound;
  }

  lemma NotBefore(es: Run, key: Key, m: nat)
    requires Sorted(es) && m <= |es|
    requires (forall i :: 0 <= i < m ==> Lt(es[i].key, key)) && (m < |es| ==> Lt(key, es[m].key))
    ensures Lookup(es, key).None?
  {
    hide Lt, Le, Rank, Lookup;
    forall i | 0 <= i < |es| ensures es[i].key != key {
      assert i > m ==> Lt(es[m].key, es[i].key);
    }
  }

  /** A table answers a lookup exactly as the list of its records does, unless the one block the key can be in is
  damaged and not cached. */
  method Get(r: Reader, key: Key, hash: Key -> Bloom.Hash, cache: BlockCache?, file: nat,
             ghost blocks: seq<Run>, ghost store: map<BlockId, Bytes>)
    returns (res: LookupResult, ok: bool)
    requires Serves(r, blocks) && FilterSound(r, blocks, hash)
    requires cache != null ==> cache.Valid() && Faithful(cache.contents, store) && CacheKnows(store, file, r, blocks)
    requires cache != null ==> WithinBudget(cache.contents, cache.capacity)
    modifies if cache != null then cache.Repr() else {}
    ensures cache != null ==>
      cache.Valid() && Faithful(cache.contents, store) && fresh(cache.Repr() - old(cache.Repr()))
    ensures cache != null ==> WithinBudget(cache.contents, cache.capacity)
    ensures ok ==> res == Result(Lookup(Flatten(blocks), key))
    ensures !ok ==> res == NotFound
    ensures ok == Answerable(r, key, hash, file, old(Contents(cache)))
    ensures Contents(cache) == AfterGet(r, key, hash, file, old(Contents(cache)), CapacityOf(cache))
  {
    hide Lt, Le, Rank, ReadBlock, RecordsBytes, Flatten, Sorted, Lookup, Bloom.MayContain, BlockCache.Valid,
      WithinBudget, AfterBlock, CandidateIndex, CacheKnows, Faithful, Available;
    if r.index == [] {
      BeforeFirst(blocks, key);
      return NotFound, true;
    }
    var maybe := Bloom.Query(r.filter, key, hash);
    if !maybe {
      assert forall e :: e in Flatten(blocks) ==> e.key != key;
      return NotFound, true;
    }
    var n := UpperBound(r.index, key, blocks);
    if n == 0 {
      BeforeFirst(blocks, key);
      return NotFound, true;
    }
    CandidateHolds(blocks, key, n - 1);
    var block := GetBlock(r, n - 1, cache, file, blocks, store);
    if block.None? {
      return NotFound, false;
    }
    SortedBlock(blocks, n - 1);
    res := ScanBlock(block.value, key, blocks[n - 1]);
    ok := true;
  }

  lemma SortedBlock(blocks: seq<Run>, i: nat)
    requires Sorted(Flatten(blocks)) && i < |blocks|
    ensures Sorted(blocks[i])
  {
    hide Flatten, Sorted;
    FlattenAt(blocks, i);
    SortedSlice(Flatten(blocks), Start(blocks, i), Start(blocks, i + 1));
  }

  lemma SortedSlice(run: Run, lo: nat, hi: nat)
    requires Sorted(run) && lo <= hi <= |run|
    ensures Sorted(run[lo..hi])
  {
    hide Lt, Le, Rank;
    var s := run[lo..hi];
    assert forall i :: 0 <= i < |s| ==> s[i] == run[lo + i];
  }
}
