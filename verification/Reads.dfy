/** Point lookups over a whole version: L0 from new to old, then one candidate file per deeper level. */
module Reads {
  import opened Keys
  import opened Runs
  import opened Versions
  import opened TableWriter
  import opened TableReader
  import opened TableGet
  import opened TableFiles
  import opened Cache
  import Bloom

  // ---- Open tables and the cache -----------------------------------------------------------------

  /** The cache may hold blocks of any of the files, and only as they were written. */
  ghost predicate CacheCovers(store: map<BlockId, Bytes>, files: seq<FileMeta>, readers: Readers) {
    forall f :: f in files && f.number in readers ==>
      CacheKnows(store, f.number, readers[f.number], BlocksOf(f.run, BLOCK_SIZE))
  }

  ghost predicate CacheOk(cache: BlockCache?, store: map<BlockId, Bytes>)
    reads if cache != null then {cache as object} + cache.Repr() else {}
  {
    cache != null ==>
      cache.Valid() && Faithful(cache.contents, store) && WithinBudget(cache.contents, cache.capacity)
  }

  // ---- What a lookup answers ---------------------------------------------------------------------

  /** The key lies in the range of the file, so the file is asked. */
  predicate Covers(f: FileMeta, k: Key) {
    Le(f.smallest, k) && Le(k, f.largest)
  }

  /** What the files are asked with: the readers, the filter's hash, the key, and the capacity of the cache. */
  datatype Query = Query(readers: Readers, hash: Key -> Bloom.Hash, key: Key, capacity: nat)

  /** The file can answer: the one block the key can be in is cached or readable, or the key is ruled out before. */
  ghost predicate CanAnswer(f: FileMeta, q: Query, c: seq<Cached>) {
    f.number in q.readers && Answerable(q.readers[f.number], q.key, q.hash, f.number, c)
  }

  /** The cache once the file had its turn. */
  ghost function AfterTurn(f: FileMeta, q: Query, c: seq<Cached>): seq<Cached> {
    if Covers(f, q.key) && f.number in q.readers then
      AfterGet(q.readers[f.number], q.key, q.hash, f.number, c, q.capacity)
    else c
  }

  /** The answer of the first file that holds the key and can answer. */
  ghost function Answer(files: seq<FileMeta>, q: Query, c: seq<Cached>): LookupResult {
    if files == [] then NotFound
    else if Lookup(files[0].run, q.key).Some? && CanAnswer(files[0], q, c) then Result(Lookup(files[0].run, q.key))
    else Answer(files[1..], q, AfterTurn(files[0], q, c))
  }

  // ---- Which file answers ------------------------------------------------------------------------

  /** The first file that holds the key. */
  ghost function Holder(files: seq<FileMeta>, k: Key): (n: nat)
    ensures n <= |files|
    ensures forall i :: 0 <= i < n ==> Lookup(files[i].run, k).None?
    ensures n < |files| ==> Lookup(files[n].run, k).Some?
  {
    if files == [] || Lookup(files[0].run, k).Some? then 0 else Holder(files[1..], k) + 1
  }

  /** The first file that holds the key and can answer, or the number of files. */
  ghost function AnsweredBy(files: seq<FileMeta>, q: Query, c: seq<Cached>): (n: nat)
    ensures n <= |files|
  {
    if files == [] || (Lookup(files[0].run, q.key).Some? && CanAnswer(files[0], q, c)) then 0
    else AnsweredBy(files[1..], q, AfterTurn(files[0], q, c)) + 1
  }

  /** The cache when file n has its turn. */
  ghost function CacheAt(files: seq<FileMeta>, n: nat, q: Query, c: seq<Cached>): seq<Cached>
    requires n <= |files|
  {
    if n == 0 then c else CacheAt(files[1..], n - 1, q, AfterTurn(files[0], q, c))
  }

  lemma {:induction false} AnswerIsBy(files: seq<FileMeta>, q: Query, c: seq<Cached>)
    ensures var n := AnsweredBy(files, q, c);
      && Answer(files, q, c) == (if n < |files| then Result(Lookup(files[n].run, q.key)) else NotFound)
      && Holder(files, q.key) <= n
    decreases |files|
  {
    hide Lookup, CanAnswer, AfterTurn;
    if files != [] {
      AnswerIsBy(files[1..], q, AfterTurn(files[0], q, c));
    }
  }

  /** The newest file that holds the key answers if and only if it can: its block is cached or readable when its turn
  comes. Otherwise an older file may answer, with an older value, and no error is reported. */
  lemma {:induction false} NewestAnswersIff(files: seq<FileMeta>, q: Query, c: seq<Cached>)
    requires Holder(files, q.key) < |files|
    ensures var n := Holder(files, q.key);
      AnsweredBy(files, q, c) == n <==> CanAnswer(files[n], q, CacheAt(files, n, q, c))
    decreases |files|
  {
    hide Lookup, CanAnswer, AfterTurn;
    if Lookup(files[0].run, q.key).None? {
      NewestAnswersIff(files[1..], q, AfterTurn(files[0], q, c));
    }
  }

  lemma {:induction false} HolderIsNewest(files: seq<FileMeta>, k: Key)
    ensures var n := Holder(files, k);
      LevelView(files, k) == if n < |files| then Lookup(files[n].run, k) else None
  {
    hide Lookup, Newest;
    var n := Holder(files, k);
    if n < |files| {
      NewestAt(RunsIn(files), n, k);
    } else {
      LevelViewNone(files, k);
    }
  }

  /** The newest file that holds the key, if any, can answer when its turn comes. */
  ghost predicate NewestCanAnswer(v: Version, q: Query, c: seq<Cached>) {
    var files := Tables(v);
    var n := Holder(files, q.key);
    n < |files| ==> CanAnswer(files[n], q, CacheAt(files, n, q, c))
  }

  /** A lookup gives the newest entry of the version if and only if the newest file that holds the key can answer, or
  what the older files answer happens to be the same. */
  lemma RightIff(v: Version, q: Query, c: seq<Cached>)
    ensures var files := Tables(v); var n := Holder(files, q.key);
      Answer(files, q, c) == Result(View(v, q.key)) <==>
        || NewestCanAnswer(v, q, c)
        || (n < |files|
            && Result(Lookup(files[n].run, q.key)) == Answer(files[n + 1..], q, CacheAt(files, n + 1, q, c)))
  {
    hide Lookup, CanAnswer, Tables, View, Answer, AnsweredBy, Newest;
    var files := Tables(v);
    var n := Holder(files, q.key);
    TablesView(v, q.key);
    HolderIsNewest(files, q.key);
    AnswerIsBy(files, q, c);
    if n < |files| {
      NewestAnswersIff(files, q, c);
      if !CanAnswer(files[n], q, CacheAt(files, n, q, c)) {
        AnswerBehind(files, n, q, c);
      }
    }
  }

  /** Past a holder that cannot answer, the older files are left to answer. */
  lemma {:induction false} AnswerBehind(files: seq<FileMeta>, n: nat, q: Query, c: seq<Cached>)
    requires n == Holder(files, q.key) < |files| && !CanAnswer(files[n], q, CacheAt(files, n, q, c))
    ensures Answer(files, q, c) == Answer(files[n + 1..], q, CacheAt(files, n + 1, q, c))
    decreases |files|
  {
    hide Lookup, CanAnswer, AfterTurn;
    if n == 0 {
      assert CacheAt(files, 1, q, c) == AfterTurn(files[0], q, c);
    } else {
      AnswerBehind(files[1..], n - 1, q, AfterTurn(files[0], q, c));
      assert files[1..][n..] == files[n + 1..];
    }
  }

  /** Where every block of every table can be read, the newest file can answer. */
  lemma IntactAnswers(v: Version, q: Query, c: seq<Cached>)
    requires forall f :: f in Tables(v) ==> f.number in q.readers && AllReadable(q.readers[f.number])
    ensures NewestCanAnswer(v, q, c) && Answer(Tables(v), q, c) == Result(View(v, q.key))
  {
    hide Lookup, Tables, View, Answer, AllReadable;
    var files := Tables(v);
    var n := Holder(files, q.key);
    RightIff(v, q, c);
    if n < |files| {
      assert files[n] in files;
      ReadableAnswers(q.readers[files[n].number], q, files[n].number, CacheAt(files, n, q, c));
    }
  }

  lemma ReadableAnswers(r: Reader, q: Query, file: nat, c: seq<Cached>)
    requires AllReadable(r)
    ensures Answerable(r, q.key, q.hash, file, c)
  {
    hide Bloom.MayContain, CandidateIndex;
  }

  // ---- One turn ----------------------------------------------------------------------------------

  lemma AnswerStep(f: FileMeta, rest: seq<FileMeta>, q: Query, c: seq<Cached>)
    ensures Answer([f] + rest, q, c) ==
      if Lookup(f.run, q.key).Some? && CanAnswer(f, q, c) then Result(Lookup(f.run, q.key))
      else Answer(rest, q, AfterTurn(f, q, c))
  {
    hide Lookup, CanAnswer, AfterTurn;
    assert ([f] + rest)[1..] == rest;
  }

  /** Files whose range does not cover the key have no turn. */
  lemma {:induction false} NoTurn(files: seq<FileMeta>, rest: seq<FileMeta>, q: Query, c: seq<Cached>)
    requires FilesOk(files) && forall f :: f in files ==> !Covers(f, q.key)
    ensures Answer(files + rest, q, c) == Answer(rest, q, c)
    decreases |files|
  {
    hide Lookup, CanAnswer, FileOk, Covers, Answer;
    if files == [] {
      assert files + rest == rest;
    } else {
      assert files[0] in files;
      NotCovered(files[0], q.key);
      assert files + rest == [files[0]] + (files[1..] + rest);
      AnswerStep(files[0], files[1..] + rest, q, c);
      NoTurn(files[1..], rest, q, c);
    }
  }

  lemma NotCovered(f: FileMeta, k: Key)
    requires FileOk(f) && !Covers(f, k)
    ensures Lookup(f.run, k).None?
  {
    hide Lt, Le, Rank, Lookup;
    if Lookup(f.run, k).Some? {
      KeysInRange(f, k);
    }
  }

  /** One table, asked only if the key lies in its range. */
  method Ask(f: FileMeta, readers: Readers, key: Key, hash: Key -> Bloom.Hash, cache: BlockCache?,
             ghost q: Query, ghost store: map<BlockId, Bytes>)
    returns (res: LookupResult)
    requires FileOk(f) && f.number in readers && StandsFor(readers[f.number], f.run, hash) && CacheOk(cache, store)
    requires cache != null ==> CacheKnows(store, f.number, readers[f.number], BlocksOf(f.run, BLOCK_SIZE))
    requires q == Query(readers, hash, key, CapacityOf(cache))
    modifies if cache != null then cache.Repr() else {}
    ensures CacheOk(cache, store) && (cache != null ==> fresh(cache.Repr() - old(cache.Repr())))
    ensures Contents(cache) == AfterTurn(f, q, old(Contents(cache)))
    ensures res == if Lookup(f.run, key).Some? && CanAnswer(f, q, old(Contents(cache))) then Result(Lookup(f.run, key))
                   else NotFound
  {
    hide Lt, Le, Rank, Lookup, Sorted, Serves, FilterSound, BlocksOf, CacheKnows, Faithful, WithinBudget,
      BlockCache.Valid, Answerable, AfterGet;
    if Lt(key, f.smallest) || Lt(f.largest, key) {
      NotCovered(f, key);
      return NotFound;
    }
    BlocksOfFlatten(f.run, BLOCK_SIZE);
    var ok;
    res, ok := Get(readers[f.number], key, hash, cache, f.number, BlocksOf(f.run, BLOCK_SIZE), store);
  }

  // ---- Levels ------------------------------------------------------------------------------------

  /** Binary search: how many files of a level start at or before the key. */
  method FilesAtOrBefore(files: seq<FileMeta>, k: Key) returns (n: nat)
    requires FilesOk(files) && LevelSorted(files)
    ensures n <= |files|
    ensures n > 0 ==> Le(files[n - 1].smallest, k)
    ensures n < |files| ==> Lt(k, files[n].smallest)
  {
    hide Lt, Le, Rank, FilesOk, LevelSorted;
    var lo, hi := 0, |files|;
    while lo < hi
      invariant 0 <= lo <= hi <= |files|
      invariant lo > 0 ==> Le(files[lo - 1].smallest, k)
      invariant hi < |files| ==> Lt(k, files[hi].smallest)
    {
      var mid := (lo + hi) / 2;
      if Le(files[mid].smallest, k) {
        lo := mid + 1;
      } else {
        hi := mid;
      }
    }
    n := lo;
  }

  /** Only the last file that starts at or before the key can cover it. */
  lemma OthersUncovered(files: seq<FileMeta>, n: nat, k: Key, j: nat)
    requires FilesOk(files) && LevelSorted(files) && n <= |files| && j < |files| && j != n - 1
    requires n > 0 ==> Le(files[n - 1].smallest, k)
    requires n < |files| ==> Lt(k, files[n].smallest)
    ensures !Covers(files[j], k)
  {
    hide Lt, Le, Rank, FileOk;
    assert files[j] in files;
    if n < j {
      assert files[n] in files;
      RangeOrdered(files[n]);
    }
  }

  /** A deeper level gives a turn to its one candidate. */
  lemma LevelTurn(files: seq<FileMeta>, n: nat, rest: seq<FileMeta>, q: Query, c: seq<Cached>)
    requires FilesOk(files) && LevelSorted(files) && n <= |files|
    requires n > 0 ==> Le(files[n - 1].smallest, q.key)
    requires n < |files| ==> Lt(q.key, files[n].smallest)
    ensures n == 0 || Lt(files[n - 1].largest, q.key) ==> Answer(files + rest, q, c) == Answer(rest, q, c)
    ensures n > 0 ==> Answer(files + rest, q, c) == Answer([files[n - 1]] + rest, q, c)
  {
    hide Lt, Le, Rank, FileOk, Answer, LevelSorted;
    forall j | 0 <= j < |files| && j != n - 1 ensures !Covers(files[j], q.key) {
      OthersUncovered(files, n, q.key, j);
    }
    if n == 0 || Lt(files[n - 1].largest, q.key) {
      NoTurn(files, rest, q, c);
    }
    if n > 0 {
      var a, f, b := files[..n - 1], files[n - 1], files[n..];
      assert files + rest == a + ([f] + (b + rest));
      NoTurn(a, [f] + (b + rest), q, c);
      AnswerStep(f, b + rest, q, c);
      AnswerStep(f, rest, q, c);
      NoTurn(b, rest, q, AfterTurn(f, q, c));
    }
  }

  // ---- The whole lookup --------------------------------------------------------------------------

  /** L0, newest file first. */
  method GetFromL0(l0: seq<FileMeta>, readers: Readers, key: Key, hash: Key -> Bloom.Hash, cache: BlockCache?,
                   ghost rest: seq<FileMeta>, ghost q: Query, ghost store: map<BlockId, Bytes>)
    returns (res: LookupResult)
    requires FilesOk(l0) && TablesStand(l0, readers, hash) && q == Query(readers, hash, key, CapacityOf(cache))
    requires CacheOk(cache, store) && (cache != null ==> CacheCovers(store, l0, readers))
    modifies if cache != null then cache.Repr() else {}
    ensures CacheOk(cache, store) && (cache != null ==> fresh(cache.Repr() - old(cache.Repr())))
    ensures Answer(Reverse(l0) + rest, q, old(Contents(cache))) ==
      if res != NotFound then res else Answer(rest, q, Contents(cache))
  {
    hide Lookup, FileOk, StandsFor, CacheKnows, CacheOk, Answer, CanAnswer, AfterTurn, Contents;
    var i := |l0|;
    ghost var files := Reverse(l0);
    assert files[0..] + rest == files + rest;
    while i > 0
      invariant 0 <= i <= |l0|
      invariant CacheOk(cache, store) && (cache != null ==> fresh(cache.Repr() - old(cache.Repr())))
      invariant Answer(files + rest, q, old(Contents(cache))) == Answer(files[|l0| - i..] + rest, q, Contents(cache))
    {
      ghost var n, c := |l0| - i, Contents(cache);
      i := i - 1;
      var f := l0[i];
      assert f in l0 && files[n] == f;
      assert files[n..] + rest == [f] + (files[n + 1..] + rest);
      AnswerStep(f, files[n + 1..] + rest, q, c);
      res := Ask(f, readers, key, hash, cache, q, store);
      if res != NotFound {
        return;
      }
      SomeIsFound(f.run, key);
    }
    assert files[|l0|..] + rest == rest;
    res := NotFound;
  }

  lemma SomeIsFound(run: Run, k: Key)
    ensures Lookup(run, k).Some? ==> Result(Lookup(run, k)) != NotFound
  {
    hide Lookup;
  }

  /** A deeper level: its one candidate file. */
  method GetFromLevel(files: seq<FileMeta>, readers: Readers, key: Key, hash: Key -> Bloom.Hash, cache: BlockCache?,
                      ghost rest: seq<FileMeta>, ghost q: Query, ghost store: map<BlockId, Bytes>)
    returns (res: LookupResult)
    requires FilesOk(files) && LevelSorted(files) && TablesStand(files, readers, hash)
    requires q == Query(readers, hash, key, CapacityOf(cache))
    requires CacheOk(cache, store) && (cache != null ==> CacheCovers(store, files, readers))
    modifies if cache != null then cache.Repr() else {}
    ensures CacheOk(cache, store) && (cache != null ==> fresh(cache.Repr() - old(cache.Repr())))
    ensures Answer(files + rest, q, old(Contents(cache))) ==
      if res != NotFound then res else Answer(rest, q, Contents(cache))
  {
    hide Lt, Le, Rank, Lookup, FileOk, StandsFor, CacheKnows, CacheOk, Answer, CanAnswer, AfterTurn, Contents,
      LevelSorted;
    ghost var c := Contents(cache);
    var n := FilesAtOrBefore(files, key);
    LevelTurn(files, n, rest, q, c);
    if n == 0 || Lt(files[n - 1].largest, key) {
      return NotFound;
    }
    var f := files[n - 1];
    assert f in files;
    AnswerStep(f, rest, q, c);
    res := Ask(f, readers, key, hash, cache, q, store);
    SomeIsFound(f.run, key);
  }

  /** A lookup returns the answer of the first file, from newest to oldest, that holds the key and can answer. */
  method GetFromVersion(v: Version, readers: Readers, key: Key, hash: Key -> Bloom.Hash, cache: BlockCache?,
                        ghost store: map<BlockId, Bytes>)
    returns (res: LookupResult)
    requires ValidVersion(v) && TablesStand(Tables(v), readers, hash)
    requires CacheOk(cache, store) && (cache != null ==> CacheCovers(store, Tables(v), readers))
    modifies if cache != null then cache.Repr() else {}
    ensures CacheOk(cache, store) && (cache != null ==> fresh(cache.Repr() - old(cache.Repr())))
    ensures res == Answer(Tables(v), Query(readers, hash, key, CapacityOf(cache)), old(Contents(cache)))
  {
    hide Lookup, FileOk, StandsFor, CacheKnows, CacheOk, Answer, CanAnswer, AfterTurn, Contents, LevelSorted;
    ghost var q := Query(readers, hash, key, CapacityOf(cache));
    TablesHold(v, 0);
    res := GetFromL0(v.levels[0], readers, key, hash, cache, DeepTables(v, 1), q, store);
    if res != NotFound {
      return;
    }
    var l := 1;
    while l < |v.levels|
      invariant 1 <= l <= |v.levels|
      invariant CacheOk(cache, store) && (cache != null ==> fresh(cache.Repr() - old(cache.Repr())))
      invariant Answer(Tables(v), q, old(Contents(cache))) == Answer(DeepTables(v, l), q, Contents(cache))
    {
      TablesHold(v, l);
      res := GetFromLevel(v.levels[l], readers, key, hash, cache, DeepTables(v, l + 1), q, store);
      if res != NotFound {
        return;
      }
      l := l + 1;
    }
    NoFiles(q, Contents(cache));
    res := NotFound;
  }

  lemma NoFiles(q: Query, c: seq<Cached>)
    ensures Answer([], q, c) == NotFound
  {
  }

  /** The files of each level are among the tables. */
  lemma TablesHold(v: Version, l: nat)
    requires l < |v.levels|
    ensures forall f :: f in v.levels[l] ==> f in Tables(v)
  {
    if l == 0 {
      forall f | f in v.levels[0] ensures f in Reverse(v.levels[0]) {
        var i :| 0 <= i < |v.levels[0]| && v.levels[0][i] == f;
        assert Reverse(v.levels[0])[|v.levels[0]| - 1 - i] == f;
      }
    } else {
      DeepTablesHold(v, 1, l);
    }
  }

  lemma {:induction false} DeepTablesHold(v: Version, from: nat, l: nat)
    requires from <= l < |v.levels|
    ensures forall f :: f in v.levels[l] ==> f in DeepTables(v, from)
    decreases l - from
  {
    if from < l {
      DeepTablesHold(v, from + 1, l);
    }
  }
}
