/** Which tables are open and which records a store holds. */
module Stored {
  import opened Keys
  import opened Runs
  import opened Versions
  import opened TableReader
  import opened TableGet
  import opened TableFiles
  import opened TableWriter
  import opened BlockStore
  import opened Reads
  import opened Room
  import Bloom

  // ---- Open tables -------------------------------------------------------------------------------

  /** The reader stands for the records, and tells its blocks apart. */
  ghost predicate ReaderOk(r: Reader, run: Run, hash: Key -> Bloom.Hash) {
    StandsFor(r, run, hash) && DistinctOffsets(r)
  }

  /** The file has a reader that stands for the records it was written from. */
  ghost predicate TableOk(readers: Readers, written: Written, f: FileMeta, hash: Key -> Bloom.Hash) {
    && f.number in readers && ReaderOk(readers[f.number], f.run, hash)
    && f.number in written && written[f.number] == f.run
  }

  ghost predicate AllTablesOk(v: Version, readers: Readers, written: Written, hash: Key -> Bloom.Hash) {
    forall f :: Live(v, f) ==> TableOk(readers, written, f, hash)
  }

  /** Every block of every table can be read. */
  ghost predicate AllIntact(v: Version, readers: Readers) {
    forall f :: Live(v, f) ==> f.number in readers && AllReadable(readers[f.number])
  }

  lemma TablesServe(v: Version, readers: Readers, written: Written, hash: Key -> Bloom.Hash)
    requires AllTablesOk(v, readers, written, hash)
    ensures TablesStand(Tables(v), readers, hash) && CacheCovers(StoreOf(readers, written), Tables(v), readers)
  {
    hide DistinctOffsets, StoreOf, CacheKnows, BlocksOf, Serves, FilterSound, Tables;
    forall f | f in Tables(v)
      ensures TableOk(readers, written, f, hash)
      ensures CacheKnows(StoreOf(readers, written), f.number, readers[f.number], BlocksOf(f.run, BLOCK_SIZE))
    {
      TablesLive(v, f);
      StoreKnows(readers, written, f.number);
    }
  }

  lemma TablesLive(v: Version, f: FileMeta)
    ensures f in Tables(v) <==> Live(v, f)
  {
    if f in Tables(v) {
      if f !in v.levels[0] {
        assert f !in Reverse(v.levels[0]);
        DeepTablesLive(v, 1, f);
      } else {
        assert Live(v, f);
      }
    }
    if Live(v, f) {
      var l :| 0 <= l < |v.levels| && f in v.levels[l];
      TablesHold(v, l);
    }
  }

  lemma {:induction false} DeepTablesLive(v: Version, from: nat, f: FileMeta)
    requires f in DeepTables(v, from)
    ensures Live(v, f)
    decreases |v.levels| - from
  {
    if f in v.levels[from] {
      assert Live(v, f);
    } else {
      DeepTablesLive(v, from + 1, f);
    }
  }

  /** One more table leaves the others as they are. */
  lemma OneMoreTable(v: Version, readers: Readers, written: Written, n: nat, r: Reader, run: Run,
                     hash: Key -> Bloom.Hash)
    requires AllTablesOk(v, readers, written, hash) && n !in readers
    ensures AllTablesOk(v, readers[n := r], written[n := run], hash)
    ensures AllIntact(v, readers) ==> AllIntact(v, readers[n := r])
  {
    hide AllReadable, DistinctOffsets, StandsFor;
    forall f | Live(v, f) ensures TableOk(readers[n := r], written[n := run], f, hash) {
      assert TableOk(readers, written, f, hash);
    }
  }

  // ---- File sizes --------------------------------------------------------------------------------

  /** The recorded size is the length of the file written from the records. */
  ghost predicate Measured(f: FileMeta, hash: Key -> Bloom.Hash, bits: nat) {
    f.fileSize == |FileBytes(f.run, BLOCK_SIZE, hash, bits)|
  }

  ghost predicate AllMeasured(v: Version, hash: Key -> Bloom.Hash, bits: nat) {
    forall f :: Live(v, f) ==> Measured(f, hash, bits)
  }

  lemma PushMeasured(v: Version, f: FileMeta, hash: Key -> Bloom.Hash, bits: nat)
    requires |v.levels| >= 1 && AllMeasured(v, hash, bits) && Measured(f, hash, bits)
    ensures AllMeasured(PushL0(v, f), hash, bits)
  {
    hide Measured;
    forall g | Live(PushL0(v, f), g) ensures Measured(g, hash, bits) {
      if g != f {
        assert Live(v, g);
      }
    }
  }

  // ---- The records held --------------------------------------------------------------------------

  ghost predicate HoldsEntry(mem: Run, v: Version, e: Entry) {
    e in mem || exists f :: Live(v, f) && e in f.run
  }

  ghost predicate AllSmall(mem: Run, v: Version) {
    forall e :: HoldsEntry(mem, v, e) ==> SmallEntry(e)
  }

  /** A flush moves records and adds none. */
  lemma FlushSmall(mem: Run, v: Version, f: FileMeta)
    requires |v.levels| >= 1 && f.run == mem && AllSmall(mem, v)
    ensures AllSmall([], PushL0(v, f))
  {
    hide SmallEntry;
    forall e | HoldsEntry([], PushL0(v, f), e) ensures SmallEntry(e) {
      var g :| Live(PushL0(v, f), g) && e in g.run;
      if g != f {
        assert Live(v, g);
      }
      assert HoldsEntry(mem, v, e);
    }
  }
}
