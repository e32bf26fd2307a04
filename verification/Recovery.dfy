/** From bytes on disk back to a running engine: the manifest, the table files and the log. */
module Recovery {
  import opened Keys
  import opened Coding
  import opened Runs
  import opened Versions
  import opened ManifestFormat
  import opened TableWriter
  import opened TableReader
  import opened TableGet
  import opened TableFiles
  import opened Loading
  import opened Engine
  import opened EngineProof
  import opened Durability
  import Crc32
  import Bloom
  import Wal

  // ---- The bytes of a disk -----------------------------------------------------------------------

  function RowOf(f: FileMeta): Row {
    Row(f.number, f.fileSize, f.numEntries, f.smallest, f.largest)
  }

  function RowsOf(files: seq<FileMeta>): (rows: seq<Row>)
    ensures |rows| == |files|
    ensures forall i :: 0 <= i < |files| ==> rows[i] == RowOf(files[i])
  {
    seq(|files|, i requires 0 <= i < |files| => RowOf(files[i]))
  }

  function ListingOf(next: nat, v: Version): (m: Listing)
    ensures |m.levels| == |v.levels|
    ensures forall l :: 0 <= l < |v.levels| ==> m.levels[l] == RowsOf(v.levels[l])
  {
    Listing(next, seq(|v.levels|, l requires 0 <= l < |v.levels| => RowsOf(v.levels[l])))
  }

  /** The file is as it was written. */
  ghost predicate Pristine(t: TableFile, hash: Key -> Bloom.Hash, bits: nat) {
    t.bytes == FileBytes(t.run, BLOCK_SIZE, hash, bits)
  }

  /** The file has changed since, within four consecutive bytes in front of its last block. */
  ghost predicate DamagedInFront(t: TableFile, hash: Key -> Bloom.Hash, bits: nat) {
    exists at: nat :: Crc32.DiffersWithin(FileBytes(t.run, BLOCK_SIZE, hash, bits), t.bytes, at) && InFront(t.run, at)
  }

  /** The manifest and the directory hold the bytes of this disk; table files may be damaged in front of their last
  blocks. */
  ghost predicate Image(d: Disk, manifest: Option<Bytes>, dir: Directory, hash: Key -> Bloom.Hash, bits: nat) {
    && manifest == (if d.manifest.None? then None
                    else Some(ListingBytes(ListingOf(d.manifest.value.next, d.manifest.value.version))))
    && forall n :: n in d.files && d.files[n].Complete? ==>
         && n in dir && dir[n].run == d.files[n].run
         && (Pristine(dir[n], hash, bits) || DamagedInFront(dir[n], hash, bits))
  }

  /** The sizes and numbers of the live files fit their fields. */
  ghost predicate DiskFits(d: Disk, hash: Key -> Bloom.Hash, bits: nat) {
    && (d.manifest.Some? ==> ListingFits(ListingOf(d.manifest.value.next, d.manifest.value.version)))
    && forall f :: Live(DiskVersion(d), f) ==> TableRoom(f.run, hash, bits) && f.number < TWO_64 - 1
  }

  /** The file of a table opens to a reader that stands for its records, and can read all of them if and only if the
  file is as it was written. */
  ghost predicate TableLoads(f: FileMeta, dir: Directory, hash: Key -> Bloom.Hash, bits: nat) {
    && f.number in dir && dir[f.number].run == f.run && OpenTable(dir[f.number].bytes).Some?
    && var r := OpenTable(dir[f.number].bytes).value;
      && StandsFor(r, f.run, hash) && DistinctOffsets(r)
      && (AllReadable(r) <==> Pristine(dir[f.number], hash, bits))
      && (AllReadable(r) ==> Records(r) == f.run)
  }

  // ---- Loading gives the disk's version back -----------------------------------------------------

  lemma FileLoads(d: Disk, f: FileMeta, dir: Directory, hash: Key -> Bloom.Hash, bits: nat)
    requires FileOk(f) && OnDisk(d, f) && TableRoom(f.run, hash, bits)
    requires f.number in dir && dir[f.number].run == f.run
    requires Pristine(dir[f.number], hash, bits) || DamagedInFront(dir[f.number], hash, bits)
    ensures Opens(RowOf(f), dir) && OpenedFile(RowOf(f), dir) == f
    ensures TableLoads(f, dir, hash, bits)
  {
    hide OpenTable, FileBytes, TableRoom, StandsFor, AllReadable, Records, DistinctOffsets, InFront, Readable,
      Untouched, Crc32.DiffersWithin;
    WrittenOpens(f.run, hash, bits);
    var t := dir[f.number];
    if !Pristine(t, hash, bits) {
      var at: nat :| Crc32.DiffersWithin(FileBytes(t.run, BLOCK_SIZE, hash, bits), t.bytes, at) && InFront(t.run, at);
      DamagedOpens(f.run, hash, bits, t.bytes, at);
      DamagedUnreadable(f.run, hash, bits, t.bytes, at);
    }
  }

  /** What the manifest and the tables say is what was written: the same version, a number above all of its files,
  and for every file a reader that stands for its records. */
  lemma DiskLoads(d: Disk, manifest: Option<Bytes>, dir: Directory, hash: Key -> Bloom.Hash, bits: nat)
    requires DiskOk(d) && Image(d, manifest, dir, hash, bits) && DiskFits(d, hash, bits)
    ensures Load(manifest, dir) == Some(Loaded(DiskVersion(d), RecoveredNext(d)))
    ensures forall f :: Live(DiskVersion(d), f) ==> TableLoads(f, dir, hash, bits)
  {
    hide OpenTable, TableRoom, TableLoads, TakeListing, ListingBytes, ListingFits, OpenedFile, Opens, FileOk, Pristine,
      DamagedInFront, ValidVersion, MaxLive;
    var v := DiskVersion(d);
    forall f | Live(v, f)
      ensures TableLoads(f, dir, hash, bits) && Opens(RowOf(f), dir) && OpenedFile(RowOf(f), dir) == f
    {
      LiveFileOk(v, f);
      FileLoads(d, f, dir, hash, bits);
    }
    if d.manifest.Some? {
      var m := ListingOf(d.manifest.value.next, v);
      ListingReads(m, []);
      assert ListingBytes(m) + [] == ListingBytes(m);
      LevelsLoad(m.next, v, dir);
      MaxLiveSmall(v, TWO_64 - 2);
      HasLevels(v);
    }
  }

  lemma HasLevels(v: Version)
    requires ValidVersion(v)
    ensures v.levels != []
  {
  }

  lemma LiveFileOk(v: Version, f: FileMeta)
    requires ValidVersion(v) && Live(v, f)
    ensures FileOk(f)
  {
    hide FileOk;
  }

  lemma LevelsLoad(next: nat, v: Version, dir: Directory)
    requires forall f :: Live(v, f) ==> Opens(RowOf(f), dir) && OpenedFile(RowOf(f), dir) == f
    ensures LevelsOpen(ListingOf(next, v).levels, dir) && OpenedLevels(ListingOf(next, v).levels, dir) == v.levels
  {
    hide Opens, OpenedFile;
    var rows := ListingOf(next, v).levels;
    forall l | 0 <= l < |v.levels| ensures RowsOpen(rows[l], dir) && OpenedFiles(rows[l], dir) == v.levels[l] {
      forall i | 0 <= i < |v.levels[l]|
        ensures Opens(rows[l][i], dir) && OpenedFile(rows[l][i], dir) == v.levels[l][i]
      {
        assert Live(v, v.levels[l][i]);
      }
    }
    assert OpenedLevels(rows, dir) == v.levels;
  }

  lemma MaxLiveSmall(v: Version, top: nat)
    requires forall f :: Live(v, f) ==> f.number <= top
    ensures MaxLive(v.levels) <= top
  {
    forall l, f | 0 <= l < |v.levels| && f in v.levels[l] ensures f.number <= top {
      assert Live(v, f);
    }
    LevelsBelow(v.levels, top);
  }

  lemma {:induction false} FilesBelow(files: seq<FileMeta>, top: nat)
    requires forall f :: f in files ==> f.number <= top
    ensures MaxNumber(files) <= top
  {
    if files != [] {
      FilesBelow(files[..|files| - 1], top);
    }
  }

  lemma {:induction false} LevelsBelow(levels: seq<seq<FileMeta>>, top: nat)
    requires forall l, f :: 0 <= l < |levels| && f in levels[l] ==> f.number <= top
    ensures MaxLive(levels) <= top
  {
    if levels != [] {
      LevelsBelow(levels[..|levels| - 1], top);
      FilesBelow(levels[|levels| - 1], top);
    }
  }

  /** The number after loading is above every file if and only if no file has the last 64-bit number. */
  lemma NextAboveAllIff(next: nat, levels: seq<seq<FileMeta>>)
    requires next < TWO_64 && forall l, f :: 0 <= l < |levels| && f in levels[l] ==> f.number < TWO_64
    ensures (forall l, f :: 0 <= l < |levels| && f in levels[l] ==> f.number < NextNumber(next, levels))
       <==> (forall l, f :: 0 <= l < |levels| && f in levels[l] ==> f.number != TWO_64 - 1)
  {
    MaxLiveBound(levels);
    if forall l, f :: 0 <= l < |levels| && f in levels[l] ==> f.number != TWO_64 - 1 {
      LevelsBelow(levels, TWO_64 - 2);
    }
  }

  // ---- Whole runs --------------------------------------------------------------------------------

  /** After any run of the engine that ended in a crash, the bytes on disk give back the map of all operations the
  engine answers for: the loaded version with the replayed log on top. */
  lemma BytesRecoverHistory(steps: seq<Step>, manifest: Option<Bytes>, dir: Directory, hash: Key -> Bloom.Hash,
                            bits: nat)
    requires Trace(INITIAL, steps)
    requires var s := End(INITIAL, steps);
      s.status.Down? && Image(s.disk, manifest, dir, hash, bits) && DiskFits(s.disk, hash, bits)
    ensures var s := End(INITIAL, steps); var l := Load(manifest, dir);
      && l.Some?
      && (forall k :: Seen(MemOf(Wal.Replay(s.disk.log)), l.value.version, k) == Apply(s.history, k))
      && (forall f :: Live(l.value.version, f) ==> TableLoads(f, dir, hash, bits) && f.number != l.value.next)
  {
    hide Seen, Apply, Wal.Replay, MemOf, Load, TableLoads, Image, DiskFits, ValidVersion, OnDisk;
    InitialInv();
    RunKeepsInv(INITIAL, steps);
    var s := End(INITIAL, steps);
    DiskLoads(s.disk, manifest, dir, hash, bits);
    RecoverKeeps(s);
  }
}
