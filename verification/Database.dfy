/** The database object: its memtable, log, tables, cache and files, kept in step with the engine's state machine. */
module Database {
  import opened Keys
  import opened Coding
  import opened Runs
  import opened Versions
  import opened CompactionSpec
  import opened TableReader
  import opened TableWriter
  import opened TableGet
  import opened TableFiles
  import opened TableIterator
  import opened BlockStore
  import opened Stored
  import opened Reads
  import opened Room
  import opened MemRoom
  import opened Loading
  import opened Recovery
  import opened Cache
  import opened TableFormat
  import opened SkipLists = SkipList
  import Scans = Scan
  import opened Engine
  import opened Durability
  import opened EngineRuns
  import opened Opening
  import opened Compacting
  import opened CompactionStore
  import opened CompactionProof
  import opened CompactionProgress
  import Picker
  import EngineProof
  import ManifestFormat
  import Wal
  import Bloom

  /** The settings and the records held keep every table within the file format, and the recorded sizes are real. */
  ghost predicate StoreSized(mem: Run, v: Version, o: Options, hash: Key -> Bloom.Hash, bits: nat) {
    && MemFits(mem, bits) && AllSmall(mem, v) && AllMeasured(v, hash, bits)
    && TargetFits(o.targetFileSize, bits) && ThresholdFits(o.memtableFlushThreshold, bits)
  }

  /** A cache of the given size, or none. */
  method NewCache(bytes: nat) returns (cache: BlockCache?)
    ensures CacheOk(cache, map[]) && (cache == null <==> bytes == 0)
    ensures cache != null ==> fresh(cache.Repr()) && cache.capacity == bytes
  {
    hide BlockCache.Valid;
    if bytes > 0 {
      cache := new BlockCache(bytes);
    } else {
      cache := null;
    }
  }

  class DB {
    const options: Options
    const hash: Key -> Bloom.Hash
    const nodeSize: nat
    const cache: BlockCache?

    var mem: SkipLists.SkipList
    var wal: Wal.WalWriter
    var current: Version
    var nextFile: nat
    /** The open tables, by file number. */
    var readers: Readers
    /** The records those tables were written from. */
    ghost var written: Written

    /** The manifest file and the table files of the database directory. */
    var manifest: Option<Bytes>
    var dir: Directory

    /** The steps of the state machine taken so far, and the state they led to. */
    ghost var past: seq<Step>
    ghost var state: State

    /** A database object over a directory, not yet recovered: `steps` is what was done to the directory before. */
    constructor (options: Options, hash: Key -> Bloom.Hash, nodeSize: nat, cacheBytes: nat,
                 manifest: Option<Bytes>, dir: Directory, log: Bytes, ghost steps: seq<Step>)
      requires Trace(INITIAL, steps)
      ensures this.options == options && this.hash == hash && this.manifest == manifest && this.dir == dir
      ensures mem.Valid() && mem.contents == [] && wal.file == log && readers == map[]
      ensures fresh(mem.Repr()) && fresh(wal) && fresh(CacheRepr()) && Apart()
      ensures CacheOk(cache, map[])
      ensures past == steps && state == End(INITIAL, steps)
    {
      hide Trace, End, SkipLists.SkipList.Valid, CacheOk;
      this.options, this.hash, this.nodeSize := options, hash, nodeSize;
      var made := NewCache(cacheBytes);
      cache := made;
      mem := new SkipLists.SkipList(nodeSize);
      wal := new Wal.WalWriter(log);
      current, nextFile, readers, written := EMPTY_VERSION, 1, map[], map[];
      this.manifest, this.dir := manifest, dir;
      past, state := steps, End(INITIAL, steps);
    }

    function Bits(): nat {
      if options.bloomBitsPerKey < 0 then 0 else options.bloomBitsPerKey
    }

    ghost function CacheRepr(): set<object>
      reads cache
    {
      if cache != null then cache.Repr() else {}
    }

    ghost function Repr(): set<object>
      reads this, mem, cache
    {
      {this, wal} + mem.Repr() + CacheRepr()
    }

    /** The fields are what the state machine says. */
    ghost predicate InStep()
      reads this, mem, wal
    {
      && Steps(INITIAL, past, state) && state.status.Running?
      && state.mem == mem.contents && state.current == current && state.nextFile == nextFile
      && state.disk.log == wal.file
      && Image(state.disk, manifest, dir, hash, Bits())
    }

    ghost predicate TablesUp()
      reads this`current, this`readers, this`written, this`nextFile, cache, CacheRepr()
    {
      && AllTablesOk(current, readers, written, hash)
      && (forall n :: n in readers ==> n < nextFile)
      && CacheOk(cache, StoreOf(readers, written))
    }

    ghost predicate Apart()
      reads this`mem, this`wal, mem, cache
    {
      && this !in mem.Repr() && wal !in mem.Repr()
      && this !in CacheRepr() && wal !in CacheRepr() && mem.Repr() !! CacheRepr()
    }

    ghost predicate Sound()
      reads this, mem, mem.head, mem.nodes, wal, cache, CacheRepr()
    {
      Apart() && mem.Valid() && InStep() && TablesUp() && StoreSized(mem.contents, current, options, hash, Bits())
    }

    /** Between two calls. */
    ghost predicate Valid()
      reads this, mem, mem.head, mem.nodes, wal, cache, CacheRepr()
    {
      && Sound() && OptionsOk(options) && state.writer.Idle? && state.compactor.Resting?
      && MemSmall(mem.contents, Bits())
    }

    /** Every block of every live table can be read. */
    ghost predicate Intact()
      reads this`current, this`readers
    {
      AllIntact(current, readers)
    }

    lemma SoundInv()
      requires Steps(INITIAL, past, state)
      ensures Inv(state)
    {
      hide Inv, Trace, End;
      InitialInv();
      RunKeepsInv(INITIAL, past);
    }

    lemma CurrentIsValid()
      requires Valid()
      ensures ValidVersion(current) && state.current == current
    {
      hide Inv, ValidVersion, Image, StoreSized, MemSmall, AllTablesOk, StoreOf, CacheOk, SkipLists.SkipList.Valid,
        Steps;
      SoundInv();
      ValidCurrent(state);
    }

    /** The steps of the state machine that the code has just taken. */
    ghost method Follow(steps: seq<Step>, next: State)
      requires Steps(INITIAL, past, state) && Steps(state, steps, next)
      modifies this`past, this`state
      ensures state == next && Steps(INITIAL, past, state)
    {
      hide Steps;
      StepsAppend(INITIAL, past, state, steps, next);
      past := past + steps;
      state := next;
    }

    // ---- Recovery --------------------------------------------------------------------------------

    /** The object as it is before recovery, over any directory. */
    ghost predicate Unopened()
      reads this, mem, mem.head, mem.nodes, wal, cache, CacheRepr()
    {
      Apart() && mem.Valid() && mem.contents == [] && CacheOk(cache, map[])
    }

    /** An engine that is down, and its log. */
    ghost predicate EngineDown()
      reads this`past, this`state, this`wal, wal
    {
      OptionsOk(options) && Steps(INITIAL, past, state) && state.status.Down? && state.disk.log == wal.file
    }

    /** The directory is what an engine that is down left behind, table files perhaps damaged since. */
    ghost predicate FromEngine()
      reads this, wal
    {
      EngineDown() && Image(state.disk, manifest, dir, hash, Bits())
    }

    /** Everything on disk fits the file formats, and the manifest records the sizes of the files. */
    ghost predicate Fits()
      reads this`state
    {
      var mem := MemOf(Wal.Replay(state.disk.log));
      && DiskFits(state.disk, hash, Bits()) && AllMeasured(DiskVersion(state.disk), hash, Bits())
      && MemSmall(mem, Bits()) && AllSmall(mem, DiskVersion(state.disk))
      && TargetFits(options.targetFileSize, Bits()) && ThresholdFits(options.memtableFlushThreshold, Bits())
    }

    /** Replay the records of the log into the memtable. */
    method ReplayInto(records: seq<Wal.Record>, heights: nat -> nat)
      requires mem.Valid() && mem.contents == [] && forall i :: 1 <= heights(i) <= MAX_LEVEL
      modifies mem.Repr()
      ensures mem.Valid() && mem.contents == MemOf(records) && fresh(mem.Repr() - old(mem.Repr()))
    {
      hide SkipLists.SkipList.Valid, Upsert;
      var i := 0;
      while i < |records|
        invariant 0 <= i <= |records|
        invariant mem == old(mem) && mem.Valid() && fresh(mem.Repr() - old(mem.Repr()))
        invariant mem.contents == MemOf(records[..i])
      {
        assert records[..i + 1][..i] == records[..i];
        var r := records[i];
        if r.kind == Wal.KIND_TOMBSTONE {
          mem.Delete(r.key, heights(i));
        } else {
          mem.Put(r.key, r.value, heights(i));
        }
        i := i + 1;
      }
      assert records[..i] == records;
    }

    /** Replay the log; the cache is not touched. */
    method ReplayLog(heights: nat -> nat)
      requires Unopened() && forall i :: 1 <= heights(i) <= MAX_LEVEL
      modifies mem.Repr()
      ensures Apart() && CacheOk(cache, map[]) && mem.Valid() && mem.contents == MemOf(Wal.Replay(wal.file))
      ensures fresh(mem.Repr() - old(mem.Repr()))
    {
      hide CacheOk, SkipLists.SkipList.Valid, MemOf, Wal.Replay;
      var records, _ := Wal.WalReplay(wal.file);
      ReplayInto(records, heights);
    }

    lemma LoadsWhenFits()
      requires FromEngine()
      ensures Fits() ==> Load(manifest, dir).Some?
    {
      hide Steps, Image, AllSmall, MemSmall, Inv, Wal.Replay, MemOf, Load, DiskFits;
      SoundInv();
      DownDiskOk(state);
      if Fits() {
        DiskLoads(state.disk, manifest, dir, hash, Bits());
      }
    }

    lemma EngineFacts(v: Version, next: nat, open: Readers, gone: set<nat>)
      requires FromEngine() && Fits() && Load(manifest, dir) == Some(Loaded(v, next))
      requires forall n :: n in open <==> NumberLive(v, n)
      requires forall n :: n in open ==> n in dir && OpenTable(dir[n].bytes) == Some(open[n])
      requires forall n :: n in gone ==> !NumberLive(v, n)
      ensures OpenedAs(state, v, next, open, WrittenIn(dir, open), manifest, dir - gone, gone, hash, Bits())
      ensures v == DiskVersion(state.disk) && (AllIntact(v, open) <==> Undamaged(v, dir, hash, Bits()))
    {
      hide Steps, Image, AllTablesOk, AllIntact, Inv, Wal.Replay, MemOf, Load, NumberLive, DiskFits, OpenTable,
        RecoveredNext, AllSmall, TargetFits, ThresholdFits, MemSmall, WrittenIn, Undamaged;
      SoundInv();
      OpenFacts(state, manifest, dir, v, next, open, gone, hash, Bits());
    }

    /** The steps an engine's opening takes lead to what the fields now hold. */
    ghost method Resume(gone: set<nat>)
      requires Apart() && mem.Valid() && CacheOk(cache, map[]) && EngineDown() && Fits()
      requires mem.contents == MemOf(Wal.Replay(wal.file))
      requires OpenedAs(state, current, nextFile, readers, written, manifest, dir, gone, hash, Bits())
      modifies this`past, this`state
      ensures Valid() && state.history == old(state.history)
    {
      hide Steps, Image, AllTablesOk, StoreOf, CacheOk, SkipLists.SkipList.Valid, Wal.Replay, MemOf, NumberLive,
        DiskFits, RecoveredNext, AllSmall, TargetFits, ThresholdFits, MemFits, MemSmall;
      FreshCache(cache, StoreOf(readers, written));
      SmallFits(mem.contents, Bits());
      var steps := OpenRun(state, gone);
      Follow(steps, AfterOpen(state, gone));
      assert Apart() && InStep();
    }

    /** Start with a loaded version, its readers, and what is left of the directory. */
    method Enter(v: Version, next: nat, open: Readers, kept: Directory, ghost runs: Written, ghost gone: set<nat>,
                 ghost engine: bool)
      requires Apart() && mem.Valid() && CacheOk(cache, map[]) && mem.contents == MemOf(Wal.Replay(wal.file))
      requires engine ==> EngineDown() && Fits()
      requires engine ==> OpenedAs(state, v, next, open, runs, manifest, kept, gone, hash, Bits())
      modifies this`current, this`nextFile, this`readers, this`written, this`dir, this`past, this`state
      ensures current == v && nextFile == next && readers == open && dir == kept
      ensures engine ==> Valid() && state.history == old(state.history)
    {
      hide EngineDown, Fits, Sound, OpenedAs, CacheOk, SkipLists.SkipList.Valid, Wal.Replay, MemOf, MemSmall;
      current, nextFile, readers, written := v, next, open, runs;
      dir := kept;
      if engine {
        Resume(gone);
      }
    }

    /** Open the tables of a loaded version, replay the log, and delete the files the version does not name. */
    method Reopen(v: Version, next: nat, heights: nat -> nat)
      requires Unopened() && Load(manifest, dir) == Some(Loaded(v, next)) && forall i :: 1 <= heights(i) <= MAX_LEVEL
      modifies this`current, this`nextFile, this`readers, this`written, this`dir, this`past, this`state, mem.Repr()
      ensures current == v && nextFile == next && Reopened(old(dir))
      ensures mem.Valid() && mem.contents == MemOf(Wal.Replay(wal.file)) && fresh(mem.Repr() - old(mem.Repr()))
      ensures old(FromEngine() && Fits()) ==> Valid() && state.history == old(state.history)
      ensures old(FromEngine() && Fits()) ==> current == DiskVersion(old(state.disk))
      ensures old(FromEngine() && Fits()) ==> (Intact() <==> Undamaged(current, old(dir), hash, Bits()))
    {
      hide EngineDown, Fits, Image, Sound, OpenedAs, WrittenIn, Undamaged, AllIntact, CacheOk, SkipLists.SkipList.Valid,
        Wal.Replay, MemOf, MemSmall, Load, NumberLive, OpenTable, SkipLists.SkipList.Repr;
      ghost var engine := FromEngine() && Fits();
      ReplayLog(heights);
      forall n | NumberLive(v, n) ensures n in dir && OpenTable(dir[n].bytes).Some? {
        LoadedOpens(manifest, dir, n);
      }
      var open := OpenReaders(v, dir);
      var kept, gone := RemoveOrphanFiles(v, dir);
      if engine {
        EngineFacts(v, next, open, gone);
      }
      Enter(v, next, open, kept, WrittenIn(dir, open), gone, engine);
    }

    /** Load the manifest, open its tables, replay the log, delete the files nothing names; for any directory. Where an
    engine left the directory and what is on disk fits the formats, opening succeeds, also where table files have been
    damaged in front of their last blocks since, and the database answers for exactly the operations it answered for
    before. Every block can be read if and only if no live file is damaged. */
    method Recover(heights: nat -> nat) returns (ok: bool)
      requires Unopened() && forall i :: 1 <= heights(i) <= MAX_LEVEL
      modifies this, mem.Repr()
      ensures ok == Load(old(manifest), old(dir)).Some?
      ensures ok ==> Loaded(current, nextFile) == Load(old(manifest), old(dir)).value && Reopened(old(dir))
      ensures ok <==> Loadable(old(manifest), old(dir))
      ensures CutShort(old(manifest)) || NamesLost(old(manifest), old(dir)) ==> !ok
      ensures ok && old(manifest).None? ==> current == EMPTY_VERSION && nextFile == 1
      ensures ok && old(manifest).Some? ==>
        forall m :: BeginsWith(old(manifest).value, m) ==> LevelsListed(current.levels, m) && NextAfter(nextFile, m)
      ensures ok ==> mem.Valid() && mem.contents == MemOf(Wal.Replay(wal.file))
      ensures !ok ==> dir == old(dir) && mem.contents == []
      ensures manifest == old(manifest) && wal == old(wal) && wal.file == old(wal.file)
      ensures old(FromEngine() && Fits()) ==> ok && Valid() && state.history == old(state.history)
      ensures old(FromEngine() && Fits()) ==> current == DiskVersion(old(state.disk))
      ensures old(FromEngine() && Fits()) ==> (Intact() <==> Undamaged(current, old(dir), hash, Bits()))
      ensures mem == old(mem) && fresh(mem.Repr() - old(mem.Repr()))
    {
      hide Load, Reopened, FromEngine, Fits, Sound, MemSmall, Intact, MemOf, Wal.Replay, SkipLists.SkipList.Valid,
        CacheOk, Loadable, CutShort, NamesLost, BeginsWith, LevelsListed, NextAfter, AllThere;
      var loaded := LoadManifest(manifest, dir);
      if loaded.None? {
        if FromEngine() {
          LoadsWhenFits();
        }
        return false;
      }
      Reopen(loaded.value.version, loaded.value.next, heights);
      ok := true;
    }

    /** Exactly the live files are left of a directory, and each has the reader its bytes open to. */
    ghost predicate Reopened(before: Directory)
      reads this
    {
      && (forall n :: n in readers <==> NumberLive(current, n))
      && (forall n :: n in readers ==> n in before && OpenTable(before[n].bytes) == Some(readers[n]))
      && (forall n :: n in dir <==> n in before && NumberLive(current, n))
      && (forall n :: n in dir ==> dir[n] == before[n])
    }

    // ---- Flush -----------------------------------------------------------------------------------

    /** Write the memtable to a table file and open it. */
    method WriteFlushFile(number: nat) returns (file: FileMeta, reader: Reader, bytes: Bytes)
      requires mem.Valid() && mem.contents != [] && TableRoom(mem.contents, hash, Bits())
      ensures file == FileOf(number, |bytes|, mem.contents)
      ensures bytes == FileBytes(mem.contents, BLOCK_SIZE, hash, Bits())
      ensures ReaderOk(reader, mem.contents, hash) && AllReadable(reader)
    {
      hide TableRoom, SkipLists.SkipList.Valid, FileBytes, OpenTable, StandsFor, AllReadable, DistinctOffsets, Sealed;
      var size, entries;
      bytes, size, entries := WriteMem(mem, hash, Bits());
      MemSorted(mem);
      WrittenOpens(mem.contents, hash, Bits());
      var o := TableReader.Open(bytes);
      reader := o.value;
      file := FileMeta(number, reader.smallest, reader.largest, size, entries, Records(reader));
    }

    /** The new table at the back of L0, with its manifest. */
    method InstallL0(file: FileMeta, reader: Reader, bytes: Bytes)
      requires TablesUp() && this !in CacheRepr() && |current.levels| >= 1
      requires file.number == nextFile && ReaderOk(reader, file.run, hash) && AllReadable(reader)
      modifies this`current, this`nextFile, this`readers, this`written, this`manifest, this`dir
      ensures TablesUp() && nextFile == old(nextFile) + 1 && current == PushL0(old(current), file)
      ensures dir == old(dir)[file.number := TableFile(bytes, file.run)]
      ensures manifest == Some(ManifestFormat.ListingBytes(ListingOf(nextFile, current)))
      ensures old(Intact()) ==> Intact()
    {
      hide TableOk, StoreOf, PushL0, AllTablesOk, AllIntact, CacheOk, ManifestFormat.ListingBytes, ReaderOk,
        AllReadable;
      AddReader(nextFile, reader, file);
      PushTablesOk(current, file, readers, written, hash);
      PushIntact(current, file, readers);
      nextFile := nextFile + 1;
      dir := dir[file.number := TableFile(bytes, file.run)];
      current := PushL0(current, file);
      var listing := ManifestFormat.Encode(ListingOf(nextFile, current));
      manifest := Some(listing);
    }

    /** A new memtable and a new log. */
    method StartAfresh()
      requires Apart() && TablesUp()
      modifies this`mem, this`wal
      ensures fresh(mem.Repr()) && fresh(wal) && mem.Valid() && mem.contents == [] && wal.file == []
      ensures Apart() && TablesUp()
    {
      hide TableOk, StoreOf, AllTablesOk, CacheOk, SkipLists.SkipList.Valid;
      mem := new SkipLists.SkipList(nodeSize);
      wal := new Wal.WalWriter([]);
    }

    /** What a flush of the memtable leads to: its table fits, and the state behind it is the machine's. */
    lemma FlushFacts()
      requires Sound() && (state.writer.Applied? || state.writer.Idle?) && mem.contents != []
      ensures Sorted(mem.contents) && TableRoom(mem.contents, hash, Bits()) && |current.levels| >= 1
      ensures FlushLeads(state, options, dir, hash, Bits())
    {
      hide Steps, Image, SkipLists.SkipList.Valid, AllSmall, AllMeasured, TableRoom, PushL0, FileBytes, TargetFits,
        ThresholdFits, Bulk, ManifestFormat.ListingBytes, TablesUp, Inv, Apart, Sorted;
      MemSorted(mem);
      MemRecordsSmall(mem.contents, current);
      SmallTableFits(mem.contents, hash, Bits());
      SoundInv();
      HasL0(state);
      EmptyFits(Bits());
      var file := FlushedFile(nextFile, mem.contents, hash, Bits());
      FlushSmall(mem.contents, current, file);
      PushMeasured(current, file, hash, Bits());
      FlushImage(state, file.fileSize, manifest, dir, hash, Bits());
      FlushRun(state, file.fileSize);
    }

    /** Memtable and log are empty, and these records are the newest table of L0, with its file and a new manifest. */
    ghost predicate Flushed(run: Run, before: Version, number: nat, files: Directory)
      requires run != [] && |before.levels| >= 1
      reads this`mem, this`wal, this`nextFile, this`current, this`dir, this`manifest, mem, wal
    {
      && mem.contents == [] && wal.file == [] && nextFile == number + 1
      && current == PushL0(before, FlushedFile(number, run, hash, Bits()))
      && dir == files[number := TableFile(FileBytes(run, BLOCK_SIZE, hash, Bits()), run)]
      && manifest == Some(ManifestFormat.ListingBytes(ListingOf(nextFile, current)))
    }

    /** The memtable becomes the newest table of L0 and the log is truncated. */
    method FlushEntries()
      requires Sound() && (state.writer.Applied? || state.writer.Idle?) && mem.contents != []
      modifies this
      ensures Sound() && fresh(mem.Repr()) && fresh(wal) && |old(current.levels)| >= 1
      ensures Flushed(old(mem.contents), old(current), old(nextFile), old(dir))
      ensures old(state.current) == old(current)
      ensures state == AfterFlush(old(state), |FileBytes(old(mem.contents), BLOCK_SIZE, hash, Bits())|)
      ensures old(Intact()) ==> Intact()
    {
      hide Steps, Image, SkipLists.SkipList.Valid, StoreSized, TableRoom, PushL0, FileBytes,
        ManifestFormat.ListingBytes, AllTablesOk, StoreOf, CacheOk, Intact, ReaderOk, AllReadable, Sorted,
        SkipLists.SkipList.Repr, FlushSteps, Inv, TablesUp;
      ghost var s := state;
      FlushFacts();
      var file, reader, bytes := WriteFlushFile(nextFile);
      SwitchOver(file, reader, bytes);
      Follow(FlushSteps(|bytes|), AfterFlush(s, |bytes|));
      assert InStep();
    }

    /** The new table and its manifest, then a new memtable and a new log. */
    method SwitchOver(file: FileMeta, reader: Reader, bytes: Bytes)
      requires Apart() && TablesUp() && |current.levels| >= 1
      requires file.number == nextFile && ReaderOk(reader, file.run, hash) && AllReadable(reader)
      modifies this`current, this`nextFile, this`readers, this`written, this`manifest, this`dir, this`mem, this`wal
      ensures Apart() && TablesUp() && nextFile == old(nextFile) + 1 && current == PushL0(old(current), file)
      ensures dir == old(dir)[file.number := TableFile(bytes, file.run)]
      ensures manifest == Some(ManifestFormat.ListingBytes(ListingOf(nextFile, current)))
      ensures fresh(mem.Repr()) && fresh(wal) && mem.Valid() && mem.contents == [] && wal.file == []
      ensures old(Intact()) ==> Intact()
    {
      hide TablesUp, PushL0, ManifestFormat.ListingBytes, SkipLists.SkipList.Valid, Intact, ReaderOk, AllReadable;
      InstallL0(file, reader, bytes);
      StartAfresh();
    }

    /** Nothing if the memtable is empty; otherwise its records become the newest table. */
    method FlushMemTable()
      requires Sound() && (state.writer.Applied? || state.writer.Idle?)
      modifies this
      ensures Sound()
      ensures old(mem.contents) == [] ==> unchanged(this)
      ensures old(mem.contents) != [] ==>
        && fresh(mem.Repr()) && fresh(wal) && |old(current.levels)| >= 1 && old(state.current) == old(current)
        && Flushed(old(mem.contents), old(current), old(nextFile), old(dir))
        && state == AfterFlush(old(state), |FileBytes(old(mem.contents), BLOCK_SIZE, hash, Bits())|)
      ensures old(Intact()) ==> Intact()
    {
      hide InStep, TablesUp, StoreSized, AllIntact, SkipLists.SkipList.Valid, PushL0, Flushed, FileBytes;
      MemSorted(mem);
      if mem.count != 0 {
        FlushEntries();
      }
    }

    /** One more open table; the cache stays right about the others. */
    method AddReader(number: nat, reader: Reader, ghost file: FileMeta)
      requires number !in readers && AllTablesOk(current, readers, written, hash)
      requires CacheOk(cache, StoreOf(readers, written)) && this !in CacheRepr()
      requires file.number == number && ReaderOk(reader, file.run, hash)
      modifies this`readers, this`written
      ensures readers == old(readers)[number := reader] && written == old(written)[number := file.run]
      ensures AllTablesOk(current, readers, written, hash) && CacheOk(cache, StoreOf(readers, written))
      ensures TableOk(readers, written, file, hash)
      ensures old(Intact()) ==> Intact()
    {
      hide AllTablesOk, AllIntact, StoreOf, ReaderOk, AllReadable, Faithful, BlockCache.Valid;
      OneMoreTable(current, readers, written, number, reader, file.run, hash);
      if cache != null {
        StoreGrows(readers, written, number, reader, file.run, cache.contents);
      }
      readers, written := readers[number := reader], written[number := file.run];
    }

    // ---- Writes ----------------------------------------------------------------------------------

    /** What a write leads to. */
    lemma WriteFacts(op: Op)
      requires Valid() && SmallEntry(EntryOf(RecordOf(op)))
      ensures var t := AfterWrite(state, op);
        && Wal.Fits(RecordOf(op)) && Steps(state, PutSteps(op)[..4], t)
        && StoreSized(t.mem, current, options, hash, Bits()) && Image(t.disk, manifest, dir, hash, Bits())
    {
      hide Steps, Image, AllSmall, AllMeasured, SmallEntry, MemFits, MemSmall, TargetFits, TablesUp, Apart, Upsert,
        Wal.Frame, Wal.Fits, Wal.Consumed, SkipLists.SkipList.Valid;
      var r := RecordOf(op);
      SmallRecordFits(op);
      UpsertFits(mem.contents, EntryOf(r), Bits());
      UpsertSmall(mem.contents, current, EntryOf(r));
      ImageLog(state.disk, manifest, dir, hash, Bits(), wal.file + Wal.Frame(r));
      WriteRun(state, op);
    }

    /** The record goes to the log, then into the memtable. */
    method LogAndApply(op: Op, height: nat)
      requires Valid() && SmallEntry(EntryOf(RecordOf(op))) && 1 <= height <= MAX_LEVEL
      modifies this`past, this`state, wal, mem.Repr()
      ensures Sound() && state == AfterWrite(old(state), op) && fresh(mem.Repr() - old(mem.Repr()))
      ensures mem.contents == Upsert(old(mem.contents), EntryOf(RecordOf(op)))
      ensures wal.file == old(wal.file) + Wal.Frame(RecordOf(op))
      ensures mem.memUsage ==
        UsageWith(old(mem.memUsage), old(mem.contents), EntryOf(RecordOf(op)), height, mem.nodeSize)
    {
      hide Steps, Image, StoreSized, SmallEntry, MemSmall, AllTablesOk, StoreOf, CacheOk, Upsert, UsageWith, Wal.Frame,
        Wal.Fits, Wal.Consumed, SkipLists.SkipList.Valid;
      ghost var s := state;
      var r := RecordOf(op);
      WriteFacts(op);
      wal.AddRecord(r.kind, r.key, r.value);
      if op.Put? {
        mem.Put(op.key, op.value, height);
      } else {
        mem.Delete(op.key, height);
      }
      Follow(PutSteps(op)[..4], AfterWrite(s, op));
      assert Apart();
      assert TablesUp();
      assert InStep();
    }

    /** What a write changes. While the memtable with the entry stays below the threshold: one more entry, one more log
    frame, and nothing else. Otherwise all entries are flushed. */
    twostate predicate Wrote(r: Wal.Record, height: nat)
      reads this, mem, wal
    {
      var e := EntryOf(r);
      var run := Upsert(old(mem.contents), e);
      if UsageWith(old(mem.memUsage), old(mem.contents), e, height, old(mem).nodeSize) < options.memtableFlushThreshold
      then
        && mem == old(mem) && mem.contents == run && wal == old(wal) && wal.file == old(wal.file) + Wal.Frame(r)
        && current == old(current) && nextFile == old(nextFile) && manifest == old(manifest) && dir == old(dir)
        && readers == old(readers)
      else
        run != [] && |old(current).levels| >= 1 && Flushed(run, old(current), old(nextFile), old(dir))
    }

    /** Flush when the memory account has reached the threshold. */
    method FlushIfFull()
      requires Sound() && state.writer.Applied? && mem.contents != []
      modifies this
      ensures Sound() && CanAcknowledge(state) && MemSmall(mem.contents, Bits())
      ensures old(mem.memUsage) < options.memtableFlushThreshold ==> unchanged(this)
      ensures old(mem.memUsage) >= options.memtableFlushThreshold ==>
        && fresh(mem.Repr()) && fresh(wal) && |old(current.levels)| >= 1
        && Flushed(old(mem.contents), old(current), old(nextFile), old(dir))
      ensures state.history == old(state.history) && InFlight(state.writer) == old(InFlight(state.writer))
      ensures state.compactor == old(state.compactor) && (state.exposed ==> old(state.exposed))
      ensures old(Intact()) ==> Intact()
    {
      hide Steps, Image, TablesUp, AllSmall, AllMeasured, TargetFits, ThresholdFits, MemFits, MemSmall, AllIntact,
        SkipLists.SkipList.Valid, SkipLists.SkipList.Repr, PushL0, FileBytes, Apart, ManifestFormat.ListingBytes;
      EmptyFits(Bits());
      if mem.memUsage >= options.memtableFlushThreshold {
        FlushMemTable();
      } else {
        BelowThreshold(mem, options.memtableFlushThreshold, Bits());
      }
    }

    /** Log, apply, flush when the memtable is full, acknowledge. */
    method Write(op: Op, height: nat)
      requires Valid() && SmallEntry(EntryOf(RecordOf(op))) && 1 <= height <= MAX_LEVEL
      modifies this, wal, mem.Repr()
      ensures Valid() && fresh(Repr() - old(Repr()))
      ensures Wrote(RecordOf(op), height)
      ensures state.history == old(state.history) + [op]
      ensures state.exposed ==> old(state.exposed) || !LogIntact(old(wal.file))
      ensures old(Intact()) ==> Intact()
    {
      hide Steps, Image, TablesUp, StoreSized, SkipLists.SkipList.Valid, Flushed, AllIntact, SmallEntry, MemSmall,
        Upsert, UsageWith, Wal.Frame, Wal.Consumed, SkipLists.SkipList.Repr;
      LogAndApply(op, height);
      UpsertHolds(old(mem.contents), EntryOf(RecordOf(op)));
      FlushIfFull();
      Acknowledged();
    }

    ghost method Acknowledged()
      requires Sound() && CanAcknowledge(state)
      modifies this`past, this`state
      ensures Sound() && state == AfterAcknowledge(old(state))
    {
      hide Steps, Image, StoreSized, AllTablesOk, StoreOf, CacheOk, SkipLists.SkipList.Valid;
      AcknowledgeRun(state);
      Follow([Step.Acknowledge], AfterAcknowledge(state));
    }

    method Put(key: Key, value: Bytes, height: nat)
      requires Valid() && SmallEntry(Entry(key, value, false)) && 1 <= height <= MAX_LEVEL
      modifies this, wal, mem.Repr()
      ensures Valid() && fresh(Repr() - old(Repr()))
      ensures Wrote(RecordOf(Op.Put(key, value)), height)
      ensures state.history == old(state.history) + [Op.Put(key, value)]
      ensures state.exposed ==> old(state.exposed) || !LogIntact(old(wal.file))
      ensures old(Intact()) ==> Intact()
    {
      hide Sound, Repr, MemSmall, Wal.Fits, LogIntact, Intact;
      Write(Op.Put(key, value), height);
    }

    method Delete(key: Key, height: nat)
      requires Valid() && SmallEntry(Entry(key, [], true)) && 1 <= height <= MAX_LEVEL
      modifies this, wal, mem.Repr()
      ensures Valid() && fresh(Repr() - old(Repr()))
      ensures Wrote(RecordOf(Op.Delete(key)), height)
      ensures state.history == old(state.history) + [Op.Delete(key)]
      ensures state.exposed ==> old(state.exposed) || !LogIntact(old(wal.file))
      ensures old(Intact()) ==> Intact()
    {
      hide Sound, Repr, MemSmall, Wal.Fits, LogIntact, Intact;
      Write(Op.Delete(key), height);
    }

    // ---- Compaction ------------------------------------------------------------------------------

    /** The files of the outputs, with the numbers they took. */
    method SaveOutputs(outs: seq<Output>)
      requires OutputsOk(outs, nextFile, hash, Bits())
      modifies this`nextFile, this`dir
      ensures nextFile == old(nextFile) + |outs| && dir == WithBytes(old(dir), outs)
    {
      hide OutputOk;
      var i := 0;
      while i < |outs|
        invariant 0 <= i <= |outs|
        invariant nextFile == old(nextFile) + i && dir == WithBytes(old(dir), outs[..i])
      {
        assert outs[..i + 1][..i] == outs[..i];
        assert FilesOf(outs)[i].number == nextFile;
        dir := dir[nextFile := TableFile(outs[i].bytes, outs[i].file.run)];
        nextFile := nextFile + 1;
        i := i + 1;
      }
      assert outs[..i] == outs;
    }

    /** The readers of the outputs. */
    method OpenOutputs(outs: seq<Output>, ghost first: nat)
      requires OutputsOk(outs, first, hash, Bits()) && this !in CacheRepr()
      requires AllTablesOk(current, readers, written, hash) && CacheOk(cache, StoreOf(readers, written))
      requires forall n :: n in readers ==> n < first
      modifies this`readers, this`written
      ensures AllTablesOk(current, readers, written, hash) && CacheOk(cache, StoreOf(readers, written))
      ensures forall i :: 0 <= i < |outs| ==> InService(readers, written, outs[i].file, hash)
      ensures forall n :: n in readers ==> n < first + |outs|
      ensures old(Intact()) ==> Intact()
    {
      hide AllTablesOk, AllIntact, CacheOk, StoreOf, TableOk, FileOk, FileBytes, ReaderOk, AllReadable, InService;
      var i := 0;
      while i < |outs|
        invariant 0 <= i <= |outs|
        invariant AllTablesOk(current, readers, written, hash) && CacheOk(cache, StoreOf(readers, written))
        invariant forall n :: n in readers ==> n < first + i
        invariant forall j :: 0 <= j < i ==> InService(readers, written, outs[j].file, hash)
        invariant old(Intact()) ==> Intact()
      {
        assert OutputOk(outs[i], hash, Bits()) && FilesOf(outs)[i].number == first + i;
        ghost var before, recorded := readers, written;
        AddReader(outs[i].file.number, outs[i].reader, outs[i].file);
        forall j | 0 <= j <= i ensures InService(readers, written, outs[j].file, hash) {
          ServiceStays(before, recorded, outs[i], outs[j].file, hash);
        }
        i := i + 1;
      }
    }

    /** The new version with its manifest; the input files are deleted. */
    method InstallAndUnlink(c: Compaction, outs: seq<FileMeta>)
      requires c.targetLevel == c.sourceLevel + 1
      modifies this`current, this`manifest, this`dir
      ensures current == Install(old(current), c, outs) && dir == old(dir) - NumbersOf(c.inputs)
      ensures manifest == Some(ManifestFormat.ListingBytes(ListingOf(nextFile, current)))
    {
      hide Install, ManifestFormat.ListingBytes;
      current := Picker.InstallCompaction(current, c, outs);
      var listing := ManifestFormat.Encode(ListingOf(nextFile, current));
      manifest := Some(listing);
      var i := 0;
      while i < |c.inputs|
        invariant 0 <= i <= |c.inputs|
        invariant dir == old(dir) - NumbersOf(c.inputs[..i])
        invariant current == Install(old(current), c, outs)
        invariant manifest == Some(ManifestFormat.ListingBytes(ListingOf(nextFile, current)))
      {
        assert NumbersOf(c.inputs[..i + 1]) == NumbersOf(c.inputs[..i]) + {c.inputs[i].number} by {
          assert c.inputs[..i + 1] == c.inputs[..i] + [c.inputs[i]];
        }
        dir := dir - {c.inputs[i].number};
        i := i + 1;
      }
      assert c.inputs[..i] == c.inputs;
    }

    /** The outputs are written, and neither installed nor dropped. */
    ghost predicate Midway(outs: seq<Output>, first: nat)
      reads this, mem, mem.head, mem.nodes, wal, cache, CacheRepr()
    {
      && Apart() && mem.Valid() && OptionsOk(options)
      && StoreSized(mem.contents, current, options, hash, Bits()) && MemSmall(mem.contents, Bits())
      && Steps(INITIAL, past, state) && state.status.Running? && state.writer.Idle? && state.compactor.Resting?
      && state.mem == mem.contents && state.current == current && state.disk.log == wal.file
      && state.nextFile == first && nextFile == first + |outs|
      && Image(state.disk.(files := WithTables(state.disk.files, FilesOf(outs))), manifest, dir, hash, Bits())
      && AllTablesOk(current, readers, written, hash) && (forall n :: n in readers ==> n < first)
      && CacheOk(cache, StoreOf(readers, written))
      && OutputsOk(outs, first, hash, Bits())
    }

    /** A failed compaction leaves its files behind and nothing else. */
    method GiveUpCompaction(c: Compaction, outs: seq<Output>, ghost first: nat, pending: bool)
      requires Midway(outs, first) && IsPick(current, options, c)
      modifies this`nextFile, this`dir, this`past, this`state
      ensures Valid() && state == AfterAbandon(old(state), FilesOf(outs), pending)
      ensures pending ==> nextFile == old(nextFile) + 1 && dir == old(dir)[old(nextFile) := TableFile([], [])]
      ensures !pending ==> nextFile == old(nextFile) && dir == old(dir)
    {
      hide Steps, Image, StoreSized, MemSmall, AllTablesOk, StoreOf, CacheOk, SkipLists.SkipList.Valid, IsPick,
        WithTables, FileBytes, OutputOk, Consecutive, FileOk, SkipLists.SkipList.Repr;
      ghost var files := WithTables(state.disk.files, FilesOf(outs));
      OutputFilesOk(outs, first, hash, Bits());
      AbandonedRun(state, c, options, FilesOf(outs), pending);
      if pending {
        ImagePartial(state.disk.(files := files), manifest, dir, hash, Bits(), nextFile, TableFile([], []));
        dir := dir[nextFile := TableFile([], [])];
        nextFile := nextFile + 1;
      }
      Follow(AbandonSteps(c, options, FilesOf(outs), pending), AfterAbandon(state, FilesOf(outs), pending));
      assert Apart() && TablesUp() && InStep();
    }

    /** Open the outputs, install them, delete the inputs. */
    method FinishCompaction(c: Compaction, outs: seq<Output>, ghost first: nat)
      requires Midway(outs, first) && IsPick(current, options, c) && IsOutput(c, FilesOf(outs))
      requires CutBySize(FilesOf(outs), options.targetFileSize)
      modifies this`current, this`readers, this`written, this`manifest, this`dir, this`past, this`state
      ensures Valid() && Compacted(old(state), c, state, options.targetFileSize, hash, Bits())
      ensures dir == old(dir) - NumbersOf(c.inputs)
      ensures old(Intact()) ==> Intact()
    {
      hide Steps, Image, MemFits, MemSmall, AllSmall, AllMeasured, Measured, TargetFits, ThresholdFits, AllTablesOk,
        AllIntact, StoreOf, CacheOk, SkipLists.SkipList.Valid, IsPick, WithTables, FileBytes, OutputsOk, Consecutive,
        Install, IsOutput, Installable, ValidVersion, TableOk, FreshNumbers, Inv, ManifestFormat.ListingBytes,
        InService, SkipLists.SkipList.Repr, CutBySize;
      ghost var s := state;
      var files := FilesOf(outs);
      SoundInv();
      ValidCurrent(s);
      PickShape(current, options, c);
      OutputFilesOk(outs, first, hash, Bits());
      OutputsFresh(s.current, files, first);
      CompactionRun(s, c, options, files);
      InstallSmall(mem.contents, current, c, files);
      OutputsMeasured(outs, first, hash, Bits());
      InstallMeasured(current, c, files, hash, Bits());
      CompactionImage(s, c, files, manifest, dir, hash, Bits());
      OpenOutputs(outs, first);
      InstallInService(current, c, files, readers, written, hash);
      InstallAndUnlink(c, files);
      Follow(CompactionSteps(c, options, files), AfterCompaction(s, c, files));
      assert Apart();
      assert TablesUp();
      assert InStep();
    }

    /** What the merge asks of a picked compaction. */
    lemma CompactionReady(c: Compaction)
      requires Valid() && IsPick(current, options, c)
      ensures FilesOk(c.inputs) && InputsSmall(c.inputs) && TargetFits(options.targetFileSize, Bits())
      ensures TablesStand(c.inputs, readers, hash) && (Intact() ==> InputsReadable(c.inputs, readers))
    {
      hide Steps, Image, MemFits, MemSmall, AllSmall, AllMeasured, ThresholdFits, AllTablesOk, AllIntact, StoreOf,
        CacheOk, Inv, SkipLists.SkipList.Valid, SkipLists.SkipList.Repr, IsPick, Installable, ValidVersion, FilesOk,
        InputsSmall, InputsReadable, TablesStand, TargetFits;
      SoundInv();
      ValidCurrent(state);
      PickShape(current, options, c);
      PickSmall(mem.contents, current, c);
      InputsStand(current, c.inputs, readers, written, hash);
      if AllIntact(current, readers) {
        IntactInputs(current, c.inputs, readers);
      }
    }

    /** The outputs are in the directory, and neither installed nor dropped. */
    method StoreOutputs(outs: seq<Output>)
      requires Valid() && OutputsOk(outs, nextFile, hash, Bits())
      modifies this`nextFile, this`dir
      ensures Midway(outs, old(nextFile)) && nextFile == old(nextFile) + |outs|
      ensures AddedFiles(old(dir), dir, old(nextFile), nextFile, {})
    {
      hide Steps, Image, StoreSized, MemSmall, AllTablesOk, StoreOf, CacheOk, SkipLists.SkipList.Valid,
        SkipLists.SkipList.Repr, OutputsOk, WithTables, WithBytes;
      ImageTables(state.disk, manifest, dir, hash, Bits(), outs, nextFile);
      WithBytesKeys(dir, outs, nextFile, hash, Bits());
      SaveOutputs(outs);
    }

    /** Merge the inputs of a picked compaction and install the outputs. It succeeds if and only if every block of every
    input can be read; otherwise the version stays as it is. */
    method DoCompaction(c: Compaction) returns (ok: bool)
      requires Valid() && IsPick(current, options, c)
      modifies this`current, this`nextFile, this`readers, this`written, this`manifest, this`dir, this`past, this`state
      ensures Valid()
      ensures ok == InputsReadable(c.inputs, old(readers))
      ensures ok ==> Compacted(old(state), c, state, options.targetFileSize, hash, Bits())
      ensures nextFile >= old(nextFile)
      ensures AddedFiles(old(dir), dir, old(nextFile), nextFile, if ok then NumbersOf(c.inputs) else {})
      ensures !ok ==> current == old(current) && manifest == old(manifest) && readers == old(readers)
      ensures old(Intact()) ==> ok && Intact()
      ensures state.history == old(state.history) && state.exposed == old(state.exposed)
    {
      hide Midway, Steps, Image, StoreSized, AllTablesOk, StoreOf, CacheOk, SkipLists.SkipList.Valid,
        SkipLists.SkipList.Repr, MemSmall, Intact, OutputsOk, IsPick, IsOutput, CutBySize, FilesOk, InputsSmall,
        InputsReadable, TablesStand, TargetFits, Compacted, AfterAbandon, Consecutive, AddedFiles, NumbersOf;
      CompactionReady(c);
      var outs, pending;
      ok, outs, pending := MergeInputs(c, readers, nextFile, hash, Bits(), options.targetFileSize);
      ghost var first := nextFile;
      StoreOutputs(outs);
      ghost var stored := dir;
      if !ok {
        GiveUpCompaction(c, outs, first, pending);
        AbandonKeeps(old(state), FilesOf(outs), pending);
        UnfinishedFile(old(dir), stored, first, first + |outs|);
        return;
      }
      FinishCompaction(c, outs, first);
      CompactedHistory(old(state), c, state, options.targetFileSize, hash, Bits());
      FilesLost(old(dir), stored, first, nextFile, NumbersOf(c.inputs));
    }

    /** A compaction is needed exactly if L0 is full or the files of a level take more bytes than its budget. */
    lemma NeedIsReal()
      requires Valid()
      ensures Needed(current, options) <==> Due(current, options, hash, Bits())
    {
      hide Steps, Image, MemFits, MemSmall, AllSmall, TargetFits, ThresholdFits, TablesUp, Apart,
        SkipLists.SkipList.Valid, Needed, Due;
      MeasuredNeed(current, options, hash, Bits());
    }

    /** The background thread's work until it rests: compactions until none is needed, or one fails because an input
    cannot be read (the thread would try that one again). Where every block can be read it always settles. What a
    reader sees never changes on the way. */
    method BackgroundLoop() returns (settled: bool)
      requires Valid()
      modifies this`current, this`nextFile, this`readers, this`written, this`manifest, this`dir, this`past, this`state
      ensures Valid() && settled == !Needed(current, options) == !Due(current, options, hash, Bits())
      ensures !settled ==> Stuck(current, options, readers)
      ensures old(Intact()) ==> settled && Intact()
      ensures forall k :: Visible(View(current, k)) == Visible(View(old(current), k))
      ensures state.history == old(state.history) && state.exposed == old(state.exposed)
    {
      hide View, Inv, Needed, IsPick, ValidVersion, Weight, Compacted, InStep, TablesUp, StoreSized, AllIntact,
        MemSmall, SkipLists.SkipList.Valid, InputsReadable, Due;
      while true
        invariant Valid() && (old(Intact()) ==> Intact())
        invariant forall k :: Visible(View(current, k)) == Visible(View(old(current), k))
        invariant state.history == old(state.history) && state.exposed == old(state.exposed)
        decreases Weight(current, options, 0)
      {
        CurrentIsValid();
        NeedIsReal();
        var needs := Picker.NeedsCompaction(current, options);
        if !needs {
          return true;
        }
        var pick := Picker.PickCompaction(current, options);
        ghost var s := state;
        var ok := DoCompaction(pick.value);
        CurrentIsValid();
        NeedIsReal();
        if !ok {
          return false;
        }
        CompactedKeeps(s, options, pick.value, state, options.targetFileSize, hash, Bits());
      }
    }

    /** A store that is stuck stays stuck: however often the thread tries again, every try fails, and version, manifest
    and readers stay as they are. */
    method Retry(turns: nat)
      requires Valid() && Stuck(current, options, readers)
      modifies this`current, this`nextFile, this`readers, this`written, this`manifest, this`dir, this`past, this`state
      ensures Valid() && Stuck(current, options, readers)
      ensures current == old(current) && manifest == old(manifest) && readers == old(readers)
      ensures state.history == old(state.history) && state.exposed == old(state.exposed)
    {
      hide Inv, Needed, IsPick, ValidVersion, Compacted, InStep, TablesUp, StoreSized, AllIntact, MemSmall,
        SkipLists.SkipList.Valid, InputsReadable;
      var i := 0;
      while i < turns
        invariant Valid() && Stuck(current, options, readers)
        invariant current == old(current) && manifest == old(manifest) && readers == old(readers)
        invariant state.history == old(state.history) && state.exposed == old(state.exposed)
      {
        ghost var c :| IsPick(current, options, c) && !InputsReadable(c.inputs, readers);
        CurrentIsValid();
        Picker.PickUnique(current, options, c, c);
        var pick := Picker.PickCompaction(current, options);
        Picker.PickUnique(current, options, c, pick.value);
        var _ := DoCompaction(pick.value);
        i := i + 1;
      }
    }

    // ---- Reads -----------------------------------------------------------------------------------

    /** What the tables are asked with. */
    ghost function Asked(key: Key): Query
      reads this
    {
      Query(readers, hash, key, CapacityOf(cache))
    }

    /** The memtable answers, or else the first table, from newest to oldest, that holds the key and can answer. The
    answer is what the map of the history holds whenever the newest holder can answer, and so always where every block
    can be read. */
    method Get(key: Key) returns (res: LookupResult)
      requires Valid()
      modifies CacheRepr()
      ensures Valid() && fresh(CacheRepr() - old(CacheRepr()))
      ensures res == if Lookup(mem.contents, key).Some? then Result(Lookup(mem.contents, key))
                     else Answer(Tables(current), Asked(key), old(Contents(cache)))
      ensures Lookup(mem.contents, key).Some? || NewestCanAnswer(current, Asked(key), old(Contents(cache))) ==>
        Apply(state.history, key) == if res.Found? then Some(res.value) else None
      ensures Intact() ==> Apply(state.history, key) == if res.Found? then Some(res.value) else None
    {
      hide Lookup, View, AllTablesOk, StoreOf, CacheOk, SkipLists.SkipList.Valid, StoreSized, MemSmall, Image, Steps,
        ValidVersion, Inv, Apply, Answer, Tables, AllIntact, NewestCanAnswer, TablesStand, CacheCovers;
      SoundInv();
      SeesHistory(state, key);
      ghost var q, c := Asked(key), Contents(cache);
      RightIff(current, q, c);
      if AllIntact(current, readers) {
        IntactLookup(current, q, c);
      }
      res := mem.Get(key);
      if res != NotFound {
        return;
      }
      TablesServe(current, readers, written, hash);
      res := GetFromVersion(current, readers, key, hash, cache, StoreOf(readers, written));
    }

    /** A range scan succeeds if and only if every table can be read as far as the range reaches, and so always where
    every block can be read. It then gives, in ascending order, exactly the live pairs of the range in the map of the
    history. */
    method Scan(start: Key, end: Key) returns (ok: bool, out: seq<(Key, Bytes)>)
      requires Valid()
      ensures ok ==> Scans.Ascending(out)
      ensures ok ==>
        forall k, x :: (k, x) in out <==>
          Le(start, k) && (end == [] || Lt(k, end)) && Apply(state.history, k) == Some(x)
      ensures ok == forall f :: f in Tables(current) ==>
        f.number in readers && Scans.Reaches(readers[f.number], BlocksOf(f.run, BLOCK_SIZE), start, end)
      ensures Intact() ==> ok
    {
      hide Lookup, View, AllTablesOk, StoreOf, CacheOk, SkipLists.SkipList.Valid, StoreSized, MemSmall, Image, Steps,
        ValidVersion, Inv, Apply, Tables, Scans.Reaches, Lt, Le, Rank, AllIntact, TablesStand, CacheCovers, BlocksOf;
      SoundInv();
      ValidCurrent(state);
      forall k ensures Seen(mem.contents, current, k) == Apply(state.history, k) {
        SeesHistory(state, k);
      }
      TablesServe(current, readers, written, hash);
      if AllIntact(current, readers) {
        IntactReaches(current, readers, written, hash, start, end);
      }
      ok, out := Scans.ScanRange(mem, current, readers, start, end, hash);
    }
  }

  // ---- What each piece of a write keeps ----------------------------------------------------------

  lemma ImagePartial(d: Disk, manifest: Option<Bytes>, dir: Directory, hash: Key -> Bloom.Hash, bits: nat, n: nat,
                     some: TableFile)
    requires Image(d, manifest, dir, hash, bits)
    ensures Image(d.(files := d.files[n := Partial]), manifest, dir[n := some], hash, bits)
  {
    hide FileBytes;
  }

  lemma ImageComplete(d: Disk, manifest: Option<Bytes>, dir: Directory, hash: Key -> Bloom.Hash, bits: nat, n: nat,
                      run: Run)
    requires Image(d, manifest, dir, hash, bits)
    ensures Image(d.(files := d.files[n := Complete(run)]), manifest,
                  dir[n := TableFile(FileBytes(run, BLOCK_SIZE, hash, bits), run)], hash, bits)
  {
    hide FileBytes;
  }

  lemma ImageManifest(d: Disk, manifest: Option<Bytes>, dir: Directory, hash: Key -> Bloom.Hash, bits: nat,
                      next: nat, v: Version)
    requires Image(d, manifest, dir, hash, bits)
    ensures Image(d.(manifest := Some(Engine.Manifest(next, v))), Some(ManifestFormat.ListingBytes(ListingOf(next, v))),
                  dir, hash, bits)
  {
    hide FileBytes;
  }

  lemma ImageLog(d: Disk, manifest: Option<Bytes>, dir: Directory, hash: Key -> Bloom.Hash, bits: nat, log: Bytes)
    requires Image(d, manifest, dir, hash, bits)
    ensures Image(d.(log := log), manifest, dir, hash, bits)
  {
    hide FileBytes;
  }

  lemma FlushImage(s: State, size: nat, manifest: Option<Bytes>, dir: Directory, hash: Key -> Bloom.Hash, bits: nat)
    requires s.mem != [] && |s.current.levels| >= 1 && Image(s.disk, manifest, dir, hash, bits)
    ensures var t := AfterFlush(s, size);
      Image(t.disk, Some(ManifestFormat.ListingBytes(ListingOf(t.nextFile, t.current))),
            dir[s.nextFile := TableFile(FileBytes(s.mem, BLOCK_SIZE, hash, bits), s.mem)], hash, bits)
  {
    hide FileBytes, ManifestFormat.ListingBytes, Image;
    var t := AfterFlush(s, size);
    ImageLog(s.disk, manifest, dir, hash, bits, []);
    ImageComplete(s.disk.(log := []), manifest, dir, hash, bits, s.nextFile, s.mem);
    ImageManifest(s.disk.(log := [], files := s.disk.files[s.nextFile := Complete(s.mem)]), manifest,
                  dir[s.nextFile := TableFile(FileBytes(s.mem, BLOCK_SIZE, hash, bits), s.mem)], hash, bits,
                  t.nextFile, t.current);
  }

  /** The description of the table a flush writes. */
  ghost function FlushedFile(number: nat, run: Run, hash: Key -> Bloom.Hash, bits: nat): FileMeta
    requires run != []
  {
    FileOf(number, |FileBytes(run, BLOCK_SIZE, hash, bits)|, run)
  }

  /** A flush from here is a run, and manifest, directory and sizes behind it are right. */
  ghost predicate FlushLeads(s: State, o: Options, dir: Directory, hash: Key -> Bloom.Hash, bits: nat)
    requires s.mem != [] && |s.current.levels| >= 1
  {
    var bytes := FileBytes(s.mem, BLOCK_SIZE, hash, bits);
    var t := AfterFlush(s, |bytes|);
    && Steps(s, FlushSteps(|bytes|), t) && StoreSized([], t.current, o, hash, bits)
    && Image(t.disk, Some(ManifestFormat.ListingBytes(ListingOf(t.nextFile, t.current))),
             dir[s.nextFile := TableFile(bytes, s.mem)], hash, bits)
  }

  lemma DownDiskOk(s: State)
    requires Inv(s) && s.status.Down?
    ensures DiskOk(s.disk) && s.writer.Idle? && s.compactor.Resting?
  {
    hide DiskOk, VersionOk, WriterOk, CompactorOk, LogOk, ReadsOk, RecoverableOk;
  }

  /** A version, its readers and a directory are what an engine that is down opens to, the orphans gone. */
  ghost predicate OpenedAs(s: State, v: Version, next: nat, open: Readers, written: Written, manifest: Option<Bytes>,
                           dir: Directory, gone: set<nat>, hash: Key -> Bloom.Hash, bits: nat) {
    && v == DiskVersion(s.disk) && next == RecoveredNext(s.disk) && s.writer.Idle? && s.compactor.Resting?
    && AllTablesOk(v, open, written, hash) && (forall n :: n in open ==> n < next)
    && Image(AfterOpen(s, gone).disk, manifest, dir, hash, bits) && forall n :: n in gone ==> !NumberLive(v, n)
  }

  /** What opening the directory of an engine that is down finds. */
  lemma OpenFacts(s: State, manifest: Option<Bytes>, dir: Directory, v: Version, next: nat, open: Readers,
                  gone: set<nat>,
                  hash: Key -> Bloom.Hash, bits: nat)
    requires Inv(s) && s.status.Down? && Image(s.disk, manifest, dir, hash, bits) && DiskFits(s.disk, hash, bits)
    requires Load(manifest, dir) == Some(Loaded(v, next))
    requires forall n :: n in open <==> NumberLive(v, n)
    requires forall n :: n in open ==> n in dir && OpenTable(dir[n].bytes) == Some(open[n])
    requires forall n :: n in gone ==> !NumberLive(v, n)
    ensures OpenedAs(s, v, next, open, WrittenIn(dir, open), manifest, dir - gone, gone, hash, bits)
    ensures AllIntact(v, open) <==> Undamaged(v, dir, hash, bits)
  {
    hide Image, AllTablesOk, AllIntact, Inv, MemOf, Load, NumberLive, DiskFits, OpenTable, RecoveredNext, TableLoads,
      WrittenIn, Undamaged;
    DownDiskOk(s);
    DiskLoads(s.disk, manifest, dir, hash, bits);
    OpenedTablesOk(v, dir, open, hash, bits);
    ImageUnlinked(s.disk, manifest, dir, hash, bits, gone);
    EngineProof.RecoverKeeps(s);
    OpeningCurrent(AfterRecover(s));
    LiveBelow(v, open, next);
  }

  lemma OpeningCurrent(s: State)
    requires Inv(s) && s.status.Opening?
    ensures forall f :: Live(s.current, f) ==> f.number < s.nextFile
  {
    hide DiskOk, WriterOk, CompactorOk, LogOk, ReadsOk;
  }

  /** The records the files of the readers were written from. */
  ghost function WrittenIn(dir: Directory, readers: Readers): Written {
    map n | n in readers :: if n in dir then dir[n].run else []
  }

  /** Every live file is as it was written. */
  ghost predicate Undamaged(v: Version, dir: Directory, hash: Key -> Bloom.Hash, bits: nat) {
    forall f :: Live(v, f) ==> f.number in dir && Pristine(dir[f.number], hash, bits)
  }

  lemma OpenedTablesOk(v: Version, dir: Directory, readers: Readers, hash: Key -> Bloom.Hash, bits: nat)
    requires forall f :: Live(v, f) ==> TableLoads(f, dir, hash, bits)
    requires forall n :: n in readers <==> NumberLive(v, n)
    requires forall n :: n in readers ==> n in dir && OpenTable(dir[n].bytes) == Some(readers[n])
    ensures AllTablesOk(v, readers, WrittenIn(dir, readers), hash)
    ensures AllIntact(v, readers) <==> Undamaged(v, dir, hash, bits)
  {
    hide OpenTable, StandsFor, AllReadable, DistinctOffsets, Records, Pristine;
    forall f | Live(v, f)
      ensures TableOk(readers, WrittenIn(dir, readers), f, hash) && f.number in readers && f.number in dir
      ensures AllReadable(readers[f.number]) <==> Pristine(dir[f.number], hash, bits)
    {
      assert NumberLive(v, f.number);
      assert TableLoads(f, dir, hash, bits);
    }
  }

  lemma LiveBelow(v: Version, readers: Readers, next: nat)
    requires forall n :: n in readers <==> NumberLive(v, n)
    requires forall f :: Live(v, f) ==> f.number < next
    ensures forall n :: n in readers ==> n < next
  {
    forall n | n in readers ensures n < next {
      var f :| Live(v, f) && f.number == n;
    }
  }

  lemma FreshCache(cache: BlockCache?, store: map<BlockId, Bytes>)
    requires CacheOk(cache, map[])
    ensures CacheOk(cache, store)
  {
    hide BlockCache.Valid, WithinBudget;
  }

  /** The output has a reader that is right and can read every block. */
  ghost predicate InService(readers: Readers, written: Written, f: FileMeta, hash: Key -> Bloom.Hash) {
    TableOk(readers, written, f, hash) && f.number in readers && AllReadable(readers[f.number])
  }

  lemma ServiceStays(readers: Readers, written: Written, o: Output, f: FileMeta, hash: Key -> Bloom.Hash)
    requires o.file.number !in readers && ReaderOk(o.reader, o.file.run, hash) && AllReadable(o.reader)
    requires f == o.file || InService(readers, written, f, hash)
    ensures InService(readers[o.file.number := o.reader], written[o.file.number := o.file.run], f, hash)
  {
    hide ReaderOk, AllReadable;
  }

  lemma InstallInService(v: Version, c: Compaction, outs: seq<FileMeta>, readers: Readers, written: Written,
                      hash: Key -> Bloom.Hash)
    requires ValidVersion(v) && Installable(v, c) && FreshNumbers(v, outs) && c.targetLevel == c.sourceLevel + 1
    requires AllTablesOk(v, readers, written, hash)
    requires forall i :: 0 <= i < |outs| ==> InService(readers, written, outs[i], hash)
    ensures AllTablesOk(Install(v, c, outs), readers, written, hash)
    ensures AllIntact(v, readers) ==> AllIntact(Install(v, c, outs), readers)
  {
    hide Install, Installable, ValidVersion, FreshNumbers, TableOk, AllReadable, AllTablesOk, AllIntact;
    forall o | o in outs ensures InService(readers, written, o, hash) {
    }
    InstallTablesOk(v, c, outs, readers, written, hash);
    if AllIntact(v, readers) {
      InstallIntact(v, c, outs, readers);
    }
  }

  lemma OutputsFresh(v: Version, outs: seq<FileMeta>, first: nat)
    requires Consecutive(outs, first) && forall f :: Live(v, f) ==> f.number < first
    ensures FreshNumbers(v, outs)
  {
  }

  lemma CompactionImage(s: State, c: Compaction, outs: seq<FileMeta>, manifest: Option<Bytes>, dir: Directory,
                        hash: Key -> Bloom.Hash, bits: nat)
    requires c.targetLevel == c.sourceLevel + 1
    requires Image(s.disk.(files := WithTables(s.disk.files, outs)), manifest, dir, hash, bits)
    ensures var t := AfterCompaction(s, c, outs);
      Image(t.disk, Some(ManifestFormat.ListingBytes(ListingOf(t.nextFile, t.current))), dir - NumbersOf(c.inputs),
            hash, bits)
  {
    hide Image, Install, WithTables, ManifestFormat.ListingBytes;
    var d, t := s.disk.(files := WithTables(s.disk.files, outs)), AfterCompaction(s, c, outs);
    ImageUnlinked(d, manifest, dir, hash, bits, NumbersOf(c.inputs));
    ImageManifest(d.(files := d.files - NumbersOf(c.inputs)), manifest, dir - NumbersOf(c.inputs), hash, bits,
                  t.nextFile, t.current);
  }

  lemma PushTablesOk(v: Version, f: FileMeta, readers: Readers, written: Written, hash: Key -> Bloom.Hash)
    requires |v.levels| >= 1 && AllTablesOk(v, readers, written, hash) && TableOk(readers, written, f, hash)
    ensures AllTablesOk(PushL0(v, f), readers, written, hash)
  {
    hide TableOk;
    forall g | Live(PushL0(v, f), g) ensures TableOk(readers, written, g, hash) {
      if g != f {
        assert Live(v, g);
      }
    }
  }

  lemma PushIntact(v: Version, f: FileMeta, readers: Readers)
    requires |v.levels| >= 1 && f.number in readers && AllReadable(readers[f.number])
    ensures AllIntact(v, readers) ==> AllIntact(PushL0(v, f), readers)
  {
    hide AllReadable;
    forall g | AllIntact(v, readers) && Live(PushL0(v, f), g)
      ensures g.number in readers && AllReadable(readers[g.number])
    {
      if g != f {
        assert Live(v, g);
      }
    }
  }

  lemma UpsertHolds(run: Run, e: Entry)
    ensures Upsert(run, e) != []
  {
  }

  lemma SmallRecordFits(op: Op)
    requires SmallEntry(EntryOf(RecordOf(op)))
    ensures Wal.Fits(RecordOf(op))
  {
  }

  lemma MemRecordsSmall(mem: Run, v: Version)
    requires AllSmall(mem, v)
    ensures SmallRun(mem)
  {
    hide SmallEntry;
    forall e | e in mem ensures SmallEntry(e) {
      assert HoldsEntry(mem, v, e);
    }
  }

  lemma UpsertSmall(mem: Run, v: Version, e: Entry)
    requires AllSmall(mem, v) && SmallEntry(e)
    ensures AllSmall(Upsert(mem, e), v)
  {
    hide SmallEntry, Upsert;
    forall x | HoldsEntry(Upsert(mem, e), v, x) ensures SmallEntry(x) {
      if x != e {
        assert HoldsEntry(mem, v, x);
      }
    }
  }

  lemma SmallFits(mem: Run, bits: nat)
    requires MemSmall(mem, bits)
    ensures MemFits(mem, bits)
  {
    hide Bulk;
  }

  /** A compaction is due that cannot be carried out: an input cannot be read. */
  ghost predicate Stuck(v: Version, o: Options, readers: Readers) {
    exists c :: IsPick(v, o, c) && !InputsReadable(c.inputs, readers)
  }

  lemma IntactLookup(v: Version, q: Query, c: seq<Cached>)
    requires AllIntact(v, q.readers)
    ensures NewestCanAnswer(v, q, c)
  {
    hide AllReadable, Tables, NewestCanAnswer, Answer;
    forall f | f in Tables(v) ensures f.number in q.readers && AllReadable(q.readers[f.number]) {
      TablesLive(v, f);
    }
    IntactAnswers(v, q, c);
  }

  lemma IntactReaches(v: Version, readers: Readers, written: Written, hash: Key -> Bloom.Hash, start: Key, end: Key)
    requires AllIntact(v, readers) && AllTablesOk(v, readers, written, hash)
    ensures forall f :: f in Tables(v) ==>
      f.number in readers && Scans.Reaches(readers[f.number], BlocksOf(f.run, BLOCK_SIZE), start, end)
  {
    hide AllReadable, Tables, BlocksOf, Flatten, Serves, DistinctOffsets, SeekLimit;
    forall f | f in Tables(v)
      ensures f.number in readers && Scans.Reaches(readers[f.number], BlocksOf(f.run, BLOCK_SIZE), start, end)
    {
      TablesLive(v, f);
      assert TableOk(readers, written, f, hash);
      ServesSize(readers[f.number], BlocksOf(f.run, BLOCK_SIZE));
      SeekLimitReadable(readers[f.number], BlocksOf(f.run, BLOCK_SIZE), start);
    }
  }

  /** All entries of the memtable, in order, into one table. */
  method WriteMem(mem: SkipLists.SkipList, hash: Key -> Bloom.Hash, bits: nat)
    returns (file: Bytes, size: nat, entries: nat)
    requires mem.Valid()
    ensures file == FileBytes(mem.contents, BLOCK_SIZE, hash, bits) && size == |file| && entries == |mem.contents|
  {
    hide FileBytes, SkipLists.SkipList.Valid, SkipCursor.At, SSTableWriter.Open;
    var w := new SSTableWriter(BLOCK_SIZE, bits, hash);
    var it := new SkipCursor(mem);
    it.SeekToFirst();
    assert mem.contents[..0] == [];
    while it.node != null
      invariant it.At() && it.list == mem && it.pos <= |mem.contents|
      invariant fresh(w) && fresh(w.bloom) && fresh(it)
      invariant w.Open() && w.run == mem.contents[..it.pos] && w.bloom.bitsPerKey == bits
      decreases |mem.contents| - it.pos
    {
      var e := it.Current();
      w.Add(e.key, e.value, e.tombstone);
      assert mem.contents[..it.pos + 1] == mem.contents[..it.pos] + [e];
      it.Next();
      AtBounds(it);
    }
    AtEnd(it);
    w.Finish();
    file, size, entries := w.file, w.offset, w.numEntries;
  }

  lemma MemSorted(mem: SkipLists.SkipList)
    requires mem.Valid()
    ensures Sorted(mem.contents) && (mem.count == 0 <==> mem.contents == [])
  {
  }

  lemma AtBounds(it: SkipCursor)
    requires it.At()
    ensures it.pos <= |it.list.contents|
  {
  }

  lemma AtEnd(it: SkipCursor)
    requires it.At() && it.node == null
    ensures it.list.contents[..it.pos] == it.list.contents
  {
  }

  lemma HasL0(s: State)
    requires Inv(s) && s.status.Running?
    ensures |s.current.levels| >= 1
  {
    hide Wal.Replay, Wal.Consumed, MemOf, WriterOk, CompactorOk, LogOk, ReadsOk;
  }

  /** The lengths of the files of a level, together. */
  ghost function Lengths(files: seq<FileMeta>, hash: Key -> Bloom.Hash, bits: nat): nat {
    if files == [] then 0
    else
      Lengths(files[..|files| - 1], hash, bits)
      + |FileBytes(files[|files| - 1].run, BLOCK_SIZE, hash, bits)|
  }

  /** L0 has reached its trigger, or the files of a level between it and the last take more bytes than the first level's
  target times the multiplier for every level in between, in 64 bits. */
  ghost predicate Due(v: Version, o: Options, hash: Key -> Bloom.Hash, bits: nat) {
    |v.levels| > 0 && (|v.levels[0]| >= o.l0CompactionTrigger || exists l: nat :: LevelDue(v, o, l, hash, bits))
  }

  ghost predicate LevelDue(v: Version, o: Options, l: nat, hash: Key -> Bloom.Hash, bits: nat) {
    && 1 <= l < |v.levels| && l < o.maxLevels - 1 && v.levels[l] != []
    && Lengths(v.levels[l], hash, bits) % TWO_64 > o.l1TargetBytes * Picker.Power(o.levelSizeMultiplier, l - 1) % TWO_64
  }

  lemma {:induction false} MeasuredBytes(files: seq<FileMeta>, hash: Key -> Bloom.Hash, bits: nat)
    requires forall f :: f in files ==> Measured(f, hash, bits)
    ensures Picker.Bytes(files) == Lengths(files, hash, bits)
  {
    hide FileBytes;
    if files != [] {
      MeasuredBytes(files[..|files| - 1], hash, bits);
      assert files[|files| - 1] in files;
    }
  }

  lemma MeasuredNeed(v: Version, o: Options, hash: Key -> Bloom.Hash, bits: nat)
    requires AllMeasured(v, hash, bits)
    ensures Needed(v, o) <==> Due(v, o, hash, bits)
  {
    hide Needed, Lengths, Picker.Bytes, Measured, Picker.Power;
    Picker.NeededIs(v, o);
    forall l: nat ensures LevelDue(v, o, l, hash, bits) <==> Picker.Exceeds(v, o, l) {
      if 1 <= l < |v.levels| {
        forall f | f in v.levels[l] ensures Measured(f, hash, bits) {
          assert Live(v, f);
        }
        MeasuredBytes(v.levels[l], hash, bits);
      }
    }
  }

  /** The outputs are numbered in a row, cut by size, and recorded with the sizes of their files. */
  ghost predicate WrittenOut(outs: seq<FileMeta>, first: nat, target: nat, hash: Key -> Bloom.Hash, bits: nat) {
    Consecutive(outs, first) && CutBySize(outs, target) && forall f :: f in outs ==> Measured(f, hash, bits)
  }

  /** A step from one state to the next by a whole compaction. */
  ghost predicate Compacted(s: State, c: Compaction, t: State, target: nat, hash: Key -> Bloom.Hash, bits: nat) {
    && c.targetLevel == c.sourceLevel + 1
    && exists outs ::
         && IsOutput(c, outs) && FreshNumbers(s.current, outs) && WrittenOut(outs, s.nextFile, target, hash, bits)
         && t == AfterCompaction(s, c, outs)
  }

  /** Where every level below the target is empty, a compaction leaves no tombstone in a table it writes, and a key
  whose newest entry in the inputs is a tombstone is gone from the target level. Otherwise the newest entry is there. */
  lemma CompactedReclaims(s: State, o: Options, c: Compaction, t: State, target: nat, hash: Key -> Bloom.Hash,
                          bits: nat)
    requires ValidVersion(s.current) && OptionsOk(o) && IsPick(s.current, o, c)
    requires Compacted(s, c, t, target, hash, bits)
    ensures c.targetLevel < |t.current.levels|
    ensures forall k :: Newest(RunsIn(c.inputs), k).Some? ==>
      var e := Newest(RunsIn(c.inputs), k).value;
      LevelView(t.current.levels[c.targetLevel], k) ==
        if e.tombstone && Lowest(s.current, c.targetLevel) then None else Some(e)
    ensures Lowest(s.current, c.targetLevel) ==>
      forall f, e :: Live(t.current, f) && !Live(s.current, f) && e in f.run ==> !e.tombstone
  {
    hide ValidVersion, IsPick, IsOutput, FreshNumbers, WrittenOut, Newest, LevelView, Install, Installable, WithTables;
    var outs :|
      && IsOutput(c, outs) && FreshNumbers(s.current, outs) && WrittenOut(outs, s.nextFile, target, hash, bits)
      && t == AfterCompaction(s, c, outs);
    PickIsInstallable(s.current, o, c);
    TargetThere(s.current, c, outs);
    forall k | Newest(RunsIn(c.inputs), k).Some?
      ensures var e := Newest(RunsIn(c.inputs), k).value;
        LevelView(t.current.levels[c.targetLevel], k) ==
          if e.tombstone && Lowest(s.current, c.targetLevel) then None else Some(e)
    {
      CompactedKey(s.current, c, outs, k);
    }
    InstallDropsInputs(s.current, c, outs);
    if Lowest(s.current, c.targetLevel) {
      BottomHasNoTombstones(s.current, c, outs);
    }
  }

  /** The directory has a file for every number given out since, and has lost these; all others are as they were. */
  ghost predicate AddedFiles(before: Directory, after: Directory, first: nat, next: nat, lost: set<nat>) {
    && (forall n :: n in after <==> (n in before || first <= n < next) && n !in lost)
    && (forall n :: n in after && !(first <= n < next) ==> n in before && after[n] == before[n])
  }

  lemma UnfinishedFile(before: Directory, after: Directory, first: nat, next: nat)
    requires first <= next && AddedFiles(before, after, first, next, {})
    ensures AddedFiles(before, after[next := TableFile([], [])], first, next + 1, {})
  {
  }

  lemma FilesLost(before: Directory, after: Directory, first: nat, next: nat, lost: set<nat>)
    requires AddedFiles(before, after, first, next, {})
    ensures AddedFiles(before, after - lost, first, next, lost)
  {
  }

  lemma AbandonKeeps(s: State, outs: seq<FileMeta>, pending: bool)
    ensures var t := AfterAbandon(s, outs, pending);
      t.current == s.current && t.history == s.history && t.exposed == s.exposed
  {
    hide WithTables;
  }

  lemma CompactedHistory(s: State, c: Compaction, t: State, target: nat, hash: Key -> Bloom.Hash, bits: nat)
    requires Compacted(s, c, t, target, hash, bits)
    ensures t.history == s.history && t.exposed == s.exposed
  {
    hide IsOutput, FreshNumbers, WrittenOut, Install, WithTables;
  }

  lemma TargetThere(v: Version, c: Compaction, outs: seq<FileMeta>)
    requires c.targetLevel == c.sourceLevel + 1
    ensures c.targetLevel < |Install(v, c, outs).levels|
  {
    hide Strip, SortBySmallest, NumbersOf;
  }

  /** Every level below this one is empty. */
  ghost predicate Lowest(v: Version, l: nat) {
    forall m :: l < m < |v.levels| ==> v.levels[m] == []
  }

  lemma {:induction false} WithBytesKeys(dir: Directory, outs: seq<Output>, first: nat, hash: Key -> Bloom.Hash,
                                         bits: nat)
    requires OutputsOk(outs, first, hash, bits)
    ensures forall n :: n in WithBytes(dir, outs) <==> n in dir || first <= n < first + |outs|
    ensures forall n :: n in WithBytes(dir, outs) && !(first <= n < first + |outs|) ==>
      WithBytes(dir, outs)[n] == dir[n]
    decreases |outs|
  {
    hide OutputOk;
    if outs != [] {
      var rest := outs[..|outs| - 1];
      FewerOutputs(outs, first, hash, bits);
      WithBytesKeys(dir, rest, first, hash, bits);
      assert FilesOf(outs)[|outs| - 1].number == first + |outs| - 1;
    }
  }

  /** A compaction changes nothing a reader can see, and brings the tree closer to rest. */
  lemma CompactedKeeps(s: State, o: Options, c: Compaction, t: State, target: nat, hash: Key -> Bloom.Hash, bits: nat)
    requires ValidVersion(s.current) && OptionsOk(o) && IsPick(s.current, o, c)
    requires Compacted(s, c, t, target, hash, bits)
    ensures forall k :: Visible(View(t.current, k)) == Visible(View(s.current, k))
    ensures Weight(t.current, o, 0) < Weight(s.current, o, 0)
  {
    hide ValidVersion, IsPick, IsOutput, FreshNumbers, WrittenOut, View, Install, Weight, Installable, WithTables;
    var outs :|
      && IsOutput(c, outs) && FreshNumbers(s.current, outs) && WrittenOut(outs, s.nextFile, target, hash, bits)
      && t == AfterCompaction(s, c, outs);
    CompactionLowersWeight(s.current, o, c, outs);
    PickIsInstallable(s.current, o, c);
    forall k ensures Visible(View(t.current, k)) == Visible(View(s.current, k)) {
      InstallPreservesView(s.current, c, outs, k);
    }
  }

  lemma ValidCurrent(s: State)
    requires Inv(s) && s.status.Running?
    ensures ValidVersion(s.current) && forall f :: Live(s.current, f) ==> f.number < s.nextFile
  {
    hide Wal.Replay, Wal.Consumed, MemOf, WriterOk, CompactorOk, LogOk, ReadsOk, ValidVersion;
  }

  lemma SeesHistory(s: State, k: Key)
    requires Inv(s) && s.status.Running? && s.writer.Idle?
    ensures ValidVersion(s.current)
    ensures Seen(s.mem, s.current, k) == Visible(OrElse(Lookup(s.mem, k), View(s.current, k))) == Apply(s.history, k)
  {
    hide Lookup, View, Apply, ValidVersion, Wal.Replay, Wal.Consumed, MemOf, WriterOk, CompactorOk;
    assert Seen(s.mem, s.current, k) == Apply(InMemory(s), k);
  }
}
