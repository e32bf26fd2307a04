/** Every step of the engine keeps its invariants; hence whole-run durability. */
module EngineProof {
  import opened Keys
  import opened Runs
  import opened Versions
  import opened CompactionSpec
  import opened CompactionProof
  import opened Engine
  import Wal

  // ---- The memtable and the log ------------------------------------------------------------------

  lemma {:induction false} MemOfSorted(rs: seq<Wal.Record>)
    ensures Sorted(MemOf(rs))
  {
    if rs != [] {
      MemOfSorted(rs[..|rs| - 1]);
      UpsertSorted(MemOf(rs[..|rs| - 1]), EntryOf(rs[|rs| - 1]));
    }
  }

  lemma MemOfAppend(rs: seq<Wal.Record>, r: Wal.Record)
    ensures MemOf(rs + [r]) == Upsert(MemOf(rs), EntryOf(r))
  {
    assert (rs + [r])[..|rs|] == rs;
  }

  lemma ApplyAppend(history: seq<Op>, op: Op, k: Key)
    ensures Apply(history + [op], k) ==
      if op.key == k then (if op.Put? then Some(op.value) else None) else Apply(history, k)
  {
    assert (history + [op])[..|history|] == history;
  }

  /** An applied operation is seen, and nothing else changes. */
  lemma SeenAfterUpsert(mem: Run, v: Version, op: Op, history: seq<Op>)
    requires Sorted(mem) && forall k :: Seen(mem, v, k) == Apply(history, k)
    ensures forall k :: Seen(Upsert(mem, EntryOf(RecordOf(op))), v, k) == Apply(history + [op], k)
  {
    hide View, Upsert, Lookup, Apply;
    forall k ensures Seen(Upsert(mem, EntryOf(RecordOf(op))), v, k) == Apply(history + [op], k) {
      UpsertLookup(mem, EntryOf(RecordOf(op)), k);
      ApplyAppend(history, op, k);
    }
  }

  // ---- What a step leaves alone ------------------------------------------------------------------

  /** Same version, numbers and table files. */
  ghost predicate SameTables(s: State, t: State) {
    && t.current == s.current && t.nextFile == s.nextFile
    && t.disk.manifest == s.disk.manifest && t.disk.files == s.disk.files
  }

  /** A writer step outside a flush touches neither the tables nor the compactor. */
  lemma TablesKept(s: State, t: State)
    requires DiskOk(s.disk) && CompactorOk(s)
    requires SameTables(s, t) && t.compactor == s.compactor
    requires FlushNumber(t.writer) == FlushNumber(s.writer) || FlushNumber(t.writer).None?
    ensures DiskOk(t.disk) && CompactorOk(t)
  {
    hide ValidVersion, Installable, FilesOk, DistinctNumbers, Live;
  }

  // ---- Writer steps ------------------------------------------------------------------------------

  lemma BeginWriteKeeps(s: State, op: Op)
    requires Inv(s) && CanBeginWrite(s, op)
    ensures Inv(AfterBeginWrite(s, op))
  {
    hide Wal.Frame, Wal.Replay, Wal.Consumed, Wal.Fits, MemOf, Seen, Apply, Upsert, DiskOk, CompactorOk;
    var t := AfterBeginWrite(s, op);
    TablesKept(s, t);
    assert t.disk.log[..|t.disk.log| - 0] == t.disk.log;
    assert FrameOf(op)[..0] == [];
  }

  lemma AppendBytesKeeps(s: State, n: nat)
    requires Inv(s) && CanAppendBytes(s, n)
    ensures Inv(AfterAppendBytes(s, n))
  {
    hide Wal.Frame, Wal.Replay, Wal.Consumed, Wal.Fits, MemOf, Seen, Apply, Upsert, DiskOk, CompactorOk;
    var t := AfterAppendBytes(s, n);
    TablesKept(s, t);
    var f, w := FrameOf(s.writer.op), s.writer.written;
    assert f[..w + n] == f[..w] + f[w..w + n];
    assert SyncedLog(t) == SyncedLog(s);
  }

  lemma SyncLogKeeps(s: State)
    requires Inv(s) && CanSyncLog(s)
    ensures Inv(AfterSyncLog(s))
  {
    hide Wal.Frame, Wal.Replay, Wal.Consumed, Wal.Fits, MemOf, Seen, Apply, Upsert, DiskOk, CompactorOk;
    var t := AfterSyncLog(s);
    TablesKept(s, t);
    var base, r := SyncedLog(s), RecordOf(s.writer.op);
    assert s.disk.log == base + Wal.Frame(r);
    if !s.exposed {
      Wal.IntactAppends(base);
      assert Wal.Replay(base + Wal.Frame(r)) == Wal.Replay(base) + [r];
      MemOfAppend(Wal.Replay(base), r);
    }
  }

  lemma ApplyToMemKeeps(s: State)
    requires Inv(s) && CanApplyToMem(s)
    ensures Inv(AfterApplyToMem(s))
  {
    hide Wal.Frame, Wal.Replay, Wal.Consumed, Wal.Fits, MemOf, Seen, Apply, Upsert, DiskOk, CompactorOk;
    TablesKept(s, AfterApplyToMem(s));
    UpsertSorted(s.mem, EntryOf(RecordOf(s.writer.op)));
    SeenAfterUpsert(s.mem, s.current, s.writer.op, s.history);
  }

  lemma AcknowledgeKeeps(s: State)
    requires Inv(s) && CanAcknowledge(s)
    ensures Inv(AfterAcknowledge(s))
  {
    hide Wal.Frame, Wal.Replay, Wal.Consumed, Wal.Fits, MemOf, Seen, Apply, Upsert, DiskOk, CompactorOk;
    TablesKept(s, AfterAcknowledge(s));
  }

  // ---- Flush -------------------------------------------------------------------------------------

  /** A new number names no live file and no file being written; creating its file disturbs neither. */
  lemma NewNumber(s: State, t: State)
    requires DiskOk(s.disk) && VersionOk(s)
    requires t.current == s.current && t.nextFile == s.nextFile + 1 && t.disk.manifest == s.disk.manifest
    requires t.disk.files == s.disk.files[s.nextFile := Partial]
    ensures DiskOk(t.disk)
    ensures Reserved(t, s.nextFile)
    ensures forall n :: Reserved(s, n) ==> Reserved(t, n) && n != s.nextFile
    ensures forall f :: Live(s.current, f) ==> f.number < s.nextFile
    ensures forall f :: OnDisk(s.disk, f) && f.number < s.nextFile ==> OnDisk(t.disk, f)
  {
    hide ValidVersion, Live;
  }

  lemma FlushAllocateKeeps(s: State)
    requires Inv(s) && CanFlushAllocate(s)
    ensures Inv(AfterFlushAllocate(s))
  {
    hide Wal.Frame, Wal.Replay, Wal.Consumed, Wal.Fits, MemOf, Seen, Apply, Upsert, DiskOk;
    hide Reserved, OnDisk, Installable, FilesOk, DistinctNumbers;
    var t := AfterFlushAllocate(s);
    NewNumber(s, t);
    VersionHasL0(s);
    ReservedBelow(s);
  }

  lemma ReservedBelow(s: State)
    ensures forall n: nat :: Reserved(s, n) ==> n < s.nextFile
  {
  }

  lemma VersionHasL0(s: State)
    requires DiskOk(s.disk) && VersionOk(s)
    ensures |s.current.levels| >= 1
    ensures forall f :: f in s.current.levels[0] ==> Live(s.current, f)
  {
  }

  /** Writing a file under a reserved number disturbs no other file. */
  lemma FileWritten(s: State, t: State, n: nat, run: Run)
    requires DiskOk(s.disk) && VersionOk(s) && Reserved(s, n)
    requires SameTables(s, t.(disk := t.disk.(files := s.disk.files)))
    requires t.disk.files == s.disk.files[n := Complete(run)]
    ensures DiskOk(t.disk)
    ensures forall m :: Reserved(s, m) ==> Reserved(t, m)
    ensures forall f :: OnDisk(s.disk, f) && f.number != n ==> OnDisk(t.disk, f)
  {
    hide ValidVersion, Live;
  }

  lemma FlushWriteFileKeeps(s: State, size: nat)
    requires Inv(s) && CanFlushWriteFile(s)
    ensures Inv(AfterFlushWriteFile(s, size))
  {
    hide Wal.Frame, Wal.Replay, Wal.Consumed, Wal.Fits, MemOf, Seen, Apply, Upsert, DiskOk;
    hide Reserved, Installable, FilesOk, DistinctNumbers;
    var t := AfterFlushWriteFile(s, size);
    FileWritten(s, t, s.writer.number, s.mem);
  }

  lemma PushedLive(v: Version, f: FileMeta)
    requires |v.levels| >= 1
    ensures forall g :: Live(PushL0(v, f), g) <==> Live(v, g) || g == f
  {
    var w := PushL0(v, f);
    forall g ensures Live(w, g) <==> Live(v, g) || g == f {
      if Live(w, g) {
        var l :| 0 <= l < |w.levels| && g in w.levels[l];
        assert g != f ==> g in v.levels[l];
      }
      if Live(v, g) {
        var l :| 0 <= l < |v.levels| && g in v.levels[l];
        assert g in w.levels[l];
      }
      assert f in w.levels[0];
    }
  }

  /** The manifest swap of a flush: tables. */
  lemma FlushInstallTables(s: State)
    requires Inv(s) && CanFlushInstall(s)
    ensures var t := AfterFlushInstall(s); DiskOk(t.disk) && VersionOk(t) && CompactorOk(t)
  {
    hide Wal.Frame, Wal.Replay, Wal.Consumed, Wal.Fits, MemOf, Seen, Apply, Upsert, Live, ValidVersion, FileOk, PushL0;
    hide FilesOk, DistinctNumbers, Installable;
    var f := s.writer.file;
    var t := AfterFlushInstall(s);
    PushedLive(s.current, f);
    forall g | Live(s.current, g) ensures g.number != f.number {
      assert !NumberLive(s.current, f.number);
    }
    PushL0Valid(s.current, f);
    forall n | Reserved(s, n) && n != f.number ensures Reserved(t, n) {
    }
    if s.compactor.Merging? {
      PushKeepsInstallable(s.current, s.compactor.c, f);
    }
  }

  lemma FlushInstallReads(s: State)
    requires Inv(s) && CanFlushInstall(s)
    ensures ReadsOk(AfterFlushInstall(s))
  {
    hide Wal.Frame, Wal.Replay, Wal.Consumed, Wal.Fits, MemOf, Apply, Upsert, ValidVersion, FileOk, PushL0, View,
      Lookup;
    hide DiskOk, CompactorOk;
    var t := AfterFlushInstall(s);
    forall k ensures Seen(t.mem, t.current, k) == Seen(s.mem, s.current, k) == Visible(View(t.current, k)) {
      PushL0View(s.current, s.writer.file, k);
    }
  }

  lemma FlushInstallKeeps(s: State)
    requires Inv(s) && CanFlushInstall(s)
    ensures Inv(AfterFlushInstall(s))
  {
    hide Wal.Frame, Wal.Replay, Wal.Consumed, Wal.Fits, MemOf, Seen, Apply, Upsert, DiskOk, CompactorOk, VersionOk,
      PushL0;
    hide ReadsOk;
    FlushInstallTables(s);
    FlushInstallReads(s);
  }

  lemma ReplayNothing()
    ensures Wal.Replay([]) == [] && MemOf([]) == []
  {
    hide Wal.ReadOne;
    Wal.ReplayStops([]);
  }

  lemma FlushTruncateKeeps(s: State)
    requires Inv(s) && CanFlushTruncate(s)
    ensures Inv(AfterFlushTruncate(s))
  {
    hide Wal.Frame, Wal.Replay, Wal.Consumed, Wal.Fits, MemOf, Apply, Upsert, DiskOk, CompactorOk, View;
    var t := AfterFlushTruncate(s);
    TablesKept(s, t);
    ReplayNothing();
    forall k ensures Seen(t.mem, t.current, k) == Visible(View(s.current, k)) {
    }
  }

  // ---- Compaction --------------------------------------------------------------------------------

  lemma PickKeeps(s: State, c: Compaction, o: Options)
    requires Inv(s) && CanPick(s, c, o)
    ensures Inv(AfterPick(s, c))
  {
    hide Wal.Frame, Wal.Replay, Wal.Consumed, Wal.Fits, MemOf, Seen, Apply, Upsert, DiskOk, IsPick, Installable;
    PickIsInstallable(s.current, o, c);
  }

  lemma OutputAllocateKeeps(s: State)
    requires Inv(s) && CanOutputAllocate(s)
    ensures Inv(AfterOutputAllocate(s))
  {
    hide Wal.Frame, Wal.Replay, Wal.Consumed, Wal.Fits, MemOf, Seen, Apply, Upsert, DiskOk;
    hide Reserved, OnDisk, Installable, FilesOk, DistinctNumbers, FileOk;
    NewNumber(s, AfterOutputAllocate(s));
    ReservedBelow(s);
  }

  lemma OutputFinishKeeps(s: State, f: FileMeta)
    requires Inv(s) && CanOutputFinish(s, f)
    ensures Inv(AfterOutputFinish(s, f))
  {
    hide Wal.Frame, Wal.Replay, Wal.Consumed, Wal.Fits, MemOf, Seen, Apply, Upsert, DiskOk;
    hide Reserved, Installable, FileOk;
    FileWritten(s, AfterOutputFinish(s, f), f.number, f.run);
  }

  lemma AbandonMergeKeeps(s: State)
    requires Inv(s) && s.status.Running? && s.compactor.Merging?
    ensures Inv(s.(compactor := Resting))
  {
    hide Wal.Frame, Wal.Replay, Wal.Consumed, Wal.Fits, MemOf, Seen, Apply, Upsert, DiskOk;
  }

  lemma InstallOutputsTables(s: State)
    requires Inv(s) && CanInstallOutputs(s)
    ensures var t := AfterInstallOutputs(s); DiskOk(t.disk) && VersionOk(t) && CompactorOk(t)
    ensures var t := AfterInstallOutputs(s);
      (forall n :: Reserved(s, n) && (forall f :: f in s.compactor.outs ==> f.number != n) ==> Reserved(t, n))
      && (forall g :: g in t.current.levels[0] ==> g in s.current.levels[0])
  {
    hide Wal.Frame, Wal.Replay, Wal.Consumed, Wal.Fits, MemOf, Seen, Apply, Upsert, Live, ValidVersion, FileOk, Install;
    hide FilesOk, Installable, IsOutput;
    var c, outs := s.compactor.c, s.compactor.outs;
    var t := AfterInstallOutputs(s);
    forall o, g | o in outs && Live(s.current, g) ensures o.number != g.number {
      assert !NumberLive(s.current, o.number);
    }
    InstallKeepsValid(s.current, c, outs);
    InstallDropsInputs(s.current, c, outs);
    forall n | Reserved(s, n) && (forall f :: f in outs ==> f.number != n) ensures Reserved(t, n) {
    }
    forall f | f in c.inputs ensures Reserved(t, f.number) && FlushNumber(t.writer) != Some(f.number) {
      assert NumberLive(s.current, f.number);
    }
  }

  lemma InstallOutputsReads(s: State)
    requires Inv(s) && CanInstallOutputs(s)
    ensures ReadsOk(AfterInstallOutputs(s))
  {
    hide Wal.Frame, Wal.Replay, Wal.Consumed, Wal.Fits, MemOf, Apply, Upsert, ValidVersion, FileOk, Install, View,
      Lookup;
    hide IsOutput, Installable;
    var t := AfterInstallOutputs(s);
    forall k ensures Seen(t.mem, t.current, k) == Seen(s.mem, s.current, k)
      ensures Visible(View(t.current, k)) == Visible(View(s.current, k))
    {
      InstallPreservesView(s.current, s.compactor.c, s.compactor.outs, k);
    }
  }

  lemma InstallOutputsKeeps(s: State)
    requires Inv(s) && CanInstallOutputs(s)
    ensures Inv(AfterInstallOutputs(s))
  {
    hide Wal.Frame, Wal.Replay, Wal.Consumed, Wal.Fits, MemOf, Seen, Apply, Upsert, DiskOk, VersionOk, Install,
      IsOutput;
    hide ReadsOk, Reserved;
    InstallOutputsTables(s);
    InstallOutputsReads(s);
  }

  lemma UnlinkInputKeeps(s: State)
    requires Inv(s) && CanUnlinkInput(s)
    ensures Inv(AfterUnlinkInput(s))
  {
    hide Wal.Frame, Wal.Replay, Wal.Consumed, Wal.Fits, MemOf, Seen, Apply, Upsert, ValidVersion, Live, FileOk,
      Installable;
    var t, n := AfterUnlinkInput(s), s.compactor.inputs[0].number;
    assert s.compactor.inputs[0] in s.compactor.inputs;
    assert forall f :: Live(s.current, f) ==> f.number != n;
  }

  // ---- Crash and recovery ------------------------------------------------------------------------

  /** What the log holds after a crash that cut an append short, when everything before it was intact. */
  lemma CrashDuringAppend(base: Bytes, op: Op, n: nat)
    requires LogIntact(base) && Wal.Fits(RecordOf(op)) && n <= |FrameOf(op)|
    ensures Wal.Replay(base + FrameOf(op)[..n]) ==
            if n == |FrameOf(op)| then Wal.Replay(base) + [RecordOf(op)] else Wal.Replay(base)
  {
    hide Wal.Frame, Wal.Replay, Wal.Consumed, Wal.Fits, Wal.ReadOne;
    var p := FrameOf(op)[..n];
    Wal.ReplayBehind(base, p);
    assert base[Wal.Consumed(base)..] + p == p;
    if n < |FrameOf(op)| {
      Wal.TornFrame(RecordOf(op), n);
    } else {
      assert p == FrameOf(op);
      Wal.ReplayFrame(RecordOf(op));
    }
  }

  /** A history followed by the operations of a run: the run's entries on top. */
  lemma {:induction false} OpsOfApply(h: seq<Op>, run: Run, k: Key)
    requires Sorted(run)
    ensures Apply(h + OpsOf(run), k) == if Lookup(run, k).Some? then Visible(Lookup(run, k)) else Apply(h, k)
    decreases |run|
  {
    hide Lt, Le, Rank, Sorted, Lookup;
    if run == [] {
      assert h + [] == h;
      NothingIn(run, k);
    } else {
      var rest, e := run[..|run| - 1], run[|run| - 1];
      assert run == rest + [e];
      LookupLast(rest, e, k);
      OpsOfApply(h, rest, k);
      assert h + OpsOf(run) == h + OpsOf(rest) + [OpOf(e)];
      ApplyAppend(h + OpsOf(rest), OpOf(e), k);
    }
  }

  lemma NothingIn(run: Run, k: Key)
    requires run == []
    ensures Lookup(run, k).None?
  {
  }

  lemma {:induction false} RebaseApply(runs: seq<Run>, k: Key)
    requires forall i :: 0 <= i < |runs| ==> Sorted(runs[i])
    ensures Apply(Rebase(runs), k) == Visible(Newest(runs, k))
    decreases |runs|
  {
    hide Sorted, Lookup;
    if runs != [] {
      RebaseApply(runs[1..], k);
      OpsOfApply(Rebase(runs[1..]), runs[0], k);
    }
  }

  /** The rebased history is exactly what a recovery from the disk will see. */
  lemma RebasedRecovers(d: Disk)
    requires DiskOk(d)
    ensures RecoverableOk(d, Rebased(d))
  {
    hide Wal.Replay, MemOf, Apply, Rebase, View, Lookup, Newest, Tables, ValidVersion, FileOk;
    var mem, v := MemOf(Wal.Replay(d.log)), DiskVersion(d);
    var runs := [mem] + RunsIn(Tables(v));
    MemOfSorted(Wal.Replay(d.log));
    TablesOk(v);
    forall i | 0 <= i < |runs| ensures Sorted(runs[i]) {
      if i > 0 {
        assert Tables(v)[i - 1] in Tables(v);
        FileSorted(Tables(v)[i - 1]);
      }
    }
    forall k ensures Seen(mem, v, k) == Apply(Rebased(d), k) {
      RebaseApply(runs, k);
      SourcesView(mem, v, k);
    }
  }

  lemma FileSorted(f: FileMeta)
    requires FileOk(f)
    ensures Sorted(f.run)
  {
  }

  lemma CrashRecoverable(s: State, torn: nat)
    requires Inv(s) && CanCrash(s, torn) && !s.exposed
    ensures RecoverableOk(AfterCrash(s, torn).disk, AfterCrash(s, torn).history)
  {
    hide Wal.Frame, Wal.Replay, Wal.Consumed, Wal.Fits, MemOf, Seen, Apply, Upsert, CompactorOk, DiskOk;
    var t := AfterCrash(s, torn);
    if s.writer.Appending? {
      var base, op, n := SyncedLog(s), s.writer.op, s.writer.written - torn;
      assert t.disk.log == base + FrameOf(op)[..n];
      CrashDuringAppend(base, op, n);
      if n == |FrameOf(op)| {
        MemOfAppend(Wal.Replay(base), RecordOf(op));
        SeenAfterUpsert(s.mem, s.current, op, s.history);
      }
    } else {
      assert t.disk.log == s.disk.log;
      if s.writer.Logged? {
        SeenAfterUpsert(s.mem, s.current, s.writer.op, s.history);
      }
    }
  }

  lemma CrashKeeps(s: State, torn: nat)
    requires Inv(s) && CanCrash(s, torn)
    ensures Inv(AfterCrash(s, torn))
  {
    hide Wal.Frame, Wal.Replay, Wal.Consumed, Wal.Fits, MemOf, Seen, Apply, Upsert, CompactorOk, ValidVersion;
    if s.exposed {
      RebasedRecovers(AfterCrash(s, torn).disk);
    } else {
      CrashRecoverable(s, torn);
    }
  }

  lemma {:induction false} MaxNumberBound(files: seq<FileMeta>)
    ensures forall f :: f in files ==> f.number <= MaxNumber(files)
  {
    if files != [] {
      MaxNumberBound(files[..|files| - 1]);
    }
  }

  lemma {:induction false} MaxLiveBound(levels: seq<seq<FileMeta>>)
    ensures forall l, f :: 0 <= l < |levels| && f in levels[l] ==> f.number <= MaxLive(levels)
  {
    if levels != [] {
      MaxLiveBound(levels[..|levels| - 1]);
      MaxNumberBound(levels[|levels| - 1]);
    }
  }

  lemma RecoverKeeps(s: State)
    requires Inv(s) && s.status.Down?
    ensures Inv(AfterRecover(s))
  {
    hide Wal.Frame, Wal.Replay, Wal.Consumed, Wal.Fits, MemOf, Seen, Apply, Upsert, ValidVersion;
    MemOfSorted(Wal.Replay(s.disk.log));
    MaxLiveBound(DiskVersion(s.disk).levels);
  }

  lemma RemoveOrphanKeeps(s: State, n: nat)
    requires Inv(s) && CanRemoveOrphan(s, n)
    ensures Inv(AfterRemoveOrphan(s, n))
  {
    hide Wal.Frame, Wal.Replay, Wal.Consumed, Wal.Fits, MemOf, Seen, Apply, Upsert, ValidVersion, Live;
  }

  lemma OpenedKeeps(s: State)
    requires Inv(s) && s.status.Opening?
    ensures Inv(s.(status := Running))
  {
    hide Wal.Frame, Wal.Replay, Wal.Consumed, Wal.Fits, MemOf, Seen, Apply, Upsert, DiskOk;
  }
}
