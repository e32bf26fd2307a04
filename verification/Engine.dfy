/** The engine as a state machine: a writer, a background compactor, a disk, crashes and recoveries, one atomic
step for every piece of code that runs under the engine's mutex or touches the disk. */
module Engine {
  import opened Keys
  import opened Runs
  import opened Versions
  import opened CompactionSpec
  import opened CompactionProof
  import Wal

  datatype Op = Put(key: Key, value: Bytes) | Delete(key: Key)

  function RecordOf(op: Op): Wal.Record {
    match op
    case Put(k, v) => Wal.Record(Wal.KIND_VALUE, k, v)
    case Delete(k) => Wal.Record(Wal.KIND_TOMBSTONE, k, [])
  }

  /** What replaying a log record puts in the memtable; any kind but a tombstone is a value. */
  function EntryOf(r: Wal.Record): Entry {
    if r.kind == Wal.KIND_TOMBSTONE then Entry(r.key, [], true) else Entry(r.key, r.value, false)
  }

  /** The reference: the value of k after a history of operations on an ordinary map. */
  function Apply(history: seq<Op>, k: Key): Option<Bytes> {
    if history == [] then
      None
    else
      var op := history[|history| - 1];
      if op.key == k then (if op.Put? then Some(op.value) else None) else Apply(history[..|history| - 1], k)
  }

  // ---- State -------------------------------------------------------------------------------------

  /** A table file on disk: being written, or finished and synced. */
  datatype FileState = Partial | Complete(run: Run)

  datatype Manifest = Manifest(next: nat, version: Version)

  datatype Disk = Disk(log: Bytes, manifest: Option<Manifest>, files: map<nat, FileState>)

  /** Where the single writer thread is, and the operation it has not acknowledged yet. */
  datatype Writer =
    | Idle
    | Appending(op: Op, written: nat)        // bytes of the frame in the log file, not synced
    | Logged(op: Op)                         // frame synced, memtable not updated
    | Applied(op: Op)
    | FlushAllocated(inflight: Option<Op>, number: nat)
    | FlushWritten(inflight: Option<Op>, file: FileMeta)
    | FlushInstalled(inflight: Option<Op>)   // manifest swapped, log not truncated
    | Finishing(inflight: Option<Op>)

  datatype Compactor =
    | Resting
    | Merging(c: Compaction, outs: seq<FileMeta>, pending: Option<nat>)
    | Unlinking(inputs: seq<FileMeta>)

  datatype Status = Down | Opening | Running

  /** `history` is every operation the engine answers for: the acknowledged ones, and one that was in flight at a
  crash if it reached the disk. `exposed` says that bytes were appended behind a torn tail of the log. A crash then
  may lose operations; the history restarts with what is left on disk. */
  datatype State = State(status: Status, mem: Run, current: Version, nextFile: nat, writer: Writer,
                         compactor: Compactor, disk: Disk, history: seq<Op>, exposed: bool)

  const INITIAL := State(Down, [], EMPTY_VERSION, 1, Idle, Resting, Disk([], None, map[]), [], false)

  // ---- Steps -------------------------------------------------------------------------------------

  datatype Step =
    | BeginWrite(op: Op)
    | AppendBytes(n: nat)
    | SyncLog
    | ApplyToMem
    | Acknowledge
    | FlushAllocate
    | FlushWriteFile(fileSize: nat)
    | FlushInstall
    | FlushTruncate
    | Pick(c: Compaction, o: Options)
    | OutputAllocate
    | OutputFinish(file: FileMeta)
    | InstallOutputs
    | AbandonMerge
    | UnlinkInput
    | Crash(torn: nat)
    | Recover
    | RemoveOrphan(number: nat)
    | Opened

  function FrameOf(op: Op): Bytes {
    Wal.Frame(RecordOf(op))
  }

  /** The log without the unsynced bytes of an append in progress. */
  function SyncedLog(s: State): Bytes {
    if s.writer.Appending? && s.writer.written <= |s.disk.log| then s.disk.log[..|s.disk.log| - s.writer.written]
    else s.disk.log
  }

  predicate LogIntact(log: Bytes) {
    Wal.Consumed(log) == |log|
  }

  function DiskVersion(d: Disk): Version {
    if d.manifest.Some? then d.manifest.value.version else EMPTY_VERSION
  }

  ghost predicate NumberLive(v: Version, n: nat) {
    exists f :: Live(v, f) && f.number == n
  }

  function MaxNumber(files: seq<FileMeta>): nat {
    if files == [] then 0
    else
      var m := MaxNumber(files[..|files| - 1]);
      if m < files[|files| - 1].number then files[|files| - 1].number else m
  }

  function MaxLive(levels: seq<seq<FileMeta>>): nat {
    if levels == [] then 0
    else
      var m := MaxLive(levels[..|levels| - 1]);
      var n := MaxNumber(levels[|levels| - 1]);
      if m < n then n else m
  }

  /** Next file number after loading the manifest: above everything it names. */
  function RecoveredNext(d: Disk): nat {
    if d.manifest.None? then 1
    else
      var above := MaxLive(d.manifest.value.version.levels) + 1;
      if d.manifest.value.next < above then above else d.manifest.value.next
  }

  /** The memtable a sequence of log records builds. */
  function MemOf(rs: seq<Wal.Record>): Run {
    if rs == [] then [] else Upsert(MemOf(rs[..|rs| - 1]), EntryOf(rs[|rs| - 1]))
  }

  function FileOf(number: nat, fileSize: nat, run: Run): FileMeta
    requires run != []
  {
    FileMeta(number, run[0].key, run[|run| - 1].key, fileSize, |run|, run)
  }

  /** The operation in flight that a crash would leave in the log. */
  function InFlight(w: Writer): Option<Op> {
    match w
    case Idle => None
    case Appending(_, _) => None
    case Logged(op) => Some(op)
    case Applied(op) => Some(op)
    case FlushAllocated(o, _) => o
    case FlushWritten(o, _) => o
    case FlushInstalled(o) => o
    case Finishing(o) => o
  }

  function With(history: seq<Op>, o: Option<Op>): seq<Op> {
    if o.Some? then history + [o.value] else history
  }

  predicate Survives(s: State, torn: nat) {
    s.writer.Appending? && torn == 0 && s.writer.written == |FrameOf(s.writer.op)|
  }

  // What each step requires and does, one pair of definitions per step.

  predicate CanCrash(s: State, torn: nat) {
    !s.status.Down? && torn <= if s.writer.Appending? then s.writer.written else 0
  }

  /** Memory is gone, and so is any suffix of the unsynced bytes of an append. */
  function AfterCrash(s: State, torn: nat): State {
    var log := s.disk.log;
    var disk := s.disk.(log := if torn <= |log| then log[..|log| - torn] else []);
    var history := if s.exposed then Rebased(disk)
                   else if Survives(s, torn) then s.history + [s.writer.op]
                   else With(s.history, InFlight(s.writer));
    State(Down, [], EMPTY_VERSION, 1, Idle, Resting, disk, history, false)
  }

  function OpOf(e: Entry): Op {
    if e.tombstone then Delete(e.key) else Put(e.key, e.value)
  }

  function OpsOf(run: Run): seq<Op> {
    if run == [] then [] else OpsOf(run[..|run| - 1]) + [OpOf(run[|run| - 1])]
  }

  /** Operations that make the map a list of runs, newest first, shows. */
  function Rebase(runs: seq<Run>): seq<Op> {
    if runs == [] then [] else Rebase(runs[1..]) + OpsOf(runs[0])
  }

  /** Operations that make the map a recovery will find on this disk. */
  function Rebased(d: Disk): seq<Op> {
    Rebase([MemOf(Wal.Replay(d.log))] + RunsIn(Tables(DiskVersion(d))))
  }

  /** Load the manifest and replay the log. */
  function AfterRecover(s: State): State {
    s.(status := Opening, mem := MemOf(Wal.Replay(s.disk.log)), current := DiskVersion(s.disk),
       nextFile := RecoveredNext(s.disk))
  }

  ghost predicate CanRemoveOrphan(s: State, n: nat) {
    s.status.Opening? && !NumberLive(s.current, n)
  }

  function AfterRemoveOrphan(s: State, n: nat): State {
    s.(disk := s.disk.(files := s.disk.files - {n}))
  }

  predicate CanBeginWrite(s: State, op: Op) {
    s.status.Running? && s.writer.Idle? && Wal.Fits(RecordOf(op))
  }

  /** From here on the log is written to; recovery reopened it at its end, torn or not. */
  function AfterBeginWrite(s: State, op: Op): State {
    s.(writer := Appending(op, 0), exposed := s.exposed || !LogIntact(s.disk.log))
  }

  predicate CanAppendBytes(s: State, n: nat) {
    s.status.Running? && s.writer.Appending? && s.writer.written + n <= |FrameOf(s.writer.op)|
  }

  function AfterAppendBytes(s: State, n: nat): State
    requires CanAppendBytes(s, n)
  {
    var w := s.writer.written;
    s.(writer := Appending(s.writer.op, w + n),
       disk := s.disk.(log := s.disk.log + FrameOf(s.writer.op)[w..w + n]))
  }

  predicate CanSyncLog(s: State) {
    s.status.Running? && s.writer.Appending? && s.writer.written == |FrameOf(s.writer.op)|
  }

  function AfterSyncLog(s: State): State
    requires CanSyncLog(s)
  {
    s.(writer := Logged(s.writer.op))
  }

  predicate CanApplyToMem(s: State) {
    s.status.Running? && s.writer.Logged?
  }

  function AfterApplyToMem(s: State): State
    requires CanApplyToMem(s)
  {
    s.(writer := Applied(s.writer.op), mem := Upsert(s.mem, EntryOf(RecordOf(s.writer.op))))
  }

  predicate CanAcknowledge(s: State) {
    s.status.Running? && (s.writer.Applied? || s.writer.Finishing?)
  }

  function AfterAcknowledge(s: State): State {
    s.(writer := Idle, history := With(s.history, InFlight(s.writer)))
  }

  predicate CanFlushAllocate(s: State) {
    s.status.Running? && (s.writer.Applied? || s.writer.Idle?) && s.mem != []
  }

  function AfterFlushAllocate(s: State): State {
    s.(writer := FlushAllocated(InFlight(s.writer), s.nextFile), nextFile := s.nextFile + 1,
       disk := s.disk.(files := s.disk.files[s.nextFile := Partial]))
  }

  predicate CanFlushWriteFile(s: State) {
    s.status.Running? && s.writer.FlushAllocated? && s.mem != []
  }

  function AfterFlushWriteFile(s: State, size: nat): State
    requires CanFlushWriteFile(s)
  {
    var n := s.writer.number;
    s.(writer := FlushWritten(s.writer.inflight, FileOf(n, size, s.mem)),
       disk := s.disk.(files := s.disk.files[n := Complete(s.mem)]))
  }

  predicate CanFlushInstall(s: State) {
    s.status.Running? && s.writer.FlushWritten? && |s.current.levels| >= 1
  }

  function AfterFlushInstall(s: State): State
    requires CanFlushInstall(s)
  {
    var v := PushL0(s.current, s.writer.file);
    s.(writer := FlushInstalled(s.writer.inflight), current := v,
       disk := s.disk.(manifest := Some(Manifest(s.nextFile, v))))
  }

  predicate CanFlushTruncate(s: State) {
    s.status.Running? && s.writer.FlushInstalled?
  }

  function AfterFlushTruncate(s: State): State
    requires CanFlushTruncate(s)
  {
    s.(writer := Finishing(s.writer.inflight), mem := [], disk := s.disk.(log := []), exposed := false)
  }

  ghost predicate CanPick(s: State, c: Compaction, o: Options) {
    s.status.Running? && s.compactor.Resting? && OptionsOk(o) && IsPick(s.current, o, c)
  }

  function AfterPick(s: State, c: Compaction): State {
    s.(compactor := Merging(c, [], None))
  }

  predicate CanOutputAllocate(s: State) {
    s.status.Running? && s.compactor.Merging? && s.compactor.pending.None?
  }

  function AfterOutputAllocate(s: State): State
    requires CanOutputAllocate(s)
  {
    s.(compactor := s.compactor.(pending := Some(s.nextFile)), nextFile := s.nextFile + 1,
       disk := s.disk.(files := s.disk.files[s.nextFile := Partial]))
  }

  ghost predicate CanOutputFinish(s: State, f: FileMeta) {
    s.status.Running? && s.compactor.Merging? && s.compactor.pending == Some(f.number) && FileOk(f)
  }

  function AfterOutputFinish(s: State, f: FileMeta): State
    requires s.compactor.Merging?
  {
    s.(compactor := Merging(s.compactor.c, s.compactor.outs + [f], None),
       disk := s.disk.(files := s.disk.files[f.number := Complete(f.run)]))
  }

  ghost predicate CanInstallOutputs(s: State) {
    && s.status.Running? && s.compactor.Merging? && s.compactor.pending.None?
    && s.compactor.c.targetLevel == s.compactor.c.sourceLevel + 1
    && IsOutput(s.compactor.c, s.compactor.outs)
  }

  function AfterInstallOutputs(s: State): State
    requires s.compactor.Merging? && s.compactor.c.targetLevel == s.compactor.c.sourceLevel + 1
  {
    var v := Install(s.current, s.compactor.c, s.compactor.outs);
    s.(compactor := Unlinking(s.compactor.c.inputs), current := v,
       disk := s.disk.(manifest := Some(Manifest(s.nextFile, v))))
  }

  predicate CanUnlinkInput(s: State) {
    s.status.Running? && s.compactor.Unlinking? && s.compactor.inputs != []
  }

  function AfterUnlinkInput(s: State): State
    requires CanUnlinkInput(s)
  {
    var rest := s.compactor.inputs[1..];
    s.(compactor := if rest == [] then Resting else Unlinking(rest),
       disk := s.disk.(files := s.disk.files - {s.compactor.inputs[0].number}))
  }

  /** When the code can take a step. */
  ghost predicate Enabled(s: State, step: Step) {
    match step
    case Crash(torn) => CanCrash(s, torn)
    case Recover => s.status.Down?
    case RemoveOrphan(n) => CanRemoveOrphan(s, n)
    case Opened => s.status.Opening?
    case BeginWrite(op) => CanBeginWrite(s, op)
    case AppendBytes(n) => CanAppendBytes(s, n)
    case SyncLog => CanSyncLog(s)
    case ApplyToMem => CanApplyToMem(s)
    case Acknowledge => CanAcknowledge(s)
    case FlushAllocate => CanFlushAllocate(s)
    case FlushWriteFile(_) => CanFlushWriteFile(s)
    case FlushInstall => CanFlushInstall(s)
    case FlushTruncate => CanFlushTruncate(s)
    case Pick(c, o) => CanPick(s, c, o)
    case OutputAllocate => CanOutputAllocate(s)
    case OutputFinish(f) => CanOutputFinish(s, f)
    case InstallOutputs => CanInstallOutputs(s)
    case AbandonMerge => s.status.Running? && s.compactor.Merging?
    case UnlinkInput => CanUnlinkInput(s)
  }

  /** What the step does. */
  ghost function Do(s: State, step: Step): State
    requires Enabled(s, step)
  {
    match step
    case Crash(torn) => AfterCrash(s, torn)
    case Recover => AfterRecover(s)
    case RemoveOrphan(n) => AfterRemoveOrphan(s, n)
    case Opened => s.(status := Running)
    case BeginWrite(op) => AfterBeginWrite(s, op)
    case AppendBytes(n) => AfterAppendBytes(s, n)
    case SyncLog => AfterSyncLog(s)
    case ApplyToMem => AfterApplyToMem(s)
    case Acknowledge => AfterAcknowledge(s)
    case FlushAllocate => AfterFlushAllocate(s)
    case FlushWriteFile(size) => AfterFlushWriteFile(s, size)
    case FlushInstall => AfterFlushInstall(s)
    case FlushTruncate => AfterFlushTruncate(s)
    case Pick(c, _) => AfterPick(s, c)
    case OutputAllocate => AfterOutputAllocate(s)
    case OutputFinish(f) => AfterOutputFinish(s, f)
    case InstallOutputs => AfterInstallOutputs(s)
    case AbandonMerge => s.(compactor := Resting)
    case UnlinkInput => AfterUnlinkInput(s)
  }

  // ---- Invariants --------------------------------------------------------------------------------

  ghost predicate OnDisk(d: Disk, f: FileMeta) {
    f.number in d.files && d.files[f.number] == Complete(f.run)
  }

  /** The manifest names only finished files that exist, with unique numbers below its next number. */
  ghost predicate DiskOk(d: Disk) {
    && ValidVersion(DiskVersion(d))
    && (forall f :: Live(DiskVersion(d), f) ==> OnDisk(d, f))
  }

  ghost predicate VersionOk(s: State) {
    && s.current == DiskVersion(s.disk)
    && Sorted(s.mem)
    && forall f :: Live(s.current, f) ==> f.number < s.nextFile
  }

  function FlushNumber(w: Writer): Option<nat> {
    if w.FlushAllocated? then Some(w.number) else if w.FlushWritten? then Some(w.file.number) else None
  }

  /** A number given out but not in the version: no live file has it, and no other file being written. */
  ghost predicate Reserved(s: State, n: nat) {
    n < s.nextFile && !NumberLive(s.current, n)
  }

  ghost predicate WriterOk(s: State) {
    && (s.writer.Appending? ==>
          && Wal.Fits(RecordOf(s.writer.op))
          && s.writer.written <= |FrameOf(s.writer.op)|
          && s.writer.written <= |s.disk.log|
          && s.disk.log == SyncedLog(s) + FrameOf(s.writer.op)[..s.writer.written])
    && (s.writer.Logged? ==> Wal.Fits(RecordOf(s.writer.op)))
    && (FlushNumber(s.writer).Some? ==>
          && Reserved(s, FlushNumber(s.writer).value)
          && |s.current.levels| >= 1
          && forall f :: f in s.current.levels[0] ==> f.number < FlushNumber(s.writer).value)
    && (s.writer.FlushWritten? ==> FileOk(s.writer.file) && s.writer.file.run == s.mem && OnDisk(s.disk, s.writer.file))
  }

  ghost predicate CompactorOk(s: State) {
    match s.compactor
    case Resting => true
    case Merging(c, outs, pending) =>
      && Installable(s.current, c)
      && FilesOk(outs) && DistinctNumbers(outs)
      && (forall f :: f in outs ==>
            Reserved(s, f.number) && FlushNumber(s.writer) != Some(f.number) && OnDisk(s.disk, f))
      && (pending.Some? ==>
            && Reserved(s, pending.value) && FlushNumber(s.writer) != pending
            && forall f :: f in outs ==> f.number != pending.value)
    case Unlinking(inputs) =>
      forall f :: f in inputs ==> Reserved(s, f.number) && FlushNumber(s.writer) != Some(f.number)
  }

  /** The memtable with the operation that is logged but not applied. */
  function MemAfter(s: State): Run {
    if s.writer.Logged? then Upsert(s.mem, EntryOf(RecordOf(s.writer.op))) else s.mem
  }

  /** The operations a reader sees the effect of. */
  function InMemory(s: State): seq<Op> {
    if s.writer.Logged? then s.history else With(s.history, InFlight(s.writer))
  }

  /** The log agrees with the memtable, unless the engine is exposed. */
  ghost predicate LogOk(s: State) {
    !s.exposed ==>
      && MemOf(Wal.Replay(SyncedLog(s))) == MemAfter(s)
      && (s.writer.Appending? ==> LogIntact(SyncedLog(s)))
  }

  ghost predicate ReadsOk(s: State) {
    && (forall k :: Seen(s.mem, s.current, k) == Apply(InMemory(s), k))
    && (s.writer.FlushInstalled? ==> forall k :: Visible(View(s.current, k)) == Seen(s.mem, s.current, k))
  }

  ghost predicate RecoverableOk(d: Disk, history: seq<Op>) {
    forall k :: Seen(MemOf(Wal.Replay(d.log)), DiskVersion(d), k) == Apply(history, k)
  }

  ghost predicate Inv(s: State) {
    && DiskOk(s.disk)
    && (s.status.Down? ==> s.writer.Idle? && s.compactor.Resting? && !s.exposed && RecoverableOk(s.disk, s.history))
    && (!s.status.Down? ==>
          && VersionOk(s) && WriterOk(s) && CompactorOk(s)
          && LogOk(s) && ReadsOk(s))
    && (s.status.Opening? ==> s.writer.Idle? && s.compactor.Resting?)
  }
}
