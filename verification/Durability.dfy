/** Whole runs of the engine: what a reader sees, what a crash leaves, and where durability ends. */
module Durability {
  import opened Keys
  import opened Coding
  import opened Runs
  import opened Versions
  import opened CompactionSpec
  import opened Engine
  import opened EngineProof
  import Crc32
  import Wal

  // ---- Runs --------------------------------------------------------------------------------------

  /** The steps can be taken one after the other from s. */
  ghost predicate Trace(s: State, steps: seq<Step>)
    decreases |steps|
  {
    steps == [] || (Enabled(s, steps[0]) && Trace(Do(s, steps[0]), steps[1..]))
  }

  ghost function End(s: State, steps: seq<Step>): State
    requires Trace(s, steps)
    decreases |steps|
  {
    if steps == [] then s else End(Do(s, steps[0]), steps[1..])
  }

  /** The steps lead from s to t. */
  ghost predicate Steps(s: State, steps: seq<Step>, t: State) {
    Trace(s, steps) && End(s, steps) == t
  }

  lemma OneStep(s: State, step: Step, t: State)
    requires Enabled(s, step) && Do(s, step) == t
    ensures Steps(s, [step], t)
  {
    hide Enabled, Do;
    assert [step][1..] == [];
    assert Trace(t, [step][1..]);
    assert End(s, [step]) == End(t, [step][1..]);
  }

  lemma {:induction false} StepsAppend(s: State, a: seq<Step>, t: State, b: seq<Step>, u: State)
    requires Steps(s, a, t) && Steps(t, b, u)
    ensures Steps(s, a + b, u)
    decreases |a|
  {
    hide Enabled, Do;
    if a == [] {
      assert a + b == b;
    } else {
      assert (a + b)[1..] == a[1..] + b;
      StepsAppend(Do(s, a[0]), a[1..], t, b, u);
    }
  }

  // ---- One acknowledged write --------------------------------------------------------------------

  function PutSteps(op: Op): seq<Step> {
    [BeginWrite(op), AppendBytes(|FrameOf(op)|), SyncLog, ApplyToMem, Acknowledge]
  }

  /** The state after a write that does not fill the memtable. */
  function AfterPut(s: State, op: Op): State {
    s.(disk := s.disk.(log := s.disk.log + FrameOf(op)), mem := Upsert(s.mem, EntryOf(RecordOf(op))),
       history := s.history + [op], exposed := s.exposed || !LogIntact(s.disk.log))
  }

  lemma LoggedRun(s: State, op: Op)
    requires CanBeginWrite(s, op)
    ensures Steps(s, [BeginWrite(op), AppendBytes(|FrameOf(op)|), SyncLog],
                  s.(writer := Logged(op), disk := s.disk.(log := s.disk.log + FrameOf(op)),
                     exposed := s.exposed || !LogIntact(s.disk.log)))
  {
    hide Wal.Frame, Wal.Replay, Wal.Consumed, Wal.Fits, NumberLive;
    var n := |FrameOf(op)|;
    var s1 := s.(writer := Appending(op, 0), exposed := s.exposed || !LogIntact(s.disk.log));
    var s2 := s1.(writer := Appending(op, n), disk := s.disk.(log := s.disk.log + FrameOf(op)));
    OneStep(s, BeginWrite(op), s1);
    assert FrameOf(op)[0..n] == FrameOf(op);
    OneStep(s1, AppendBytes(n), s2);
    OneStep(s2, SyncLog, s2.(writer := Logged(op)));
    StepsAppend(s1, [AppendBytes(n)], s2, [SyncLog], s2.(writer := Logged(op)));
    StepsAppend(s, [BeginWrite(op)], s1, [AppendBytes(n)] + [SyncLog], s2.(writer := Logged(op)));
    assert [BeginWrite(op)] + ([AppendBytes(n)] + [SyncLog]) == [BeginWrite(op), AppendBytes(n), SyncLog];
  }

  lemma PutRun(s: State, op: Op)
    requires CanBeginWrite(s, op)
    ensures Steps(s, PutSteps(op), AfterPut(s, op))
  {
    hide Wal.Frame, Wal.Replay, Wal.Consumed, Wal.Fits, NumberLive, Upsert;
    LoggedRun(s, op);
    var s3 := s.(writer := Logged(op), disk := s.disk.(log := s.disk.log + FrameOf(op)),
                 exposed := s.exposed || !LogIntact(s.disk.log));
    var s4 := s3.(writer := Applied(op), mem := Upsert(s.mem, EntryOf(RecordOf(op))));
    OneStep(s3, ApplyToMem, s4);
    OneStep(s4, Acknowledge, AfterPut(s, op));
    StepsAppend(s3, [ApplyToMem], s4, [Acknowledge], AfterPut(s, op));
    StepsAppend(s, [BeginWrite(op), AppendBytes(|FrameOf(op)|), SyncLog], s3, [ApplyToMem] + [Acknowledge],
                AfterPut(s, op));
    assert [BeginWrite(op), AppendBytes(|FrameOf(op)|), SyncLog] + ([ApplyToMem] + [Acknowledge]) == PutSteps(op);
  }

  // ---- The invariant over whole runs -------------------------------------------------------------

  lemma InitialInv()
    ensures Inv(INITIAL)
  {
    hide Wal.ReadOne;
    Wal.ReplayStops([]);
    var v := EMPTY_VERSION;
    assert DiskVersion(INITIAL.disk) == v;
    forall k ensures View(v, k).None? {
      assert Reverse(v.levels[0]) == [];
    }
    assert forall f :: !Live(v, f);
  }

  /** Every step of every thread, and every crash and recovery, keeps the invariant. */
  lemma StepKeepsInv(s: State, step: Step)
    requires Inv(s) && Enabled(s, step)
    ensures Inv(Do(s, step))
  {
    hide Inv, CanCrash, CanRemoveOrphan, CanBeginWrite, CanAppendBytes, CanSyncLog, CanApplyToMem, CanAcknowledge,
      CanFlushAllocate, CanFlushWriteFile, CanFlushInstall, CanFlushTruncate, CanPick, CanOutputAllocate,
      CanOutputFinish, CanInstallOutputs, CanUnlinkInput;
    hide AfterCrash, AfterRecover, AfterRemoveOrphan, AfterBeginWrite, AfterAppendBytes, AfterSyncLog, AfterApplyToMem,
      AfterAcknowledge, AfterFlushAllocate, AfterFlushWriteFile, AfterFlushInstall, AfterFlushTruncate, AfterPick,
      AfterOutputAllocate, AfterOutputFinish, AfterInstallOutputs, AfterUnlinkInput;
    match step
    case Crash(torn) => CrashKeeps(s, torn);
    case Recover => RecoverKeeps(s);
    case RemoveOrphan(n) => RemoveOrphanKeeps(s, n);
    case Opened => OpenedKeeps(s);
    case BeginWrite(op) => BeginWriteKeeps(s, op);
    case AppendBytes(n) => AppendBytesKeeps(s, n);
    case SyncLog => SyncLogKeeps(s);
    case ApplyToMem => ApplyToMemKeeps(s);
    case Acknowledge => AcknowledgeKeeps(s);
    case FlushAllocate => FlushAllocateKeeps(s);
    case FlushWriteFile(size) => FlushWriteFileKeeps(s, size);
    case FlushInstall => FlushInstallKeeps(s);
    case FlushTruncate => FlushTruncateKeeps(s);
    case Pick(c, o) => PickKeeps(s, c, o);
    case OutputAllocate => OutputAllocateKeeps(s);
    case OutputFinish(f) => OutputFinishKeeps(s, f);
    case InstallOutputs => InstallOutputsKeeps(s);
    case AbandonMerge => AbandonMergeKeeps(s);
    case UnlinkInput => UnlinkInputKeeps(s);
  }

  lemma {:induction false} RunKeepsInv(s: State, steps: seq<Step>)
    requires Inv(s) && Trace(s, steps)
    ensures Inv(End(s, steps))
    decreases |steps|
  {
    hide Inv, Enabled, Do;
    if steps != [] {
      StepKeepsInv(s, steps[0]);
      RunKeepsInv(Do(s, steps[0]), steps[1..]);
    }
  }

  // ---- What every run guarantees -----------------------------------------------------------------

  /** An operation that counts once counts on, except past a crash behind a torn tail. */
  lemma StepExtendsHistory(s: State, step: Step)
    requires Enabled(s, step) && !(step.Crash? && s.exposed)
    ensures s.history <= Do(s, step).history
    ensures |Do(s, step).history| <= |s.history| + 1
  {
    hide Rebased;
  }

  /** No crash comes while bytes lie behind a torn tail. */
  ghost predicate Safe(s: State, steps: seq<Step>)
    requires Trace(s, steps)
    decreases |steps|
  {
    steps == [] || (!(steps[0].Crash? && s.exposed) && Safe(Do(s, steps[0]), steps[1..]))
  }

  lemma {:induction false} RunExtendsHistory(s: State, steps: seq<Step>)
    requires Trace(s, steps) && Safe(s, steps)
    ensures s.history <= End(s, steps).history
    decreases |steps|
  {
    hide Enabled, Do;
    if steps != [] {
      StepExtendsHistory(s, steps[0]);
      RunExtendsHistory(Do(s, steps[0]), steps[1..]);
    }
  }

  /** In every running state of every run, a reader sees the map of the history the engine answers for, plus the
  operation in flight once it is in the memtable. */
  lemma ReadersSeeHistory(steps: seq<Step>, k: Key)
    requires Trace(INITIAL, steps) && !End(INITIAL, steps).status.Down?
    ensures var s := End(INITIAL, steps); Seen(s.mem, s.current, k) == Apply(InMemory(s), k)
  {
    hide Seen, Apply, Wal.Frame, Wal.Replay, Wal.Consumed, MemOf;
    InitialInv();
    RunKeepsInv(INITIAL, steps);
  }

  /** After any run, a crash at any moment, tearing the log at any byte of an append in progress, followed by a
  recovery: the engine sees the map of the history it then answers for. Unless bytes lay behind an older torn tail,
  that is every acknowledged operation, and at most the one in flight. */
  lemma RecoveryRestoresHistory(steps: seq<Step>, torn: nat)
    requires Trace(INITIAL, steps) && CanCrash(End(INITIAL, steps), torn)
    ensures var s := End(INITIAL, steps);
      var t := AfterRecover(AfterCrash(s, torn));
      && (forall k :: Seen(t.mem, t.current, k) == Apply(t.history, k))
      && (!s.exposed ==>
            && s.history <= t.history && |t.history| <= |s.history| + 1
            && (s.writer.Logged? || s.writer.Applied? ==> t.history == s.history + [s.writer.op])
            && (s.writer.Idle? ==> t.history == s.history))
  {
    hide Seen, Apply, Wal.Frame, Wal.Replay, Wal.Consumed, Wal.Fits, MemOf, WriterOk, CompactorOk, VersionOk, DiskOk,
      Rebased;
    InitialInv();
    RunKeepsInv(INITIAL, steps);
    var s := End(INITIAL, steps);
    CrashKeeps(s, torn);
    RecoverKeeps(AfterCrash(s, torn));
  }

  /** At every moment of every run, crashes included: the manifest on disk describes a valid version, each of its
  files exists and is complete, and the next number the engine gives out belongs to no live file. */
  lemma TablesAreSafe(steps: seq<Step>)
    requires Trace(INITIAL, steps)
    ensures var s := End(INITIAL, steps);
      && ValidVersion(DiskVersion(s.disk))
      && (forall f :: Live(DiskVersion(s.disk), f) ==> OnDisk(s.disk, f))
      && (!s.status.Down? ==> s.current == DiskVersion(s.disk) && !NumberLive(s.current, s.nextFile))
      && (s.status.Down? ==> !NumberLive(AfterRecover(s).current, AfterRecover(s).nextFile))
  {
    hide Seen, Apply, Wal.Frame, Wal.Replay, Wal.Consumed, MemOf, ValidVersion;
    InitialInv();
    RunKeepsInv(INITIAL, steps);
    var s := End(INITIAL, steps);
    if s.status.Down? {
      RecoverKeeps(s);
    }
  }

  // ---- What stays in the log ---------------------------------------------------------------------

  predicate NoTruncate(steps: seq<Step>) {
    forall i :: 0 <= i < |steps| ==> !steps[i].FlushTruncate?
  }

  /** Until it is truncated the synced part of the log only grows, crashes included. */
  lemma StepGrowsLog(s: State, step: Step)
    requires Inv(s) && Enabled(s, step) && !step.FlushTruncate?
    ensures SyncedLog(s) <= SyncedLog(Do(s, step))
  {
    hide Wal.Frame, Wal.Replay, Wal.Fits, Wal.Consumed, Wal.ReadOne, MemOf, Seen, Apply, CompactorOk, VersionOk, DiskOk,
      LogOk, ReadsOk, Install, PushL0, IsPick, IsOutput, Rebased, NumberLive, RecoveredNext, RecoverableOk;
  }

  lemma {:induction false} RunGrowsLog(s: State, steps: seq<Step>)
    requires Inv(s) && Trace(s, steps) && NoTruncate(steps)
    ensures SyncedLog(s) <= SyncedLog(End(s, steps))
    decreases |steps|
  {
    hide Inv, Enabled, Do, SyncedLog;
    if steps != [] {
      StepGrowsLog(s, steps[0]);
      StepKeepsInv(s, steps[0]);
      RunGrowsLog(Do(s, steps[0]), steps[1..]);
    }
  }

  /** The records that can be replayed at some moment are replayed first by every recovery until the log is truncated,
  whatever lies behind them: torn tails, later writes, and further crashes. */
  lemma ReplayedStays(steps: seq<Step>, more: seq<Step>, torn: nat)
    requires Trace(INITIAL, steps) && Trace(End(INITIAL, steps), more) && NoTruncate(more)
    requires CanCrash(End(End(INITIAL, steps), more), torn)
    ensures var s, t := End(INITIAL, steps), End(End(INITIAL, steps), more);
      Wal.Replay(SyncedLog(s)) <= Wal.Replay(AfterCrash(t, torn).disk.log)
  {
    hide Inv, Enabled, Do, SyncedLog, Trace, End, CanCrash, AfterCrash, Wal.Replay, Wal.Consumed;
    var s, t := End(INITIAL, steps), End(End(INITIAL, steps), more);
    InitialInv();
    RunKeepsInv(INITIAL, steps);
    RunGrowsLog(s, more);
    RunKeepsInv(s, more);
    CrashKeepsSynced(t, torn);
    var base, log := SyncedLog(s), AfterCrash(t, torn).disk.log;
    assert log == base + log[|base|..];
    Wal.ReplayBehind(base, log[|base|..]);
  }

  lemma CrashKeepsSynced(s: State, torn: nat)
    requires Inv(s) && CanCrash(s, torn)
    ensures SyncedLog(s) <= AfterCrash(s, torn).disk.log
  {
    hide CompactorOk, VersionOk, DiskOk, LogOk, ReadsOk, Rebased, Wal.Frame;
  }

  // ---- Where durability ends ---------------------------------------------------------------------

  /** A put, then a crash and a recovery: the map has the put in it. */
  ghost predicate PutSurvives(s: State, op: Op) {
    var t := AfterRecover(AfterCrash(AfterPut(s, op), 0));
    forall k :: Seen(t.mem, t.current, k) == Apply(s.history + [op], k)
  }

  /** In every reachable idle state with nothing behind a torn tail: every put survives a crash right after it if and
  only if the log on disk can be replayed to its end. */
  lemma SurvivesIffIntact(steps: seq<Step>)
    requires Trace(INITIAL, steps)
    requires var s := End(INITIAL, steps); s.status.Running? && s.writer.Idle? && !s.exposed
    ensures var s := End(INITIAL, steps);
      LogIntact(s.disk.log) <==> forall op :: Wal.Fits(RecordOf(op)) ==> PutSurvives(s, op)
  {
    hide Trace, End, LogIntact, PutSurvives, Wal.Fits, Wal.Frame;
    var s := End(INITIAL, steps);
    if LogIntact(s.disk.log) {
      forall op | Wal.Fits(RecordOf(op)) ensures PutSurvives(s, op) {
        IntactPutSurvives(steps, op);
      }
    } else {
      var op := TornPutLost(steps);
    }
  }

  lemma IntactPutSurvives(steps: seq<Step>, op: Op)
    requires Trace(INITIAL, steps) && Wal.Fits(RecordOf(op))
    requires var s := End(INITIAL, steps); s.status.Running? && s.writer.Idle? && !s.exposed && LogIntact(s.disk.log)
    ensures PutSurvives(End(INITIAL, steps), op)
  {
    hide Trace, End, Wal.Fits, Wal.Frame, Wal.Replay, Wal.Consumed, Apply, Seen, MemOf, Upsert, Rebased;
    var s := End(INITIAL, steps);
    PutRun(s, op);
    StepsAppend(INITIAL, steps, s, PutSteps(op), AfterPut(s, op));
    RecoveryRestoresHistory(steps + PutSteps(op), 0);
  }

  /** Behind a torn tail there is a put that does not survive. */
  lemma TornPutLost(steps: seq<Step>) returns (op: Op)
    requires Trace(INITIAL, steps)
    requires var s := End(INITIAL, steps); s.status.Running? && s.writer.Idle? && !s.exposed && !LogIntact(s.disk.log)
    ensures Wal.Fits(RecordOf(op)) && !PutSurvives(End(INITIAL, steps), op)
  {
    hide Trace, End, Wal.Fits, Wal.Frame, Wal.Replay, Wal.ReadOne, Apply, MemOf, Upsert, Rebased, Seen, View, Lookup;
    InitialInv();
    RunKeepsInv(INITIAL, steps);
    var s := End(INITIAL, steps);
    var log := s.disk.log;
    Wal.ReplaySplits(log);
    var tail := log[Wal.Consumed(log)..];
    var before := Apply(s.history, []);
    var x := Wal.LostValue(tail, if before.Some? then before.value else []);
    if before.None? {
      assert before != Some(x);
    }
    op := Put([], x);
    var after := Wal.Replay(tail + FrameOf(op));
    Wal.ReplayBehind(log, FrameOf(op));
    RecoveredNot(Wal.Replay(log), after, s.current, [], x) by {
      assert SyncedLog(s) == log;
      assert Seen(s.mem, s.current, []) == Apply(InMemory(s), []);
    }
    var t := AfterRecover(AfterCrash(AfterPut(s, op), 0));
    assert t.disk.log == log + FrameOf(op);
    assert Seen(t.mem, t.current, []) != Some(x);
    ApplyAppend(s.history, op, []);
  }

  /** A value that no replayed record brings is not seen, if it was not seen before. */
  lemma {:induction false} RecoveredNot(rs: seq<Wal.Record>, more: seq<Wal.Record>, v: Version, k: Key, x: Bytes)
    requires forall r :: r in more ==> r.key != k || r.value != x
    requires Seen(MemOf(rs), v, k) != Some(x)
    ensures Seen(MemOf(rs + more), v, k) != Some(x)
    decreases |more|
  {
    hide Lookup, View, MemOf, Upsert;
    if more == [] {
      assert rs + more == rs;
    } else {
      var rest, r := more[..|more| - 1], more[|more| - 1];
      RecoveredNot(rs, rest, v, k, x);
      assert rs + more == rs + rest + [r];
      MemOfAppend(rs + rest, r);
      MemOfSorted(rs + rest);
      UpsertLookup(MemOf(rs + rest), EntryOf(r), k);
    }
  }

  /** A crash that leaves of an append in progress either nothing or everything. */
  ghost predicate CleanCrash(s: State, step: Step) {
    step.Crash? && s.writer.Appending? ==> step.torn == s.writer.written || Survives(s, step.torn)
  }

  ghost predicate NoTear(s: State, steps: seq<Step>)
    requires Trace(s, steps)
    decreases |steps|
  {
    steps == [] || (CleanCrash(s, steps[0]) && NoTear(Do(s, steps[0]), steps[1..]))
  }

  ghost predicate Untorn(s: State) {
    !s.exposed && LogIntact(SyncedLog(s))
  }

  lemma IntactGrows(base: Bytes, r: Wal.Record)
    requires LogIntact(base) && Wal.Fits(r)
    ensures LogIntact(base + Wal.Frame(r))
  {
    hide Wal.Frame, Wal.Replay, Wal.ReadOne;
    Wal.ReplaySplits(base);
    assert base == Wal.Frames(Wal.Replay(base)) by { assert base[..Wal.Consumed(base)] == base; }
    Wal.ReplayCompose(Wal.Replay(base), Wal.Frame(r));
    assert Wal.Frame(r) + [] == Wal.Frame(r);
    Wal.ReplayFirst(r, []);
  }

  lemma StepKeepsUntorn(s: State, step: Step)
    requires Inv(s) && Enabled(s, step) && CleanCrash(s, step) && Untorn(s)
    ensures Untorn(Do(s, step))
  {
    hide Wal.Frame, Wal.Replay, Wal.Fits, MemOf, Seen, Apply, CompactorOk, VersionOk, DiskOk, LogOk, ReadsOk,
      Wal.ReadOne;
    hide Install, PushL0, IsPick, IsOutput;
    if step.Crash? && s.writer.Appending? {
      var base := SyncedLog(s);
      if Survives(s, step.torn) {
        IntactGrows(base, RecordOf(s.writer.op));
        assert FrameOf(s.writer.op)[..s.writer.written] == FrameOf(s.writer.op);
      }
      assert Do(s, step).disk.log == if Survives(s, step.torn) then base + FrameOf(s.writer.op) else base;
    } else if step.Crash? {
      assert Do(s, step).disk.log == s.disk.log;
    } else if step.SyncLog? {
      IntactGrows(SyncedLog(s), RecordOf(s.writer.op));
      assert FrameOf(s.writer.op)[..s.writer.written] == FrameOf(s.writer.op);
    } else if step.AppendBytes? {
      assert SyncedLog(Do(s, step)) == SyncedLog(s);
    } else if step.BeginWrite? {
      assert SyncedLog(Do(s, step)) == s.disk.log;
    }
  }

  lemma {:induction false} UntornStays(s: State, steps: seq<Step>)
    requires Inv(s) && Untorn(s) && Trace(s, steps) && NoTear(s, steps)
    ensures Untorn(End(s, steps)) && Safe(s, steps)
    decreases |steps|
  {
    hide Inv, Enabled, Do, CleanCrash, LogIntact;
    if steps != [] {
      StepKeepsUntorn(s, steps[0]);
      StepKeepsInv(s, steps[0]);
      UntornStays(Do(s, steps[0]), steps[1..]);
    }
  }

  /** If no crash ever tears a record, then however many crashes there are: every operation that counted at any moment
  of the run counts at its end, readers see the map of all of them, and so does the next recovery. */
  lemma UntornRunsLoseNothing(before: seq<Step>, after: seq<Step>)
    requires Trace(INITIAL, before) && Trace(End(INITIAL, before), after)
    requires NoTear(INITIAL, before) && NoTear(End(INITIAL, before), after)
    ensures var s, t := End(INITIAL, before), End(End(INITIAL, before), after);
      && s.history <= t.history
      && (!t.status.Down? ==> forall k :: Seen(t.mem, t.current, k) == Apply(InMemory(t), k))
      && (t.status.Down? ==> RecoverableOk(t.disk, t.history))
  {
    hide Trace, End, NoTear, Untorn, Safe, Seen, Apply, Wal.Replay, Wal.Consumed, MemOf;
    var s := End(INITIAL, before);
    InitialInv();
    assert Untorn(INITIAL) by { InitiallyUntorn(); }
    UntornStays(INITIAL, before);
    RunKeepsInv(INITIAL, before);
    UntornStays(s, after);
    RunKeepsInv(s, after);
    RunExtendsHistory(s, after);
  }

  lemma InitiallyUntorn()
    ensures Untorn(INITIAL)
  {
    hide Wal.ReadOne;
    Wal.ReplaySplits([]);
  }

  // ---- An acknowledged write that is lost --------------------------------------------------------

  const LOST_OP := Put([], [])

  /** One torn byte in front of a small record: the replay takes the record's own length for part of the length
  field, wants more bytes than there are, and stops. */
  lemma TornByteHidesRecord(b: byte)
    ensures Wal.Replay([b]) == [] && Wal.Consumed([b]) == 0
    ensures Wal.Replay([b] + FrameOf(LOST_OP)) == []
  {
    hide Crc32.Checksum, Wal.Frame, PutFixed, DecodeFixed;
    var r := RecordOf(LOST_OP);
    var s := [b] + Wal.Frame(r);
    SmallFrame(r);
    FourBytes(s[4..8]);
    assert s[4..][..4] == s[4..8];
    assert s[5] == 9 && s[6] == 0 && s[7] == 0;
  }

  lemma SmallFrame(r: Wal.Record)
    requires |r.key| == |r.value| == 0
    ensures |Wal.Frame(r)| == 17
    ensures Wal.Frame(r)[4] == 9 && Wal.Frame(r)[5] == 0 && Wal.Frame(r)[6] == 0
  {
    hide Crc32.Checksum;
    assert PutFixed32(9) == [9, 0, 0, 0];
  }

  /** The engine over an empty database with the given log. */
  function Fresh(status: Status, log: Bytes, history: seq<Op>): State {
    State(status, [], EMPTY_VERSION, 1, Idle, Resting, Disk(log, None, map[]), history, false)
  }

  lemma OpenFresh(log: Bytes, history: seq<Op>)
    requires Wal.Replay(log) == []
    ensures Steps(Fresh(Down, log, history), [Recover, Opened], Fresh(Running, log, history))
  {
    hide Wal.Frame, Wal.Replay, Wal.Consumed, NumberLive;
    var s, t := Fresh(Down, log, history), Fresh(Opening, log, history);
    assert MemOf([]) == [];
    OneStep(s, Recover, t);
    OneStep(t, Opened, Fresh(Running, log, history));
    StepsAppend(s, [Recover], t, [Opened], Fresh(Running, log, history));
    assert [Recover] + [Opened] == [Recover, Opened];
  }

  lemma TearOneByte(op: Op)
    requires Wal.Fits(RecordOf(op))
    ensures Steps(Fresh(Running, [], []), [BeginWrite(op), AppendBytes(1), Crash(0)], Fresh(Down, [FrameOf(op)[0]], []))
  {
    hide Wal.Frame, Wal.Replay, Wal.Consumed, Wal.Fits, NumberLive;
    var s, b := Fresh(Running, [], []), FrameOf(op)[0];
    var s1 := s.(writer := Appending(op, 0));
    var s2 := s.(writer := Appending(op, 1), disk := Disk([b], None, map[]));
    OneStep(s, BeginWrite(op), s1);
    assert [] + FrameOf(op)[0..1] == [b];
    OneStep(s1, AppendBytes(1), s2);
    assert [b][..1] == [b];
    OneStep(s2, Crash(0), Fresh(Down, [b], []));
    StepsAppend(s1, [AppendBytes(1)], s2, [Crash(0)], Fresh(Down, [b], []));
    StepsAppend(s, [BeginWrite(op)], s1, [AppendBytes(1)] + [Crash(0)], Fresh(Down, [b], []));
    assert [BeginWrite(op)] + ([AppendBytes(1)] + [Crash(0)]) == [BeginWrite(op), AppendBytes(1), Crash(0)];
  }

  lemma CrashAndRecover(s: State)
    requires s.status.Running? && s.writer.Idle? && s.compactor.Resting? && s.disk.manifest.None?
    requires Wal.Replay(s.disk.log) == []
    ensures Steps(s, [Crash(0), Recover], AfterRecover(AfterCrash(s, 0)))
    ensures AfterRecover(AfterCrash(s, 0)).mem == [] && AfterRecover(AfterCrash(s, 0)).current == EMPTY_VERSION
  {
    hide Wal.Frame, Wal.Replay, Wal.Consumed, Wal.Fits, NumberLive, Rebased;
    assert s.disk.log[..|s.disk.log|] == s.disk.log;
    var t := AfterCrash(s, 0);
    OneStep(s, Crash(0), t);
    assert MemOf([]) == [];
    OneStep(t, Recover, AfterRecover(t));
    StepsAppend(s, [Crash(0)], t, [Recover], AfterRecover(t));
    assert [Crash(0)] + [Recover] == [Crash(0), Recover];
  }

  /** The law fails behind a torn tail: a run that tears one byte off a first write, recovers and acknowledges a
  write, and a crash and recovery after it that do not see the acknowledged write. */
  lemma AcknowledgedWriteLost() returns (before: seq<Step>, after: seq<Step>)
    ensures Trace(INITIAL, before) && Trace(End(INITIAL, before), after)
    ensures var s, t := End(INITIAL, before), End(End(INITIAL, before), after);
      && s.writer.Idle? && s.history == [LOST_OP] && Apply(s.history, []) == Some([])
      && Seen(t.mem, t.current, []) == None
  {
    hide Wal.Frame, Wal.Replay, Wal.Consumed, Wal.Fits, Trace, End, NumberLive;
    var op, b := LOST_OP, FrameOf(LOST_OP)[0];
    ReplayNothing();
    TornByteHidesRecord(b);
    assert Wal.Fits(RecordOf(op)) by { FitsSmall(); }
    OpenFresh([], []);
    TearOneByte(op);
    OpenFresh([b], []);
    var up := Fresh(Running, [b], []);
    PutRun(up, op);
    CrashAndRecover(AfterPut(up, op));
    var s0, s1, s2 := Fresh(Running, [], []), Fresh(Down, [b], []), AfterPut(up, op);
    assert INITIAL == Fresh(Down, [], []);
    var open := [Recover, Opened];
    StepsAppend(s1, open, up, PutSteps(op), s2);
    var tear := [BeginWrite(op), AppendBytes(1), Crash(0)];
    StepsAppend(s0, tear, s1, open + PutSteps(op), s2);
    StepsAppend(INITIAL, open, s0, tear + (open + PutSteps(op)), s2);
    before, after := open + (tear + (open + PutSteps(op))), [Crash(0), Recover];
    NothingSeen();
  }

  lemma FitsSmall()
    ensures Wal.Fits(RecordOf(LOST_OP))
  {
  }

  lemma NothingSeen()
    ensures Seen([], EMPTY_VERSION, []) == None
  {
    assert Reverse(EMPTY_VERSION.levels[0]) == [];
  }
}
