/** Whole operations as runs of the state machine: a write, a flush, a compaction, a recovery. */
module EngineRuns {
  import opened Runs
  import opened Versions
  import opened CompactionSpec
  import opened Engine
  import opened Durability
  import Wal

  // ---- Write -------------------------------------------------------------------------------------

  /** The write is in the log and in the memtable, and not acknowledged. */
  function AfterWrite(s: State, op: Op): State {
    s.(disk := s.disk.(log := s.disk.log + FrameOf(op)), mem := Upsert(s.mem, EntryOf(RecordOf(op))),
       writer := Applied(op), exposed := s.exposed || !LogIntact(s.disk.log))
  }

  lemma WriteRun(s: State, op: Op)
    requires CanBeginWrite(s, op)
    ensures Steps(s, PutSteps(op)[..4], AfterWrite(s, op))
  {
    hide Wal.Frame, Wal.Replay, Wal.Consumed, Wal.Fits, NumberLive, Upsert, Trace, End;
    LoggedRun(s, op);
    var s3 := s.(writer := Logged(op), disk := s.disk.(log := s.disk.log + FrameOf(op)),
                 exposed := s.exposed || !LogIntact(s.disk.log));
    OneStep(s3, ApplyToMem, AfterWrite(s, op));
    var logged := [BeginWrite(op), AppendBytes(|FrameOf(op)|), SyncLog];
    StepsAppend(s, logged, s3, [ApplyToMem], AfterWrite(s, op));
    assert logged + [ApplyToMem] == PutSteps(op)[..4];
  }

  lemma AcknowledgeRun(s: State)
    requires CanAcknowledge(s)
    ensures Steps(s, [Acknowledge], s.(writer := Idle, history := With(s.history, InFlight(s.writer))))
  {
    hide Trace, End;
    OneStep(s, Acknowledge, s.(writer := Idle, history := With(s.history, InFlight(s.writer))));
  }

  // ---- Flush -------------------------------------------------------------------------------------

  function FlushSteps(size: nat): seq<Step> {
    [FlushAllocate, FlushWriteFile(size), FlushInstall, FlushTruncate]
  }

  /** The memtable is a table of L0, and the log is empty. */
  function AfterFlush(s: State, size: nat): State
    requires s.mem != [] && |s.current.levels| >= 1
  {
    var v := PushL0(s.current, FileOf(s.nextFile, size, s.mem));
    s.(writer := Finishing(InFlight(s.writer)), nextFile := s.nextFile + 1, mem := [], current := v, exposed := false,
       disk := Disk([], Some(Manifest(s.nextFile + 1, v)), s.disk.files[s.nextFile := Complete(s.mem)]))
  }

  lemma FlushRun(s: State, size: nat)
    requires CanFlushAllocate(s) && |s.current.levels| >= 1
    ensures Steps(s, FlushSteps(size), AfterFlush(s, size))
  {
    hide Trace, End, Wal.Consumed, PushL0, NumberLive;
    var n, o, f := s.nextFile, InFlight(s.writer), FileOf(s.nextFile, size, s.mem);
    var v := PushL0(s.current, f);
    var s1 := s.(writer := FlushAllocated(o, n), nextFile := n + 1,
                 disk := s.disk.(files := s.disk.files[n := Partial]));
    var s2 := s1.(writer := FlushWritten(o, f), disk := s.disk.(files := s.disk.files[n := Complete(s.mem)]));
    var s3 := s2.(writer := FlushInstalled(o), current := v, disk := s2.disk.(manifest := Some(Manifest(n + 1, v))));
    OneStep(s, FlushAllocate, s1);
    assert s.disk.files[n := Partial][n := Complete(s.mem)] == s.disk.files[n := Complete(s.mem)];
    OneStep(s1, FlushWriteFile(size), s2);
    OneStep(s2, FlushInstall, s3);
    OneStep(s3, FlushTruncate, AfterFlush(s, size));
    StepsAppend(s, [FlushAllocate], s1, [FlushWriteFile(size)], s2);
    StepsAppend(s, [FlushAllocate] + [FlushWriteFile(size)], s2, [FlushInstall], s3);
    StepsAppend(s, [FlushAllocate] + [FlushWriteFile(size)] + [FlushInstall], s3, [FlushTruncate], AfterFlush(s, size));
    assert [FlushAllocate] + [FlushWriteFile(size)] + [FlushInstall] + [FlushTruncate] == FlushSteps(size);
  }

  // ---- Compaction --------------------------------------------------------------------------------

  /** The files of a directory with these tables finished. */
  function WithTables(files: map<nat, FileState>, outs: seq<FileMeta>): map<nat, FileState> {
    if outs == [] then files
    else WithTables(files, outs[..|outs| - 1])[outs[|outs| - 1].number := Complete(outs[|outs| - 1].run)]
  }

  function OutputSteps(outs: seq<FileMeta>): seq<Step> {
    if outs == [] then [] else OutputSteps(outs[..|outs| - 1]) + [OutputAllocate, OutputFinish(outs[|outs| - 1])]
  }

  /** Numbers are given out one after the other. */
  predicate Consecutive(outs: seq<FileMeta>, first: nat) {
    forall i :: 0 <= i < |outs| ==> outs[i].number == first + i
  }

  function AfterOutputs(s: State, c: Compaction, outs: seq<FileMeta>): State {
    s.(compactor := Merging(c, outs, None), nextFile := s.nextFile + |outs|,
       disk := s.disk.(files := WithTables(s.disk.files, outs)))
  }

  /** One output: its number given out, its file finished. */
  lemma OutputRun(s: State, c: Compaction, outs: seq<FileMeta>, f: FileMeta)
    requires s.status.Running? && s.compactor == Merging(c, outs, None) && FileOk(f) && f.number == s.nextFile
    ensures Steps(s, [OutputAllocate, OutputFinish(f)],
                  s.(compactor := Merging(c, outs + [f], None), nextFile := s.nextFile + 1,
                     disk := s.disk.(files := s.disk.files[f.number := Complete(f.run)])))
  {
    hide Trace, End, NumberLive, FileOk;
    var n, files := s.nextFile, s.disk.files;
    var s1 := s.(compactor := Merging(c, outs, Some(n)), nextFile := n + 1,
                 disk := s.disk.(files := files[n := Partial]));
    OneStep(s, OutputAllocate, s1);
    assert s1.disk.files[n := Complete(f.run)] == files[n := Complete(f.run)];
    var s2 := s1.(compactor := Merging(c, outs + [f], None), disk := s.disk.(files := files[n := Complete(f.run)]));
    OneStep(s1, OutputFinish(f), s2);
    StepsAppend(s, [OutputAllocate], s1, [OutputFinish(f)], s2);
    assert [OutputAllocate] + [OutputFinish(f)] == [OutputAllocate, OutputFinish(f)];
  }

  lemma {:induction false} OutputsRun(s: State, c: Compaction, outs: seq<FileMeta>)
    requires s.status.Running? && s.compactor == Merging(c, [], None)
    requires FilesOk(outs) && Consecutive(outs, s.nextFile)
    ensures Steps(s, OutputSteps(outs), AfterOutputs(s, c, outs))
    decreases |outs|
  {
    hide Steps, FileOk;
    if outs == [] {
      NoSteps(s);
    } else {
      var rest, f := outs[..|outs| - 1], outs[|outs| - 1];
      OutputsRun(s, c, rest);
      OutputRun(AfterOutputs(s, c, rest), c, rest, f);
      assert rest + [f] == outs;
      StepsAppend(s, OutputSteps(rest), AfterOutputs(s, c, rest), [OutputAllocate, OutputFinish(f)],
                  AfterOutputs(s, c, outs));
    }
  }

  lemma NoSteps(s: State)
    ensures Steps(s, [], s)
  {
    hide Enabled, Do;
  }

  function UnlinkSteps(n: nat): seq<Step> {
    seq(n, _ => UnlinkInput)
  }

  lemma {:induction false} UnlinkRun(s: State, inputs: seq<FileMeta>)
    requires s.status.Running? && s.compactor == Unlinking(inputs) && inputs != []
    ensures Steps(s, UnlinkSteps(|inputs|),
                  s.(compactor := Resting, disk := s.disk.(files := s.disk.files - NumbersOf(inputs))))
    decreases |inputs|
  {
    hide Trace, End, NumberLive;
    var rest, n := inputs[1..], inputs[0].number;
    var s1 := s.(compactor := if rest == [] then Resting else Unlinking(rest),
                 disk := s.disk.(files := s.disk.files - {n}));
    var t := s.(compactor := Resting, disk := s.disk.(files := s.disk.files - NumbersOf(inputs)));
    OneStep(s, UnlinkInput, s1);
    assert NumbersOf(inputs) == {n} + NumbersOf(rest) by {
      assert inputs == [inputs[0]] + rest;
    }
    assert s.disk.files - {n} - NumbersOf(rest) == s.disk.files - NumbersOf(inputs);
    if rest == [] {
      assert NumbersOf(rest) == {};
      assert s1 == t;
      assert UnlinkSteps(1) == [UnlinkInput];
    } else {
      UnlinkRun(s1, rest);
      StepsAppend(s, [UnlinkInput], s1, UnlinkSteps(|rest|), t);
      assert [UnlinkInput] + UnlinkSteps(|rest|) == UnlinkSteps(|inputs|);
    }
  }

  function CompactionSteps(c: Compaction, o: Options, outs: seq<FileMeta>): seq<Step> {
    [Pick(c, o)] + OutputSteps(outs) + [InstallOutputs] + UnlinkSteps(|c.inputs|)
  }

  /** The outputs are installed and the inputs are gone. */
  function AfterCompaction(s: State, c: Compaction, outs: seq<FileMeta>): State
    requires c.targetLevel == c.sourceLevel + 1
  {
    var v := Install(s.current, c, outs);
    s.(current := v, nextFile := s.nextFile + |outs|,
       disk := s.disk.(manifest := Some(Manifest(s.nextFile + |outs|, v)),
                       files := WithTables(s.disk.files, outs) - NumbersOf(c.inputs)))
  }

  lemma CompactionRun(s: State, c: Compaction, o: Options, outs: seq<FileMeta>)
    requires CanPick(s, c, o) && IsOutput(c, outs) && Consecutive(outs, s.nextFile)
    requires c.targetLevel == c.sourceLevel + 1 && c.inputs != []
    ensures Steps(s, CompactionSteps(c, o, outs), AfterCompaction(s, c, outs))
  {
    hide Trace, End, NumberLive, IsPick, Install, WithTables, Consecutive;
    var s1 := s.(compactor := Merging(c, [], None));
    OneStep(s, Pick(c, o), s1);
    OutputsRun(s1, c, outs);
    var s2 := AfterOutputs(s1, c, outs);
    var v := Install(s.current, c, outs);
    var s3 := s2.(compactor := Unlinking(c.inputs), current := v,
                  disk := s2.disk.(manifest := Some(Manifest(s2.nextFile, v))));
    OneStep(s2, InstallOutputs, s3);
    UnlinkRun(s3, c.inputs);
    assert s3.(compactor := Resting, disk := s3.disk.(files := s3.disk.files - NumbersOf(c.inputs)))
        == AfterCompaction(s, c, outs);
    StepsAppend(s, [Pick(c, o)], s1, OutputSteps(outs), s2);
    StepsAppend(s, [Pick(c, o)] + OutputSteps(outs), s2, [InstallOutputs], s3);
    StepsAppend(s, [Pick(c, o)] + OutputSteps(outs) + [InstallOutputs], s3, UnlinkSteps(|c.inputs|),
                AfterCompaction(s, c, outs));
  }

  /** A compaction that fails has given out numbers and left files behind that no version names: its finished
  outputs, and perhaps one that was being written. */
  function AfterAbandon(s: State, outs: seq<FileMeta>, pending: bool): State {
    var files, n := WithTables(s.disk.files, outs), s.nextFile + |outs|;
    if pending then s.(nextFile := n + 1, disk := s.disk.(files := files[n := Partial]))
    else s.(nextFile := n, disk := s.disk.(files := files))
  }

  function AbandonSteps(c: Compaction, o: Options, outs: seq<FileMeta>, pending: bool): seq<Step> {
    [Pick(c, o)] + OutputSteps(outs) + (if pending then [OutputAllocate, AbandonMerge] else [AbandonMerge])
  }

  lemma AbandonedRun(s: State, c: Compaction, o: Options, outs: seq<FileMeta>, pending: bool)
    requires CanPick(s, c, o) && FilesOk(outs) && Consecutive(outs, s.nextFile)
    ensures Steps(s, AbandonSteps(c, o, outs, pending), AfterAbandon(s, outs, pending))
  {
    hide Trace, End, NumberLive, IsPick, WithTables, Consecutive, FilesOk;
    var s1 := s.(compactor := Merging(c, [], None));
    OneStep(s, Pick(c, o), s1);
    OutputsRun(s1, c, outs);
    var s2 := AfterOutputs(s1, c, outs);
    StepsAppend(s, [Pick(c, o)], s1, OutputSteps(outs), s2);
    GiveUp(s2, c, outs, pending);
    assert AfterAbandon(s, outs, pending).compactor == Resting;
    StepsAppend(s, [Pick(c, o)] + OutputSteps(outs), s2,
                if pending then [OutputAllocate, AbandonMerge] else [AbandonMerge], AfterAbandon(s, outs, pending));
  }

  lemma GiveUp(s: State, c: Compaction, outs: seq<FileMeta>, pending: bool)
    requires s.status.Running? && s.compactor == Merging(c, outs, None)
    ensures var files, n := s.disk.files, s.nextFile;
      Steps(s, if pending then [OutputAllocate, AbandonMerge] else [AbandonMerge],
            if pending then s.(compactor := Resting, nextFile := n + 1, disk := s.disk.(files := files[n := Partial]))
            else s.(compactor := Resting))
  {
    hide Trace, End, NumberLive;
    if pending {
      var s1 := s.(compactor := Merging(c, outs, Some(s.nextFile)), nextFile := s.nextFile + 1,
                   disk := s.disk.(files := s.disk.files[s.nextFile := Partial]));
      OneStep(s, OutputAllocate, s1);
      OneStep(s1, AbandonMerge, s1.(compactor := Resting));
      StepsAppend(s, [OutputAllocate], s1, [AbandonMerge], s1.(compactor := Resting));
      assert [OutputAllocate] + [AbandonMerge] == [OutputAllocate, AbandonMerge];
    } else {
      OneStep(s, AbandonMerge, s.(compactor := Resting));
    }
  }
}
