/** Carrying out a compaction: the merge of the inputs, cut into new tables. */
module Compacting {
  import opened Keys
  import opened Runs
  import opened Merge
  import opened Versions
  import opened CompactionSpec
  import opened CompactionProof
  import opened TableFormat
  import opened TableWriter
  import opened TableReader
  import opened TableGet
  import opened TableFiles
  import opened TableIterator
  import opened Merging
  import opened Scan
  import opened Stored
  import opened Room
  import opened EngineRuns
  import Bloom

  /** A finished output: what the version will say about it, its reader, and its file. */
  datatype Output = Output(file: FileMeta, reader: Reader, bytes: Bytes)

  function FilesOf(outs: seq<Output>): (files: seq<FileMeta>)
    ensures |files| == |outs|
    ensures forall i :: 0 <= i < |outs| ==> files[i] == outs[i].file
  {
    seq(|outs|, i requires 0 <= i < |outs| => outs[i].file)
  }

  ghost predicate OutputOk(o: Output, hash: Key -> Bloom.Hash, bits: nat) {
    && FileOk(o.file) && o.bytes == FileBytes(o.file.run, BLOCK_SIZE, hash, bits) && o.file.fileSize == |o.bytes|
    && ReaderOk(o.reader, o.file.run, hash) && AllReadable(o.reader)
  }

  ghost predicate OutputsOk(outs: seq<Output>, first: nat, hash: Key -> Bloom.Hash, bits: nat) {
    && (forall i :: 0 <= i < |outs| ==> OutputOk(outs[i], hash, bits))
    && Consecutive(FilesOf(outs), first)
  }

  ghost predicate FromInputs(inputs: seq<FileMeta>, run: Run) {
    forall e :: e in run ==> exists f :: f in inputs && e in f.run
  }

  ghost predicate InputsSmall(inputs: seq<FileMeta>) {
    forall f, e :: f in inputs && e in f.run ==> SmallEntry(e)
  }

  // ---- Outputs -----------------------------------------------------------------------------------

  /** The bytes of the blocks that are full once these records have been added. */
  ghost function FullBlocks(run: Run): nat {
    |BlocksBytes(Cut(run, BLOCK_SIZE).blocks)|
  }

  /** The last record, and no earlier one, brought the full blocks to the target size. */
  ghost predicate ReachedWithLast(run: Run, target: nat) {
    run != [] && FullBlocks(run) >= target && (|run| > 1 ==> FullBlocks(run[..|run| - 1]) < target)
  }

  ghost predicate AllCut(files: seq<FileMeta>, target: nat) {
    forall i :: 0 <= i < |files| ==> ReachedWithLast(files[i].run, target)
  }

  /** Every output but the last ends with the record that brought it to the target size; the last one may stay below. */
  ghost predicate CutBySize(files: seq<FileMeta>, target: nat) {
    && (forall i :: 0 <= i < |files| - 1 ==> ReachedWithLast(files[i].run, target))
    && (files != [] ==>
          var last := files[|files| - 1].run; ReachedWithLast(last, target) || FullBlocks(last) < target)
  }

  lemma AllCutBySize(files: seq<FileMeta>, target: nat)
    requires AllCut(files, target)
    ensures CutBySize(files, target)
  {
    hide ReachedWithLast, FullBlocks;
  }

  lemma OneMoreCut(outs: seq<Output>, o: Output, target: nat)
    requires AllCut(FilesOf(outs), target)
    ensures ReachedWithLast(o.file.run, target) ==> AllCut(FilesOf(outs + [o]), target)
    ensures FullBlocks(o.file.run) < target ==> CutBySize(FilesOf(outs + [o]), target)
  {
    hide ReachedWithLast, FullBlocks;
    assert FilesOf(outs + [o]) == FilesOf(outs) + [o.file];
  }

  /** What the writer counts as its offset is the size of the full blocks. */
  lemma OffsetIs(w: SSTableWriter)
    requires w.Open() && w.blockSize == BLOCK_SIZE
    ensures w.offset == FullBlocks(w.run)
  {
    hide BlocksBytes, Cut, RecordsBytes, IndexOf;
  }

  /** Finish a table, open it, and describe it. */
  method FinishOutput(w: SSTableWriter, number: nat) returns (o: Output)
    requires w.Open() && w.run != [] && Sorted(w.run) && w.blockSize == BLOCK_SIZE
    requires TableRoom(w.run, w.hash, w.bloom.bitsPerKey)
    modifies w, w.bloom
    ensures OutputOk(o, w.hash, w.bloom.bitsPerKey) && o.file.number == number && o.file.run == old(w.run)
  {
    hide TableRoom, FileBytes, OpenTable, StandsFor, AllReadable, DistinctOffsets, Sorted, SSTableWriter.Open, Sealed;
    w.Finish();
    WrittenOpens(w.run, w.hash, w.bloom.bitsPerKey);
    var r := TableReader.Open(w.file);
    var file := FileMeta(number, r.value.smallest, r.value.largest, w.offset, w.numEntries, Records(r.value));
    o := Output(file, r.value, w.file);
  }

  /** The records of the table being written. */
  ghost function Current(w: SSTableWriter?): Run
    reads w
  {
    if w == null then [] else w.run
  }

  /** A table being written has records, is not finished, and has not reached its target size. */
  ghost predicate Writing(w: SSTableWriter?, hash: Key -> Bloom.Hash, bits: nat, target: nat)
    reads w, if w != null then {w.bloom} else {}
  {
    w != null ==>
      && w.Open() && w.run != [] && w.blockSize == BLOCK_SIZE && w.hash == hash && w.bloom.bitsPerKey == bits
      && w.offset < target && SmallRun(w.run)
  }

  lemma WritingBulk(w: SSTableWriter?, hash: Key -> Bloom.Hash, bits: nat, target: nat)
    requires Writing(w, hash, bits, target)
    ensures Bulk(Current(w)) < target + BLOCK_SIZE
  {
    hide Bulk, Cut, RecordsBytes, BlocksBytes, IndexOf;
    NoBulk();
    if w != null {
      CutBulk(w.run);
    }
  }

  /** Everything written so far. */
  ghost function Written(outs: seq<Output>, w: SSTableWriter?): Run
    reads w
  {
    Concat(FilesOf(outs)) + Current(w)
  }

  /** One record into the current output, which is started before and finished behind it as its size demands. */
  method AddToOutput(outs: seq<Output>, w: SSTableWriter?, e: Entry, first: nat, hash: Key -> Bloom.Hash, bits: nat,
                     target: nat)
    returns (outs': seq<Output>, w': SSTableWriter?)
    requires OutputsOk(outs, first, hash, bits) && Writing(w, hash, bits, target) && AllCut(FilesOf(outs), target)
    requires Sorted(Current(w) + [e]) && SmallEntry(e) && TargetFits(target, bits)
    modifies if w != null then {w, w.bloom} else {}
    ensures OutputsOk(outs', first, hash, bits) && Writing(w', hash, bits, target) && AllCut(FilesOf(outs'), target)
    ensures Written(outs', w') == old(Written(outs, w)) + [e]
    ensures w' == null || w' == w || (fresh(w') && fresh(w'.bloom))
  {
    hide TableRoom, Sorted, OutputOk, SSTableWriter.Open, Concat, AllCut, FullBlocks;
    ghost var cur := Current(w);
    if w != null {
      OffsetIs(w);
    }
    WritingBulk(w, hash, bits, target);
    OutputRoom(cur, e, target, hash, bits);
    if w == null {
      w' := new SSTableWriter(BLOCK_SIZE, bits, hash);
    } else {
      w' := w;
    }
    outs' := outs;
    w'.Add(e.key, e.value, e.tombstone);
    assert w'.run == cur + [e] && w'.run[..|w'.run| - 1] == cur;
    OffsetIs(w');
    assert Concat(FilesOf(outs)) + (cur + [e]) == Concat(FilesOf(outs)) + cur + [e];
    if w'.offset >= target {
      var o := FinishOutput(w', first + |outs|);
      OneMoreOutput(outs, o, first, hash, bits);
      OneMoreCut(outs, o, target);
      outs' := outs + [o];
      w' := null;
      assert Concat(FilesOf(outs)) + o.file.run + [] == Concat(FilesOf(outs)) + o.file.run;
    }
  }

  lemma OneMoreOutput(outs: seq<Output>, o: Output, first: nat, hash: Key -> Bloom.Hash, bits: nat)
    requires OutputsOk(outs, first, hash, bits) && OutputOk(o, hash, bits) && o.file.number == first + |outs|
    ensures OutputsOk(outs + [o], first, hash, bits)
    ensures Concat(FilesOf(outs + [o])) == Concat(FilesOf(outs)) + o.file.run
  {
    hide OutputOk;
    assert FilesOf(outs + [o]) == FilesOf(outs) + [o.file];
    assert (FilesOf(outs) + [o.file])[..|outs|] == FilesOf(outs);
  }

  // ---- The merge ---------------------------------------------------------------------------------

  /** What the merge has passed to the outputs: everything but the entry it stands on. */
  ghost function Passed(emitted: Run, valid: bool): Run {
    if valid && emitted != [] then emitted[..|emitted| - 1] else emitted
  }

  lemma EmittedFromInputs(cs: seq<Cursor>, inputs: seq<FileMeta>, out: Run)
    requires RunsOf(cs) == RunsIn(inputs) && MergedSoFar(cs, [], out)
    ensures FromInputs(inputs, out)
  {
    hide Lt, Le, Rank, Newest, Lookup;
    forall e | e in out ensures exists f :: f in inputs && e in f.run {
      var m :| 0 <= m < |out| && out[m] == e;
      assert Newest(RunsOf(cs), e.key) == Some(e);
      var i := NewestMember(RunsIn(inputs), e.key);
      assert inputs[i] in inputs;
    }
  }

  lemma {:induction false} NewestMember(runs: seq<Run>, k: Key) returns (i: nat)
    requires Newest(runs, k).Some?
    ensures i < |runs| && Newest(runs, k).value in runs[i]
    decreases |runs|
  {
    if Lookup(runs[0], k).Some? {
      i := 0;
    } else {
      i := NewestMember(runs[1..], k);
      i := i + 1;
    }
  }

  /** The next entry goes behind what is in the current output, and is small. */
  lemma NextFits(inputs: seq<FileMeta>, written: Run, cur: Run, e: Entry, emitted: Run, bottommost: bool)
    requires InputsSmall(inputs) && FromInputs(inputs, emitted) && Sorted(emitted)
    requires written + cur + [e] == Kept(emitted, bottommost)
    ensures Sorted(cur + [e]) && SmallEntry(e)
  {
    hide Sorted, Kept, SmallEntry;
    KeptSorted(emitted, bottommost);
    var all := written + cur + [e];
    assert all[|written|..|all|] == cur + [e];
    SortedSlice(all, |written|, |all|);
    assert all[|all| - 1] == e && e in all;
    assert e in emitted;
  }

  lemma LastFits(written: Run, w: SSTableWriter, emitted: Run, bottommost: bool, hash: Key -> Bloom.Hash, bits: nat,
                 target: nat)
    requires Sorted(emitted) && written + w.run == Kept(emitted, bottommost)
    requires Writing(w, hash, bits, target) && TargetFits(target, bits)
    ensures Sorted(w.run) && TableRoom(w.run, hash, bits)
  {
    hide TableRoom, Sorted, Kept, Bulk, SSTableWriter.Open;
    KeptSorted(emitted, bottommost);
    var all := written + w.run;
    assert all[|written|..|all|] == w.run;
    SortedSlice(all, |written|, |all|);
    WritingBulk(w, hash, bits, target);
    BulkOfEntries(w.run);
    KeysFit(|w.run|, target, bits);
    SmallTableFits(w.run, hash, bits);
  }

  lemma NothingWritten(first: nat, hash: Key -> Bloom.Hash, bits: nat, target: nat, bottommost: bool)
    ensures OutputsOk([], first, hash, bits) && Writing(null, hash, bits, target) && AllCut(FilesOf([]), target)
    ensures Concat(FilesOf([])) == [] && Kept([], bottommost) == []
  {
  }

  lemma EmittedSorted(cs: seq<Cursor>, out: Run)
    requires MergedSoFar(cs, [], out)
    ensures Sorted(out)
  {
    hide Sorted;
  }

  lemma KeptStep(emitted: Run, bottommost: bool)
    requires emitted != []
    ensures var e := emitted[|emitted| - 1];
      Kept(emitted, bottommost) ==
        Kept(Passed(emitted, true), bottommost) + (if bottommost && e.tombstone then [] else [e])
  {
  }

  /** The entry the merge stands on goes to the outputs, unless it is a tombstone at the bottom. */
  method PassOn(c: Compaction, merge: MergingIterator, outs: seq<Output>, w: SSTableWriter?, first: nat,
                hash: Key -> Bloom.Hash, bits: nat, target: nat)
    returns (outs': seq<Output>, w': SSTableWriter?)
    requires InputsSmall(c.inputs) && TargetFits(target, bits)
    requires merge.Inv() && merge.valid && RunsOf(Cursors(merge.children)) == RunsIn(c.inputs)
    requires OutputsOk(outs, first, hash, bits) && Writing(w, hash, bits, target) && AllCut(FilesOf(outs), target)
    requires Written(outs, w) == Kept(Passed(merge.emitted, true), c.bottommost)
    modifies if w != null then {w, w.bloom} else {}
    ensures OutputsOk(outs', first, hash, bits) && Writing(w', hash, bits, target) && AllCut(FilesOf(outs'), target)
    ensures Written(outs', w') == Kept(merge.emitted, c.bottommost)
    ensures w' == null || w' == w || (fresh(w') && fresh(w'.bloom))
  {
    hide Lt, Le, Rank, Sorted, OutputsOk, Writing, Kept, Concat, MergedSoFar, FromInputs, InputsSmall, SmallEntry,
      AllTrack, Cursors, TargetFits, AllCut, CutBySize;
    ghost var emitted, cs := merge.emitted, Cursors(merge.children);
    KeptStep(emitted, c.bottommost);
    outs', w' := outs, w;
    if c.bottommost && merge.curIsTombstone {
      assert Kept(Passed(emitted, true), c.bottommost) + [] == Kept(Passed(emitted, true), c.bottommost);
      return;
    }
    var e := Entry(merge.curKey, merge.curValue, merge.curIsTombstone);
    EmittedFromInputs(cs, c.inputs, emitted);
    EmittedSorted(cs, emitted);
    NextFits(c.inputs, Concat(FilesOf(outs)), Current(w), e, emitted, c.bottommost);
    outs', w' := AddToOutput(outs, w, e, first, hash, bits, target);
  }

  /** The last output is finished once the merge has come to its end. */
  method FinishLast(c: Compaction, merge: MergingIterator, outs: seq<Output>, w: SSTableWriter?, first: nat,
                    hash: Key -> Bloom.Hash, bits: nat, ghost target: nat)
    returns (outs': seq<Output>)
    requires TargetFits(target, bits)
    requires merge.Inv() && !merge.valid && merge.ok && RunsOf(Cursors(merge.children)) == RunsIn(c.inputs)
    requires OutputsOk(outs, first, hash, bits) && Writing(w, hash, bits, target) && AllCut(FilesOf(outs), target)
    requires Written(outs, w) == Kept(merge.emitted, c.bottommost)
    modifies if w != null then {w, w.bloom} else {}
    ensures OutputsOk(outs', first, hash, bits) && IsOutput(c, FilesOf(outs')) && CutBySize(FilesOf(outs'), target)
  {
    hide Lt, Le, Rank, Sorted, TableRoom, OutputsOk, Kept, Concat, MergedSoFar, AllTrack, Cursors, IsOutput, OutputOk,
      SSTableWriter.Open, TargetFits, AllCut, CutBySize;
    ghost var cs, emitted := Cursors(merge.children), merge.emitted;
    TrackWellFormed(merge.children);
    outs' := outs;
    if w != null {
      EmittedSorted(cs, emitted);
      LastFits(Concat(FilesOf(outs)), w, emitted, c.bottommost, hash, bits, target);
      OffsetIs(w);
      var o := FinishOutput(w, first + |outs|);
      OneMoreOutput(outs, o, first, hash, bits);
      OneMoreCut(outs, o, target);
      outs' := outs + [o];
    } else {
      AllCutBySize(FilesOf(outs), target);
      assert Concat(FilesOf(outs)) + [] == Concat(FilesOf(outs));
    }
    MergedIsOutput(c, cs, emitted, outs', first, hash, bits);
  }

  lemma OutputFilesOk(outs: seq<Output>, first: nat, hash: Key -> Bloom.Hash, bits: nat)
    requires OutputsOk(outs, first, hash, bits)
    ensures FilesOk(FilesOf(outs)) && Consecutive(FilesOf(outs), first)
  {
    hide FileOk, FileBytes, ReaderOk, AllReadable;
    forall f | f in FilesOf(outs) ensures FileOk(f) {
      var i :| 0 <= i < |outs| && FilesOf(outs)[i] == f;
      assert OutputOk(outs[i], hash, bits);
    }
  }

  lemma MergedIsOutput(c: Compaction, cs: seq<Cursor>, emitted: Run, outs: seq<Output>, first: nat,
                       hash: Key -> Bloom.Hash, bits: nat)
    requires AllWellFormed(cs) && MergedSoFar(cs, [], emitted) && RunsOf(cs) == RunsIn(c.inputs)
    requires forall i :: 0 <= i < |cs| ==> cs[i].pos == |cs[i].run|
    requires OutputsOk(outs, first, hash, bits) && Concat(FilesOf(outs)) == Kept(emitted, c.bottommost)
    ensures IsOutput(c, FilesOf(outs))
  {
    hide MergedSoFar, AllWellFormed, Kept, Concat, IsMerge, OutputsOk, FileOk;
    FinishedMerge(cs, emitted);
    OutputFilesOk(outs, first, hash, bits);
  }

  // ---- Reading the inputs ------------------------------------------------------------------------

  /** The children of the merge, right after the inputs were opened, are the inputs' runs. */
  lemma FirstRuns(its: seq<TableCursor>, inputs: seq<FileMeta>, readers: Readers)
    requires Over(its, inputs, readers)
    ensures RunsOf(FirstCursors(its)) == RunsIn(inputs)
  {
    hide Flatten, BlocksOf, LimitFrom;
    forall i | 0 <= i < |its| ensures RunsOf(FirstCursors(its))[i] == RunsIn(inputs)[i] {
      BlocksOfFlatten(inputs[i].run, BLOCK_SIZE);
    }
  }

  lemma SourcesRuns(cs: seq<Cursor>, ds: seq<Cursor>)
    requires SameSources(cs, ds)
    ensures RunsOf(cs) == RunsOf(ds)
  {
  }

  ghost predicate InputsReadable(inputs: seq<FileMeta>, readers: Readers) {
    forall f :: f in inputs ==> f.number in readers && AllReadable(readers[f.number])
  }

  /** A merge that ends well has read everything; one that fails has met a block that cannot be read. */
  lemma MergeReadsAll(its: seq<TableCursor>, cs: seq<Cursor>, inputs: seq<FileMeta>, readers: Readers)
    requires Over(its, inputs, readers) && AllServed(its) && SameSources(FirstCursors(its), cs) && AllWellFormed(cs)
    ensures InputsReadable(inputs, readers) ==> AllOk(cs)
    ensures (forall i :: 0 <= i < |cs| ==> cs[i].Ok() && cs[i].pos == |cs[i].run|) ==> InputsReadable(inputs, readers)
  {
    hide Flatten, BlocksOf, LimitFrom, Serves, AllReadable, Sorted;
    if InputsReadable(inputs, readers) {
      forall i | 0 <= i < |cs| ensures cs[i].Ok() {
        assert inputs[i] in inputs;
        ServesSize(its[i].reader, its[i].blocks);
        AllReadableLimit(its[i].reader, its[i].blocks, 0);
      }
    }
    if forall i :: 0 <= i < |cs| ==> cs[i].Ok() && cs[i].pos == |cs[i].run| {
      forall f | f in inputs ensures f.number in readers && AllReadable(readers[f.number]) {
        var i :| 0 <= i < |inputs| && inputs[i] == f;
        assert cs[i].limit == |cs[i].run|;
        AllRead(its[i].reader, its[i].blocks);
      }
    }
  }

  lemma AllRead(r: Reader, blocks: seq<Run>)
    requires Serves(r, blocks) && FirstCursor(r, blocks).limit == |Flatten(blocks)|
    ensures AllReadable(r)
  {
    hide Flatten, LimitFrom, Readable;
    FullLimit(r, blocks, 0);
  }

  // ---- The merge ---------------------------------------------------------------------------------

  /** Pass the current entry on and take the merge to the next key. */
  method MergeStep(c: Compaction, merge: MergingIterator, outs: seq<Output>, w: SSTableWriter?, first: nat,
                   hash: Key -> Bloom.Hash, bits: nat, target: nat)
    returns (outs': seq<Output>, w': SSTableWriter?)
    requires InputsSmall(c.inputs) && TargetFits(target, bits)
    requires merge.Inv() && merge.valid && RunsOf(Cursors(merge.children)) == RunsIn(c.inputs)
    requires OutputsOk(outs, first, hash, bits) && Writing(w, hash, bits, target) && AllCut(FilesOf(outs), target)
    requires Written(outs, w) == Kept(Passed(merge.emitted, true), c.bottommost)
    modifies merge, merge.children, if w != null then {w, w.bloom} else {}
    ensures merge.Inv() && SameSources(old(Cursors(merge.children)), Cursors(merge.children))
    ensures merge.valid ==> Remaining(Cursors(merge.children)) < old(Remaining(Cursors(merge.children)))
    ensures OutputsOk(outs', first, hash, bits) && Writing(w', hash, bits, target) && AllCut(FilesOf(outs'), target)
    ensures Written(outs', w') == Kept(Passed(merge.emitted, merge.valid), c.bottommost)
    ensures w' == null || w' == w || (fresh(w') && fresh(w'.bloom))
  {
    hide OutputsOk, Writing, Kept, Concat, InputsSmall, TargetFits, SameSources, Cursors, MergingIterator.Inv,
      Remaining, AllCut, CutBySize;
    outs', w' := PassOn(c, merge, outs, w, first, hash, bits, target);
    ghost var emitted := merge.emitted;
    merge.Next();
    assert Passed(merge.emitted, merge.valid) == emitted;
  }

  /** The merge to its end; the last output may still be open. */
  method MergeAll(c: Compaction, merge: MergingIterator, first: nat, hash: Key -> Bloom.Hash, bits: nat, target: nat)
    returns (outs: seq<Output>, w: SSTableWriter?)
    requires InputsSmall(c.inputs) && TargetFits(target, bits)
    requires merge.Inv() && RunsOf(Cursors(merge.children)) == RunsIn(c.inputs)
    requires Passed(merge.emitted, merge.valid) == []
    modifies merge, merge.children
    ensures merge.Inv() && !merge.valid && RunsOf(Cursors(merge.children)) == RunsIn(c.inputs)
    ensures SameSources(old(Cursors(merge.children)), Cursors(merge.children))
    ensures OutputsOk(outs, first, hash, bits) && Writing(w, hash, bits, target) && AllCut(FilesOf(outs), target)
    ensures Written(outs, w) == Kept(merge.emitted, c.bottommost)
    ensures w == null || (fresh(w) && fresh(w.bloom))
  {
    hide OutputsOk, Writing, Kept, Concat, InputsSmall, TargetFits, SameSources, Cursors, MergingIterator.Inv,
      Remaining, AllCut, CutBySize;
    outs, w := [], null;
    NothingWritten(first, hash, bits, target, c.bottommost);
    ghost var start := Cursors(merge.children);
    SameAsItself(start);
    while merge.valid
      invariant (w != null ==> fresh(w) && fresh(w.bloom)) && merge.Inv()
      invariant SameSources(start, Cursors(merge.children)) && RunsOf(Cursors(merge.children)) == RunsIn(c.inputs)
      invariant OutputsOk(outs, first, hash, bits) && Writing(w, hash, bits, target) && AllCut(FilesOf(outs), target)
      invariant Written(outs, w) == Kept(Passed(merge.emitted, merge.valid), c.bottommost)
      decreases if merge.valid then 1 + Remaining(Cursors(merge.children)) else 0
    {
      ghost var before := Cursors(merge.children);
      outs, w := MergeStep(c, merge, outs, w, first, hash, bits, target);
      SameSourcesChain(start, before, Cursors(merge.children));
      SourcesRuns(before, Cursors(merge.children));
    }
  }

  /** Merge the inputs, newest version of a key first, drop tombstones at the bottom, and cut the rest into tables
  numbered from `first` on. It succeeds if and only if every block of every input can be read. */
  method MergeInputs(c: Compaction, readers: Readers, first: nat, hash: Key -> Bloom.Hash, bits: nat, target: nat)
    returns (ok: bool, outs: seq<Output>, pending: bool)
    requires FilesOk(c.inputs) && InputsSmall(c.inputs) && TargetFits(target, bits)
    requires TablesStand(c.inputs, readers, hash)
    ensures OutputsOk(outs, first, hash, bits) && CutBySize(FilesOf(outs), target)
    ensures ok ==> IsOutput(c, FilesOf(outs)) && !pending
    ensures ok == InputsReadable(c.inputs, readers)
  {
    hide OutputsOk, Writing, Kept, Concat, InputsSmall, IsOutput, TargetFits, TablesStand, Over, AllServe, SameSources,
      FirstCursors, Cursors, MergingIterator.Inv, AllServed, InputsReadable, FilesOk, AllCut, CutBySize;
    var children := OpenIterators(c.inputs, readers, hash);
    AllServing(children);
    FirstRuns(children, c.inputs, readers);
    var merge := new MergingIterator(children);
    merge.SeekToFirst();
    ghost var start, sought := FirstCursors(children), Cursors(children);
    SourcesRuns(start, sought);
    var w;
    outs, w := MergeAll(c, merge, first, hash, bits, target);
    SameSourcesChain(start, sought, Cursors(children));
    MergeEnds(merge, c.inputs, readers);
    AllCutBySize(FilesOf(outs), target);
    if !merge.ok {
      return false, outs, w != null;
    }
    outs := FinishLast(c, merge, outs, w, first, hash, bits, target);
    ok, pending := true, false;
  }

  lemma MergeEnds(merge: MergingIterator, inputs: seq<FileMeta>, readers: Readers)
    requires merge.Inv() && !merge.valid && Over(merge.children, inputs, readers) && AllServed(merge.children)
    requires SameSources(FirstCursors(merge.children), Cursors(merge.children))
    ensures merge.ok == InputsReadable(inputs, readers)
  {
    hide MergedSoFar, Cursors, AllTrack, Over, AllServed, FirstCursors, SameSources, InputsReadable;
    var cs := Cursors(merge.children);
    TrackWellFormed(merge.children);
    MergeReadsAll(merge.children, cs, inputs, readers);
    if merge.ok {
      forall i | 0 <= i < |cs| ensures cs[i].Ok() {
      }
    }
  }
}
