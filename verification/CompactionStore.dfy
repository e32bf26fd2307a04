/** What a compaction does to the store around it: files, readers, and the records held. */
module CompactionStore {
  import opened Keys
  import opened Runs
  import opened Merge
  import opened Versions
  import opened CompactionSpec
  import opened CompactionProof
  import opened TableWriter
  import opened TableGet
  import opened TableFiles
  import opened BlockStore
  import opened Stored
  import opened Room
  import opened Compacting
  import opened Loading
  import opened Recovery
  import opened Engine
  import opened EngineRuns
  import Bloom

  // ---- What a picked compaction satisfies --------------------------------------------------------

  lemma PickShape(v: Version, o: Options, c: Compaction)
    requires ValidVersion(v) && OptionsOk(o) && IsPick(v, o, c)
    ensures Installable(v, c) && c.targetLevel == c.sourceLevel + 1 && c.inputs != []
    ensures forall f :: f in c.inputs ==> Live(v, f)
    ensures FilesOk(c.inputs)
  {
    hide FileOk, IsPick, NoDataBelow, Lt, Le, Rank, Overlapping, NumbersIncrease, LevelSorted, ApartNumbers,
      DistinctNumbers;
    PickIsInstallable(v, o, c);
    var upper, lo, hi :| Stands(v, c, upper, lo, hi);
    forall f | f in c.inputs ensures Live(v, f) {
      if f in upper {
        assert f in v.levels[c.sourceLevel];
      } else {
        assert f in LevelOf(v, c.targetLevel);
      }
    }
    assert upper[0] in c.inputs;
  }

  lemma PickSmall(mem: Run, v: Version, c: Compaction)
    requires AllSmall(mem, v) && forall f :: f in c.inputs ==> Live(v, f)
    ensures InputsSmall(c.inputs)
  {
    hide SmallEntry;
    forall f, e | f in c.inputs && e in f.run ensures SmallEntry(e) {
      assert HoldsEntry(mem, v, e);
    }
  }

  /** Every record of an output comes from an input. */
  lemma OutputFromInputs(c: Compaction, outs: seq<FileMeta>, o: FileMeta, e: Entry)
    requires IsOutput(c, outs) && o in outs && e in o.run
    ensures exists f :: f in c.inputs && e in f.run
  {
    hide Lookup, Newest, Kept, Concat, FileOk, Sorted;
    var m :| IsMerge(RunsIn(c.inputs), m) && Concat(outs) == Kept(m, c.bottommost);
    ConcatMembers(outs);
    assert e in m;
    var i :| 0 <= i < |m| && m[i] == e;
    LookupAt(m, i);
    assert Newest(RunsIn(c.inputs), e.key) == Some(e);
    var j := NewestMember(RunsIn(c.inputs), e.key);
    assert c.inputs[j] in c.inputs;
  }

  /** A compaction adds no record. */
  lemma InstallSmall(mem: Run, v: Version, c: Compaction, outs: seq<FileMeta>)
    requires ValidVersion(v) && Installable(v, c) && IsOutput(c, outs) && FreshNumbers(v, outs)
    requires c.targetLevel == c.sourceLevel + 1 && AllSmall(mem, v) && forall f :: f in c.inputs ==> Live(v, f)
    ensures AllSmall(mem, Install(v, c, outs))
  {
    hide Install, IsOutput, Installable, ValidVersion, FreshNumbers, SmallEntry;
    InstallDropsInputs(v, c, outs);
    forall e | HoldsEntry(mem, Install(v, c, outs), e) ensures SmallEntry(e) {
      if e !in mem {
        var g :| Live(Install(v, c, outs), g) && e in g.run;
        if !Live(v, g) {
          OutputFromInputs(c, outs, g, e);
        }
      }
      assert HoldsEntry(mem, v, e);
    }
  }

  lemma InstallTablesOk(v: Version, c: Compaction, outs: seq<FileMeta>, readers: Readers, written: Written,
                        hash: Key -> Bloom.Hash)
    requires ValidVersion(v) && Installable(v, c) && FreshNumbers(v, outs) && c.targetLevel == c.sourceLevel + 1
    requires AllTablesOk(v, readers, written, hash) && forall o :: o in outs ==> TableOk(readers, written, o, hash)
    ensures AllTablesOk(Install(v, c, outs), readers, written, hash)
  {
    hide Install, Installable, ValidVersion, FreshNumbers, TableOk;
    InstallDropsInputs(v, c, outs);
  }

  lemma InstallIntact(v: Version, c: Compaction, outs: seq<FileMeta>, readers: Readers)
    requires ValidVersion(v) && Installable(v, c) && FreshNumbers(v, outs) && c.targetLevel == c.sourceLevel + 1
    requires AllIntact(v, readers) && forall o :: o in outs ==> o.number in readers && AllReadable(readers[o.number])
    ensures AllIntact(Install(v, c, outs), readers)
  {
    hide Install, Installable, ValidVersion, FreshNumbers, AllReadable;
    InstallDropsInputs(v, c, outs);
  }

  lemma InstallMeasured(v: Version, c: Compaction, outs: seq<FileMeta>, hash: Key -> Bloom.Hash, bits: nat)
    requires ValidVersion(v) && Installable(v, c) && FreshNumbers(v, outs) && c.targetLevel == c.sourceLevel + 1
    requires AllMeasured(v, hash, bits) && forall o :: o in outs ==> Measured(o, hash, bits)
    ensures AllMeasured(Install(v, c, outs), hash, bits)
  {
    hide Install, Installable, ValidVersion, FreshNumbers, Measured;
    InstallDropsInputs(v, c, outs);
  }

  lemma OutputsMeasured(outs: seq<Output>, first: nat, hash: Key -> Bloom.Hash, bits: nat)
    requires OutputsOk(outs, first, hash, bits)
    ensures forall f :: f in FilesOf(outs) ==> Measured(f, hash, bits)
  {
    hide FileBytes, FileOk, ReaderOk, AllReadable;
    forall f | f in FilesOf(outs) ensures Measured(f, hash, bits) {
      var i :| 0 <= i < |outs| && FilesOf(outs)[i] == f;
      assert OutputOk(outs[i], hash, bits);
    }
  }

  /** A store that is intact has readable inputs. */
  lemma IntactInputs(v: Version, inputs: seq<FileMeta>, readers: Readers)
    requires AllIntact(v, readers) && forall f :: f in inputs ==> Live(v, f)
    ensures InputsReadable(inputs, readers)
  {
    hide AllReadable;
  }

  lemma InputsStand(v: Version, inputs: seq<FileMeta>, readers: Readers, written: Written, hash: Key -> Bloom.Hash)
    requires AllTablesOk(v, readers, written, hash) && forall f :: f in inputs ==> Live(v, f)
    ensures TablesStand(inputs, readers, hash)
  {
    hide StandsFor, DistinctOffsets;
    forall f | f in inputs ensures TableOk(readers, written, f, hash) {
    }
  }

  // ---- Files -------------------------------------------------------------------------------------

  /** The directory with the files of these outputs. */
  function WithBytes(dir: Directory, outs: seq<Output>): Directory {
    if outs == [] then dir
    else
      var o := outs[|outs| - 1];
      WithBytes(dir, outs[..|outs| - 1])[o.file.number := TableFile(o.bytes, o.file.run)]
  }

  lemma {:induction false} ImageTables(d: Disk, manifest: Option<Bytes>, dir: Directory, hash: Key -> Bloom.Hash,
                                       bits: nat,
                                       outs: seq<Output>, first: nat)
    requires Image(d, manifest, dir, hash, bits) && OutputsOk(outs, first, hash, bits)
    ensures Image(d.(files := WithTables(d.files, FilesOf(outs))), manifest, WithBytes(dir, outs), hash, bits)
    decreases |outs|
  {
    hide FileBytes, ReaderOk, FileOk, Consecutive, DamagedInFront;
    if outs != [] {
      var rest, o := outs[..|outs| - 1], outs[|outs| - 1];
      assert FilesOf(rest) == FilesOf(outs)[..|outs| - 1];
      assert OutputsOk(rest, first, hash, bits) by { FewerOutputs(outs, first, hash, bits); }
      ImageTables(d, manifest, dir, hash, bits, rest, first);
      assert OutputOk(o, hash, bits);
    }
  }

  lemma FewerOutputs(outs: seq<Output>, first: nat, hash: Key -> Bloom.Hash, bits: nat)
    requires outs != [] && OutputsOk(outs, first, hash, bits)
    ensures OutputsOk(outs[..|outs| - 1], first, hash, bits)
  {
    hide OutputOk;
    var rest := outs[..|outs| - 1];
    assert forall i :: 0 <= i < |rest| ==> rest[i] == outs[i] && FilesOf(rest)[i] == FilesOf(outs)[i];
  }

  lemma ImageUnlinked(d: Disk, manifest: Option<Bytes>, dir: Directory, hash: Key -> Bloom.Hash, bits: nat,
                      gone: set<nat>)
    requires Image(d, manifest, dir, hash, bits)
    ensures Image(d.(files := d.files - gone), manifest, dir - gone, hash, bits)
  {
    hide Pristine, DamagedInFront;
  }
}
