/** The pieces of opening a database: readers for all live tables, and the removal of files no version names. */
module Opening {
  import opened Keys
  import opened Runs
  import opened Versions
  import opened ManifestFormat
  import opened TableReader
  import opened TableFiles
  import opened Loading
  import opened Engine
  import opened Durability
  import opened EngineRuns

  /** The numbers of the live files. */
  ghost predicate NumberIn(files: seq<FileMeta>, n: nat) {
    exists f :: f in files && f.number == n
  }

  method LiveNumbers(v: Version) returns (live: set<nat>)
    ensures forall n :: n in live <==> NumberLive(v, n)
  {
    live := {};
    var l := 0;
    while l < |v.levels|
      invariant 0 <= l <= |v.levels|
      invariant forall n :: n in live <==> exists m :: 0 <= m < l && NumberIn(v.levels[m], n)
    {
      var files, i := v.levels[l], 0;
      ghost var before := live;
      while i < |files|
        invariant 0 <= i <= |files|
        invariant forall n :: n in live <==> n in before || NumberIn(files[..i], n)
      {
        NumberInStep(files, i);
        live := live + {files[i].number};
        i := i + 1;
      }
      assert files[..i] == files;
      l := l + 1;
    }
    forall n ensures n in live <==> NumberLive(v, n) {
      LiveIsIn(v, n);
    }
  }

  lemma NumberInStep(files: seq<FileMeta>, i: nat)
    requires i < |files|
    ensures forall n :: NumberIn(files[..i + 1], n) <==> NumberIn(files[..i], n) || n == files[i].number
  {
    assert files[..i + 1] == files[..i] + [files[i]];
    assert files[i] in files[..i + 1];
  }

  lemma LiveIsIn(v: Version, n: nat)
    ensures NumberLive(v, n) <==> exists m :: 0 <= m < |v.levels| && NumberIn(v.levels[m], n)
  {
    if m :| 0 <= m < |v.levels| && NumberIn(v.levels[m], n) {
      var f :| f in v.levels[m] && f.number == n;
      assert Live(v, f);
    }
  }

  /** Open every live table. */
  method OpenReaders(v: Version, dir: Directory) returns (readers: Readers)
    requires forall n :: NumberLive(v, n) ==> n in dir && OpenTable(dir[n].bytes).Some?
    ensures forall n :: n in readers <==> NumberLive(v, n)
    ensures forall n :: n in readers ==> OpenTable(dir[n].bytes) == Some(readers[n])
  {
    hide OpenTable, NumberLive, Sealed;
    var live := LiveNumbers(v);
    readers := map[];
    var todo := live;
    while todo != {}
      invariant todo <= live
      invariant forall n :: n in readers <==> n in live - todo
      invariant forall n :: n in readers ==> OpenTable(dir[n].bytes) == Some(readers[n])
      decreases |todo|
    {
      var n :| n in todo;
      var o := Open(dir[n].bytes);
      readers := readers[n := o.value];
      todo := todo - {n};
    }
  }

  /** Delete the files of the directory that the version does not name. */
  method RemoveOrphanFiles(v: Version, dir: Directory) returns (kept: Directory, gone: set<nat>)
    ensures kept == dir - gone && forall n :: n in gone <==> n in dir && !NumberLive(v, n)
  {
    hide NumberLive;
    var live := LiveNumbers(v);
    kept, gone := dir, {};
    var todo := dir.Keys;
    while todo != {}
      invariant todo <= dir.Keys && kept == dir - gone
      invariant forall n :: n in gone <==> n in dir.Keys - todo && n !in live
      decreases |todo|
    {
      var n :| n in todo;
      if n !in live {
        kept := kept - {n};
        gone := gone + {n};
      }
      todo := todo - {n};
    }
  }

  /** The orphans can be removed one after the other. */
  lemma {:induction false} OrphansRun(s: State, gone: set<nat>) returns (steps: seq<Step>)
    requires s.status.Opening? && forall n :: n in gone ==> !NumberLive(s.current, n)
    ensures Steps(s, steps, s.(disk := s.disk.(files := s.disk.files - gone)))
    decreases |gone|
  {
    hide Trace, End, NumberLive;
    if gone == {} {
      steps := [];
      NoSteps(s);
      assert s.disk.files - gone == s.disk.files;
    } else {
      var n :| n in gone;
      var s1 := s.(disk := s.disk.(files := s.disk.files - {n}));
      OneStep(s, RemoveOrphan(n), s1);
      var rest := OrphansRun(s1, gone - {n});
      var t := s.(disk := s.disk.(files := s.disk.files - gone));
      assert s.disk.files - {n} - (gone - {n}) == s.disk.files - gone;
      StepsAppend(s, [RemoveOrphan(n)], s1, rest, t);
      steps := [RemoveOrphan(n)] + rest;
    }
  }

  /** The state after opening: recovered, orphans gone, running. */
  function AfterOpen(s: State, gone: set<nat>): State {
    var r := AfterRecover(s);
    r.(status := Running, disk := r.disk.(files := r.disk.files - gone))
  }

  lemma OpenRun(s: State, gone: set<nat>) returns (steps: seq<Step>)
    requires s.status.Down? && forall n :: n in gone ==> !NumberLive(DiskVersion(s.disk), n)
    ensures Steps(s, steps, AfterOpen(s, gone))
  {
    hide Trace, End, NumberLive, MemOf, RecoveredNext;
    var r := AfterRecover(s);
    OneStep(s, Recover, r);
    var orphans := OrphansRun(r, gone);
    var t := r.(disk := r.disk.(files := r.disk.files - gone));
    OneStep(t, Opened, AfterOpen(s, gone));
    StepsAppend(s, [Recover], r, orphans, t);
    StepsAppend(s, [Recover] + orphans, t, [Opened], AfterOpen(s, gone));
    steps := [Recover] + orphans + [Opened];
  }

  /** Every table a loaded version names opens. */
  lemma LoadedOpens(manifest: Option<Bytes>, dir: Directory, n: nat)
    requires Load(manifest, dir).Some? && NumberLive(Load(manifest, dir).value.version, n)
    ensures n in dir && OpenTable(dir[n].bytes).Some?
  {
    hide OpenTable, TakeListing, Records;
    var v := Load(manifest, dir).value.version;
    var f :| Live(v, f) && f.number == n;
    var l :| 0 <= l < |v.levels| && f in v.levels[l];
    var m := TakeListing(manifest.value).value;
    assert v.levels[l] == OpenedFiles(m.levels[l], dir);
    var i :| 0 <= i < |v.levels[l]| && v.levels[l][i] == f;
    assert Opens(m.levels[l][i], dir);
  }
}
