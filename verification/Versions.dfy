/** The level layout of the tree: files, versions, what a version answers, and what every version keeps. */
module Versions {
  import opened Keys
  import opened Runs

  /** A table file as the level layout knows it. `run` is the list of entries its reader serves. */
  datatype FileMeta = FileMeta(number: nat, smallest: Key, largest: Key, fileSize: nat, numEntries: nat, run: Run)

  /** Levels; levels[0] is L0, its newest file at the back. */
  datatype Version = Version(levels: seq<seq<FileMeta>>)

  ghost predicate FileOk(f: FileMeta) {
    && Sorted(f.run)
    && f.run != []
    && f.smallest == f.run[0].key
    && f.largest == f.run[|f.run| - 1].key
    && f.numEntries == |f.run|
  }

  ghost predicate FilesOk(files: seq<FileMeta>) {
    forall f :: f in files ==> FileOk(f)
  }

  /** Sorted by key and pairwise non-overlapping: what makes one binary search per level enough. */
  ghost predicate LevelSorted(files: seq<FileMeta>) {
    forall i, j :: 0 <= i < j < |files| ==> Lt(files[i].largest, files[j].smallest)
  }

  /** Strictly increasing file numbers: L0 from oldest to newest. */
  ghost predicate NumbersIncrease(files: seq<FileMeta>) {
    forall i, j :: 0 <= i < j < |files| ==> files[i].number < files[j].number
  }

  ghost predicate DistinctNumbers(files: seq<FileMeta>) {
    forall i, j :: 0 <= i < j < |files| ==> files[i].number != files[j].number
  }

  ghost predicate ApartNumbers(files: seq<FileMeta>, others: seq<FileMeta>) {
    forall f, g :: f in files && g in others ==> f.number != g.number
  }

  /** What every reachable version satisfies. */
  ghost predicate ValidVersion(v: Version) {
    && |v.levels| >= 1
    && (forall l :: 0 <= l < |v.levels| ==> FilesOk(v.levels[l]) && DistinctNumbers(v.levels[l]))
    && NumbersIncrease(v.levels[0])
    && (forall l :: 1 <= l < |v.levels| ==> LevelSorted(v.levels[l]))
    && (forall l, m :: 0 <= l < m < |v.levels| ==> ApartNumbers(v.levels[l], v.levels[m]))
  }

  ghost predicate Live(v: Version, f: FileMeta) {
    exists l :: 0 <= l < |v.levels| && f in v.levels[l]
  }

  const EMPTY_VERSION := Version([[]])

  // ---- What a version answers --------------------------------------------------------------------

  function RunsIn(files: seq<FileMeta>): (runs: seq<Run>)
    ensures |runs| == |files|
    ensures forall i :: 0 <= i < |files| ==> runs[i] == files[i].run
  {
    seq(|files|, i requires 0 <= i < |files| => files[i].run)
  }

  function Reverse<T>(s: seq<T>): (r: seq<T>)
    ensures |r| == |s|
    ensures forall i :: 0 <= i < |s| ==> r[i] == s[|s| - 1 - i]
  {
    seq(|s|, i requires 0 <= i < |s| => s[|s| - 1 - i])
  }

  function LevelView(files: seq<FileMeta>, k: Key): Option<Entry> {
    Newest(RunsIn(files), k)
  }

  /** L0 files overlap, so the newest one that has the key answers. */
  function L0View(files: seq<FileMeta>, k: Key): Option<Entry> {
    LevelView(Reverse(files), k)
  }

  function DeepView(v: Version, from: nat, k: Key): Option<Entry>
    decreases |v.levels| - from
  {
    if from >= |v.levels| then None else OrElse(LevelView(v.levels[from], k), DeepView(v, from + 1, k))
  }

  /** The newest entry of a version for key k: L0 from new to old, then level by level. */
  function View(v: Version, k: Key): (o: Option<Entry>) {
    if |v.levels| == 0 then None else OrElse(L0View(v.levels[0], k), DeepView(v, 1, k))
  }

  /** What a reader sees. */
  function Seen(mem: Run, v: Version, k: Key): Option<Bytes> {
    Visible(OrElse(Lookup(mem, k), View(v, k)))
  }

  // ---- Levels ------------------------------------------------------------------------------------

  lemma KeysInRange(f: FileMeta, k: Key)
    requires FileOk(f) && Lookup(f.run, k).Some?
    ensures Le(f.smallest, k) && Le(k, f.largest)
  {
    var e := Lookup(f.run, k).value;
    var i :| 0 <= i < |f.run| && f.run[i] == e;
    assert i > 0 ==> Lt(f.run[0].key, f.run[i].key);
    assert i < |f.run| - 1 ==> Lt(f.run[i].key, f.run[|f.run| - 1].key);
  }

  lemma RangeOrdered(f: FileMeta)
    requires FileOk(f)
    ensures Le(f.smallest, f.largest)
  {
    assert |f.run| > 1 ==> Lt(f.run[0].key, f.run[|f.run| - 1].key);
  }

  lemma LevelViewNone(files: seq<FileMeta>, k: Key)
    ensures LevelView(files, k).None? <==> forall f :: f in files ==> Lookup(f.run, k).None?
  {
    NewestNone(RunsIn(files), k);
    if LevelView(files, k).None? {
      forall f | f in files ensures Lookup(f.run, k).None? {
        var i :| 0 <= i < |files| && files[i] == f;
        assert Lookup(RunsIn(files)[i], k).None?;
      }
    }
  }

  /** On a non-overlapping level the one file that has the key answers, wherever it stands. */
  lemma LevelViewMember(files: seq<FileMeta>, f: FileMeta, k: Key)
    requires FilesOk(files) && LevelSorted(files) && f in files && Lookup(f.run, k).Some?
    ensures LevelView(files, k) == Lookup(f.run, k)
  {
    var i :| 0 <= i < |files| && files[i] == f;
    KeysInRange(f, k);
    forall j | 0 <= j < i ensures Lookup(RunsIn(files)[j], k).None? {
      if Lookup(files[j].run, k).Some? {
        KeysInRange(files[j], k);
      }
    }
    NewestAt(RunsIn(files), i, k);
  }

  lemma LevelViewAppend(a: seq<FileMeta>, b: seq<FileMeta>, k: Key)
    ensures LevelView(a + b, k) == OrElse(LevelView(a, k), LevelView(b, k))
  {
    assert RunsIn(a + b) == RunsIn(a) + RunsIn(b);
    NewestAppend(RunsIn(a), RunsIn(b), k);
  }

  lemma L0ViewAppend(a: seq<FileMeta>, b: seq<FileMeta>, k: Key)
    ensures L0View(a + b, k) == OrElse(L0View(b, k), L0View(a, k))
  {
    assert Reverse(a + b) == Reverse(b) + Reverse(a);
    LevelViewAppend(Reverse(b), Reverse(a), k);
  }

  lemma {:induction false} DeepViewSame(v: Version, w: Version, from: nat, k: Key)
    requires |v.levels| == |w.levels| && forall l :: from <= l < |v.levels| ==> v.levels[l] == w.levels[l]
    ensures DeepView(v, from, k) == DeepView(w, from, k)
    decreases |v.levels| - from
  {
    if from < |v.levels| {
      DeepViewSame(v, w, from + 1, k);
    }
  }

  lemma {:induction false} DeepViewEmpty(v: Version, from: nat, k: Key)
    requires forall l :: from <= l < |v.levels| ==> v.levels[l] == []
    ensures DeepView(v, from, k).None?
    decreases |v.levels| - from
  {
    if from < |v.levels| {
      DeepViewEmpty(v, from + 1, k);
    }
  }

  // ---- Flush -------------------------------------------------------------------------------------

  /** The version after a flushed file was pushed to the back of L0. */
  function PushL0(v: Version, f: FileMeta): Version
    requires |v.levels| >= 1
  {
    Version(v.levels[0 := v.levels[0] + [f]])
  }

  lemma PushL0Valid(v: Version, f: FileMeta)
    requires ValidVersion(v) && FileOk(f)
    requires forall g :: g in v.levels[0] ==> g.number < f.number
    requires forall g :: Live(v, g) ==> g.number != f.number
    ensures ValidVersion(PushL0(v, f))
  {
    forall l, g | 0 <= l < |v.levels| && g in v.levels[l] ensures g.number != f.number {
      assert Live(v, g);
    }
  }

  /** A flushed file is consulted before everything that was in the version. */
  lemma PushL0View(v: Version, f: FileMeta, k: Key)
    requires |v.levels| >= 1
    ensures View(PushL0(v, f), k) == OrElse(Lookup(f.run, k), View(v, k))
  {
    L0ViewAppend(v.levels[0], [f], k);
    assert RunsIn(Reverse([f])) == [f.run];
    assert Newest([f.run][1..], k).None?;
    DeepViewSame(v, PushL0(v, f), 1, k);
  }

  // ---- All tables in priority order --------------------------------------------------------------

  /** Every table of a version in the order scans give them: L0 newest first, then level by level. */
  function Tables(v: Version): seq<FileMeta> {
    if |v.levels| == 0 then [] else Reverse(v.levels[0]) + DeepTables(v, 1)
  }

  function DeepTables(v: Version, from: nat): seq<FileMeta>
    decreases |v.levels| - from
  {
    if from >= |v.levels| then [] else v.levels[from] + DeepTables(v, from + 1)
  }

  lemma {:induction false} DeepTablesView(v: Version, from: nat, k: Key)
    ensures LevelView(DeepTables(v, from), k) == DeepView(v, from, k)
    decreases |v.levels| - from
  {
    if from < |v.levels| {
      DeepTablesView(v, from + 1, k);
      LevelViewAppend(v.levels[from], DeepTables(v, from + 1), k);
    }
  }

  /** The tables in that order answer as the version does. */
  lemma TablesView(v: Version, k: Key)
    ensures LevelView(Tables(v), k) == View(v, k)
  {
    if |v.levels| > 0 {
      LevelViewAppend(Reverse(v.levels[0]), DeepTables(v, 1), k);
      DeepTablesView(v, 1, k);
    }
  }

  /** The sources of a scan, merged newest first, answer what a point lookup answers. */
  lemma SourcesView(mem: Run, v: Version, k: Key)
    ensures Newest([mem] + RunsIn(Tables(v)), k) == OrElse(Lookup(mem, k), View(v, k))
  {
    var runs := [mem] + RunsIn(Tables(v));
    assert runs[1..] == RunsIn(Tables(v));
    TablesView(v, k);
  }

  lemma TablesOk(v: Version)
    requires ValidVersion(v)
    ensures FilesOk(Tables(v))
  {
    DeepTablesOk(v, 1);
  }

  lemma {:induction false} DeepTablesOk(v: Version, from: nat)
    requires forall l :: 0 <= l < |v.levels| ==> FilesOk(v.levels[l])
    ensures FilesOk(DeepTables(v, from))
    decreases |v.levels| - from
  {
    if from < |v.levels| {
      DeepTablesOk(v, from + 1);
    }
  }
}
