/** Leveled compaction on values: which files are picked, what the outputs are, and what installing them in a
possibly newer version keeps. */
module CompactionSpec {
  import opened Keys
  import opened Coding
  import opened Runs
  import opened Merge
  import opened Versions

  datatype Options = Options(l0CompactionTrigger: int, l1TargetBytes: nat, levelSizeMultiplier: int,
                             targetFileSize: nat, maxLevels: int, bloomBitsPerKey: int,
                             memtableFlushThreshold: nat)

  /** The settings the code is written for; with a trigger of 0 it would take the front of an empty L0. */
  predicate OptionsOk(o: Options) {
    o.l0CompactionTrigger >= 1 && o.maxLevels >= 1
  }

  datatype Compaction = Compaction(sourceLevel: nat, targetLevel: nat, bottommost: bool, inputs: seq<FileMeta>)

  // ---- Picking -----------------------------------------------------------------------------------

  /** The byte budget of level i, in wrapping 64-bit arithmetic. */
  function Budget(o: Options, i: nat): nat
    requires i >= 1
  {
    if i == 1 then o.l1TargetBytes % TWO_64 else Budget(o, i - 1) * o.levelSizeMultiplier % TWO_64
  }

  function LevelBytes(files: seq<FileMeta>): nat {
    if files == [] then 0 else (LevelBytes(files[..|files| - 1]) + files[|files| - 1].fileSize) % TWO_64
  }

  predicate OverBudget(v: Version, o: Options, i: nat) {
    1 <= i < |v.levels| && i < o.maxLevels - 1 && v.levels[i] != [] && LevelBytes(v.levels[i]) > Budget(o, i)
  }

  predicate L0Full(v: Version, o: Options) {
    |v.levels| > 0 && |v.levels[0]| >= o.l0CompactionTrigger
  }

  predicate Needed(v: Version, o: Options) {
    L0Full(v, o) || exists i :: 1 <= i < |v.levels| && OverBudget(v, o, i)
  }

  predicate Overlaps(f: FileMeta, lo: Key, hi: Key) {
    Le(lo, f.largest) && Le(f.smallest, hi)
  }

  function Overlapping(files: seq<FileMeta>, lo: Key, hi: Key): (r: seq<FileMeta>)
    ensures forall f :: f in r <==> f in files && Overlaps(f, lo, hi)
  {
    if files == [] then
      []
    else
      var r := Overlapping(files[..|files| - 1], lo, hi);
      var f := files[|files| - 1];
      if Overlaps(f, lo, hi) then r + [f] else r
  }

  function LevelOf(v: Version, l: nat): seq<FileMeta> {
    if l < |v.levels| then v.levels[l] else []
  }

  predicate NoDataBelow(v: Version, target: nat) {
    forall l :: target < l < |v.levels| ==> v.levels[l] == []
  }

  /** [lo, hi] is the smallest range that covers every file. */
  ghost predicate IsHull(files: seq<FileMeta>, lo: Key, hi: Key) {
    && (forall f :: f in files ==> Le(lo, f.smallest) && Le(f.largest, hi))
    && (exists f :: f in files && f.smallest == lo)
    && (exists f :: f in files && f.largest == hi)
  }

  /** The compaction the code picks for a version: all of L0 newest first, or the first file of the first level
  over its budget, each with the files of the next level that overlap its range. */
  ghost predicate IsPick(v: Version, o: Options, c: Compaction) {
    if L0Full(v, o) then
      exists lo, hi :: IsHull(v.levels[0], lo, hi) && c == PickedFrom(v, 0, Reverse(v.levels[0]), lo, hi)
    else
      exists i :: 1 <= i < |v.levels| && OverBudget(v, o, i) && (forall j :: 1 <= j < i ==> !OverBudget(v, o, j))
        && c == PickedFrom(v, i, [v.levels[i][0]], v.levels[i][0].smallest, v.levels[i][0].largest)
  }

  function PickedFrom(v: Version, i: nat, upper: seq<FileMeta>, lo: Key, hi: Key): Compaction {
    Compaction(i, i + 1, NoDataBelow(v, i + 1), upper + Overlapping(LevelOf(v, i + 1), lo, hi))
  }

  // ---- Output ------------------------------------------------------------------------------------

  /** What a merge keeps: everything, or at the bottom everything but tombstones. */
  function Kept(run: Run, bottommost: bool): (r: Run)
    ensures forall e :: e in r ==> e in run && !(bottommost && e.tombstone)
    ensures |r| <= |run|
  {
    if run == [] then
      []
    else
      var e := run[|run| - 1];
      var r := Kept(run[..|run| - 1], bottommost);
      if bottommost && e.tombstone then r else r + [e]
  }

  function Concat(files: seq<FileMeta>): Run {
    if files == [] then [] else Concat(files[..|files| - 1]) + files[|files| - 1].run
  }

  /** The files a compaction writes: the kept part of the merge of its inputs, cut into consecutive files. */
  ghost predicate IsOutput(c: Compaction, outs: seq<FileMeta>) {
    FilesOk(outs) && exists m :: IsMerge(RunsIn(c.inputs), m) && Concat(outs) == Kept(m, c.bottommost)
  }

  // ---- Installing --------------------------------------------------------------------------------

  function NumbersOf(files: seq<FileMeta>): set<nat> {
    set f | f in files :: f.number
  }

  function Strip(files: seq<FileMeta>, removed: set<nat>): (r: seq<FileMeta>)
    ensures forall f :: f in r <==> f in files && f.number !in removed
  {
    if files == [] then
      []
    else
      var r := Strip(files[..|files| - 1], removed);
      var f := files[|files| - 1];
      if f.number in removed then r else r + [f]
  }

  function InsertBySmallest(files: seq<FileMeta>, f: FileMeta): (r: seq<FileMeta>)
    ensures forall g :: g in r <==> g == f || g in files
  {
    if files == [] || !Lt(f.smallest, files[|files| - 1].smallest) then
      files + [f]
    else
      InsertBySmallest(files[..|files| - 1], f) + [files[|files| - 1]]
  }

  function SortBySmallest(files: seq<FileMeta>): (r: seq<FileMeta>)
    ensures forall g :: g in r <==> g in files
  {
    if files == [] then [] else InsertBySmallest(SortBySmallest(files[..|files| - 1]), files[|files| - 1])
  }

  function Resized(levels: seq<seq<FileMeta>>, n: nat): (r: seq<seq<FileMeta>>)
    ensures |r| >= n && |r| >= |levels|
    ensures forall l :: 0 <= l < |r| ==> r[l] == if l < |levels| then levels[l] else []
  {
    if |levels| >= n then levels else levels + seq(n - |levels|, _ => [])
  }

  /** Drop the inputs from both levels, add the outputs to the target and sort it by key. */
  function Install(v: Version, c: Compaction, outs: seq<FileMeta>): (w: Version)
    requires c.targetLevel == c.sourceLevel + 1
    ensures |w.levels| >= 2
  {
    var levels := Resized(v.levels, c.targetLevel + 1);
    var removed := NumbersOf(c.inputs);
    var source := Strip(levels[c.sourceLevel], removed);
    var target := SortBySmallest(Strip(levels[c.targetLevel], removed) + outs);
    Version(levels[c.sourceLevel := source][c.targetLevel := target])
  }

  // ---- Order is kept -----------------------------------------------------------------------------

  ghost predicate Pairwise(files: seq<FileMeta>, rel: (FileMeta, FileMeta) -> bool) {
    forall i, j :: 0 <= i < j < |files| ==> rel(files[i], files[j])
  }

  lemma {:induction false} StripPairwise(files: seq<FileMeta>, removed: set<nat>, rel: (FileMeta, FileMeta) -> bool)
    requires Pairwise(files, rel)
    ensures Pairwise(Strip(files, removed), rel)
  {
    if files != [] {
      var rest, f := files[..|files| - 1], files[|files| - 1];
      StripPairwise(rest, removed, rel);
      forall g | g in Strip(rest, removed) ensures rel(g, f) {
        assert g in rest;
        var i :| 0 <= i < |rest| && rest[i] == g;
        assert rel(files[i], files[|files| - 1]);
      }
    }
  }

  lemma StripKeepsOrder(files: seq<FileMeta>, removed: set<nat>)
    ensures LevelSorted(files) ==> LevelSorted(Strip(files, removed))
    ensures NumbersIncrease(files) ==> NumbersIncrease(Strip(files, removed))
    ensures DistinctNumbers(files) ==> DistinctNumbers(Strip(files, removed))
  {
    var below := (f: FileMeta, g: FileMeta) => Lt(f.largest, g.smallest);
    var older := (f: FileMeta, g: FileMeta) => f.number < g.number;
    var other := (f: FileMeta, g: FileMeta) => f.number != g.number;
    var s := Strip(files, removed);
    assert LevelSorted(files) ==> Pairwise(files, below);
    assert NumbersIncrease(files) ==> Pairwise(files, older);
    assert DistinctNumbers(files) ==> Pairwise(files, other);
    if LevelSorted(files) {
      StripPairwise(files, removed, below);
      assert forall i, j :: 0 <= i < j < |s| ==> below(s[i], s[j]);
    }
    if NumbersIncrease(files) {
      StripPairwise(files, removed, older);
      assert forall i, j :: 0 <= i < j < |s| ==> older(s[i], s[j]);
    }
    if DistinctNumbers(files) {
      StripPairwise(files, removed, other);
      assert forall i, j :: 0 <= i < j < |s| ==> other(s[i], s[j]);
    }
  }

  ghost predicate Apart(f: FileMeta, g: FileMeta) {
    Lt(f.largest, g.smallest) || Lt(g.largest, f.smallest)
  }

  ghost predicate PairwiseApart(files: seq<FileMeta>) {
    forall i, j :: 0 <= i < j < |files| ==> Apart(files[i], files[j])
  }

  lemma {:induction false} InsertKeepsOrder(files: seq<FileMeta>, f: FileMeta)
    requires FilesOk(files) && FileOk(f)
    requires LevelSorted(files) && forall g :: g in files ==> Apart(f, g)
    ensures LevelSorted(InsertBySmallest(files, f))
  {
    hide Lt, Le, Rank;
    RangeOrdered(f);
    forall g | g in files ensures Le(g.smallest, g.largest) {
      RangeOrdered(g);
    }
    if files != [] {
      var rest, last := files[..|files| - 1], files[|files| - 1];
      assert Apart(f, last);
      assert forall i :: 0 <= i < |rest| ==> files[i] in files && Lt(files[i].largest, last.smallest);
      if Lt(f.smallest, last.smallest) {
        InsertKeepsOrder(rest, f);
        forall g | g in InsertBySmallest(rest, f) ensures Lt(g.largest, last.smallest) {
        }
      }
    }
  }

  lemma {:induction false} SortMakesLevel(files: seq<FileMeta>)
    requires FilesOk(files) && PairwiseApart(files)
    ensures LevelSorted(SortBySmallest(files))
  {
    if files != [] {
      SortMakesLevel(files[..|files| - 1]);
      InsertKeepsOrder(SortBySmallest(files[..|files| - 1]), files[|files| - 1]);
    }
  }

  lemma {:induction false} InsertKeepsDistinct(files: seq<FileMeta>, f: FileMeta)
    requires DistinctNumbers(files) && forall g :: g in files ==> g.number != f.number
    ensures DistinctNumbers(InsertBySmallest(files, f))
  {
    if files != [] && Lt(f.smallest, files[|files| - 1].smallest) {
      var rest, last := files[..|files| - 1], files[|files| - 1];
      InsertKeepsDistinct(rest, f);
      forall g | g in InsertBySmallest(rest, f) ensures g.number != last.number {
        if g != f {
          var i :| 0 <= i < |rest| && rest[i] == g;
          assert files[i] == g;
        }
      }
    }
  }

  lemma {:induction false} SortKeepsDistinct(files: seq<FileMeta>)
    requires DistinctNumbers(files)
    ensures DistinctNumbers(SortBySmallest(files))
  {
    if files != [] {
      var rest := files[..|files| - 1];
      SortKeepsDistinct(rest);
      InsertKeepsDistinct(SortBySmallest(rest), files[|files| - 1]);
    }
  }
}
