/** The code that decides on a compaction and installs its result. */
module Picker {
  import opened Keys
  import opened Coding
  import opened Runs
  import opened Versions
  import opened CompactionSpec

  // ---- Budgets in plain arithmetic ---------------------------------------------------------------

  function Power(b: int, n: nat): int {
    if n == 0 then 1 else Power(b, n - 1) * b
  }

  /** The bytes of all files of a level. */
  function Bytes(files: seq<FileMeta>): nat {
    if files == [] then 0 else Bytes(files[..|files| - 1]) + files[|files| - 1].fileSize
  }

  /** A level between L0 and the last one whose files take more than the first level's target times the multiplier for
  every level in between, all in 64 bits. */
  predicate Exceeds(v: Version, o: Options, l: nat) {
    && 1 <= l < |v.levels| && l < o.maxLevels - 1 && v.levels[l] != []
    && Bytes(v.levels[l]) % TWO_64 > o.l1TargetBytes * Power(o.levelSizeMultiplier, l - 1) % TWO_64
  }

  lemma WrappedProduct(a: int, b: int)
    ensures a % TWO_64 * b % TWO_64 == a * b % TWO_64
  {
    var q, r := a / TWO_64, a % TWO_64;
    var p, s := r * b / TWO_64, r * b % TWO_64;
    assert a * b == q * TWO_64 * b + r * b == (q * b + p) * TWO_64 + s;
    ModUnique(a * b, TWO_64, q * b + p, s);
  }

  lemma {:induction false} BudgetIs(o: Options, l: nat)
    requires l >= 1
    ensures Budget(o, l) == o.l1TargetBytes * Power(o.levelSizeMultiplier, l - 1) % TWO_64
  {
    if l > 1 {
      BudgetIs(o, l - 1);
      var p := Power(o.levelSizeMultiplier, l - 2);
      WrappedProduct(o.l1TargetBytes * p, o.levelSizeMultiplier);
      assert o.l1TargetBytes * p * o.levelSizeMultiplier == o.l1TargetBytes * (p * o.levelSizeMultiplier);
    }
  }

  lemma {:induction false} LevelBytesIs(files: seq<FileMeta>)
    ensures LevelBytes(files) == Bytes(files) % TWO_64
  {
    if files != [] {
      LevelBytesIs(files[..|files| - 1]);
    }
  }

  lemma ExceedsIs(v: Version, o: Options, l: nat)
    ensures Exceeds(v, o, l) <==> OverBudget(v, o, l)
  {
    hide Budget, LevelBytes, Bytes, Power;
    if 1 <= l < |v.levels| {
      BudgetIs(o, l);
      LevelBytesIs(v.levels[l]);
    }
  }

  lemma NeededIs(v: Version, o: Options)
    ensures Needed(v, o) <==>
      |v.levels| > 0 && (|v.levels[0]| >= o.l0CompactionTrigger || exists l :: 1 <= l < |v.levels| && Exceeds(v, o, l))
  {
    hide OverBudget, Exceeds;
    forall l: nat ensures Exceeds(v, o, l) <==> OverBudget(v, o, l) {
      ExceedsIs(v, o, l);
    }
  }

  /** The inputs are the chosen files, then the files of the target level that reach into the range of the chosen. */
  ghost predicate Takes(v: Version, c: Compaction, chosen: seq<FileMeta>) {
    && |chosen| <= |c.inputs| && c.inputs[..|chosen|] == chosen
    && forall f :: f in c.inputs[|chosen|..] <==>
         && c.targetLevel < |v.levels| && f in v.levels[c.targetLevel]
         && (exists a :: a in chosen && Le(a.smallest, f.largest))
         && (exists b :: b in chosen && Le(f.smallest, b.largest))
  }

  /** All of L0, newest first, if it is full; otherwise the first file of the first level over its budget. Bottommost if
  and only if every level below the target is empty. */
  ghost predicate IsChoice(v: Version, o: Options, c: Compaction) {
    && c.sourceLevel < |v.levels| && c.targetLevel == c.sourceLevel + 1
    && (c.bottommost <==> forall l :: c.targetLevel < l < |v.levels| ==> v.levels[l] == [])
    && (c.sourceLevel == 0 <==> |v.levels[0]| >= o.l0CompactionTrigger)
    && (c.sourceLevel == 0 ==> Takes(v, c, Reverse(v.levels[0])))
    && (c.sourceLevel > 0 ==>
          && Exceeds(v, o, c.sourceLevel) && (forall l :: 1 <= l < c.sourceLevel ==> !Exceeds(v, o, l))
          && Takes(v, c, [v.levels[c.sourceLevel][0]]))
  }

  lemma PickedTakes(v: Version, c: Compaction, i: nat, chosen: seq<FileMeta>, lo: Key, hi: Key)
    requires IsHull(chosen, lo, hi) && c == PickedFrom(v, i, chosen, lo, hi)
    ensures Takes(v, c, chosen)
  {
    hide Lt, Rank, NoDataBelow;
    var lower := Overlapping(LevelOf(v, i + 1), lo, hi);
    assert c.inputs[|chosen|..] == lower;
    forall f
      ensures Overlaps(f, lo, hi) <==>
        (exists a :: a in chosen && Le(a.smallest, f.largest)) && (exists b :: b in chosen && Le(f.smallest, b.largest))
    {
      HullReaches(chosen, lo, hi, f);
    }
  }

  lemma HullReaches(chosen: seq<FileMeta>, lo: Key, hi: Key, f: FileMeta)
    requires IsHull(chosen, lo, hi)
    ensures Overlaps(f, lo, hi) <==>
      (exists a :: a in chosen && Le(a.smallest, f.largest)) && (exists b :: b in chosen && Le(f.smallest, b.largest))
  {
    if Overlaps(f, lo, hi) {
      var a :| a in chosen && a.smallest == lo;
      var b :| b in chosen && b.largest == hi;
    }
  }

  /** What is picked, said without the definition of the pick. */
  lemma PickIsChoice(v: Version, o: Options, c: Compaction)
    requires OptionsOk(o) && ValidVersion(v) && IsPick(v, o, c)
    ensures IsChoice(v, o, c)
  {
    hide Lt, Le, Rank, Overlapping, Budget, LevelBytes, Exceeds, IsHull, Takes, FileOk, ApartNumbers, LevelSorted,
      NumbersIncrease, DistinctNumbers;
    forall l: nat ensures Exceeds(v, o, l) <==> OverBudget(v, o, l) {
      ExceedsIs(v, o, l);
    }
    if L0Full(v, o) {
      var lo, hi :| IsHull(v.levels[0], lo, hi) && c == PickedFrom(v, 0, Reverse(v.levels[0]), lo, hi);
      HullReversed(v.levels[0], lo, hi);
      PickedTakes(v, c, 0, Reverse(v.levels[0]), lo, hi);
    } else {
      var f := v.levels[c.sourceLevel][0];
      HullOfOne(f);
      PickedTakes(v, c, c.sourceLevel, [f], f.smallest, f.largest);
    }
  }

  lemma HullReversed(files: seq<FileMeta>, lo: Key, hi: Key)
    requires IsHull(files, lo, hi)
    ensures IsHull(Reverse(files), lo, hi)
  {
    hide Le;
    forall f ensures f in files <==> f in Reverse(files) {
      if f in files {
        var i :| 0 <= i < |files| && files[i] == f;
        assert Reverse(files)[|files| - 1 - i] == f;
      }
    }
  }

  lemma HullOfOne(f: FileMeta)
    ensures IsHull([f], f.smallest, f.largest)
  {
    assert f in [f];
  }

  // ---- The code ----------------------------------------------------------------------------------

  method LevelOverBudget(files: seq<FileMeta>, o: Options, i: nat) returns (over: bool)
    requires i >= 1
    ensures over == (files != [] && LevelBytes(files) > Budget(o, i))
  {
    var budget := o.l1TargetBytes % TWO_64;
    var j := 1;
    while j < i
      invariant 1 <= j <= i
      invariant budget == Budget(o, j)
    {
      budget := budget * o.levelSizeMultiplier % TWO_64;
      j := j + 1;
    }
    var bytes := 0;
    var n := 0;
    while n < |files|
      invariant 0 <= n <= |files|
      invariant bytes == LevelBytes(files[..n])
    {
      assert files[..n + 1][..n] == files[..n];
      bytes := (bytes + files[n].fileSize) % TWO_64;
      n := n + 1;
    }
    assert files[..n] == files;
    over := files != [] && bytes > budget;
  }

  method NeedsCompaction(v: Version, o: Options) returns (needs: bool)
    requires OptionsOk(o)
    ensures needs == Needed(v, o)
    ensures needs <==>
      |v.levels| > 0 && (|v.levels[0]| >= o.l0CompactionTrigger || exists l :: 1 <= l < |v.levels| && Exceeds(v, o, l))
  {
    hide Exceeds;
    NeededIs(v, o);
    if |v.levels| == 0 {
      return false;
    }
    if |v.levels[0]| >= o.l0CompactionTrigger {
      return true;
    }
    var i := 1;
    while i < |v.levels| && i < o.maxLevels - 1
      invariant 1 <= i <= |v.levels|
      invariant forall j :: 1 <= j < i ==> !OverBudget(v, o, j)
    {
      var over := LevelOverBudget(v.levels[i], o, i);
      if over {
        assert OverBudget(v, o, i);
        return true;
      }
      i := i + 1;
    }
    return false;
  }

  /** The range all files of a list lie in. */
  method Hull(files: seq<FileMeta>) returns (lo: Key, hi: Key)
    requires files != [] && FilesOk(files)
    ensures IsHull(files, lo, hi)
  {
    lo, hi := files[0].smallest, files[0].largest;
    var n := 0;
    while n < |files|
      invariant 0 <= n <= |files|
      invariant forall m :: 0 <= m < n ==> Le(lo, files[m].smallest) && Le(files[m].largest, hi)
      invariant exists f :: f in files && f.smallest == lo
      invariant exists f :: f in files && f.largest == hi
    {
      if Lt(files[n].smallest, lo) {
        lo := files[n].smallest;
      }
      if Lt(hi, files[n].largest) {
        hi := files[n].largest;
      }
      n := n + 1;
    }
  }

  method SelectOverlapping(files: seq<FileMeta>, lo: Key, hi: Key) returns (picked: seq<FileMeta>)
    ensures picked == Overlapping(files, lo, hi)
  {
    picked := [];
    var n := 0;
    while n < |files|
      invariant 0 <= n <= |files|
      invariant picked == Overlapping(files[..n], lo, hi)
    {
      assert files[..n + 1][..n] == files[..n];
      if Overlaps(files[n], lo, hi) {
        picked := picked + [files[n]];
      }
      n := n + 1;
    }
    assert files[..n] == files;
  }

  function InsertByNumber(files: seq<FileMeta>, f: FileMeta): seq<FileMeta> {
    if files == [] || f.number > files[0].number then [f] + files else [files[0]] + InsertByNumber(files[1..], f)
  }

  /** Sort files by descending number; on L0, where numbers ascend, that is newest first. */
  method SortNewestFirst(files: seq<FileMeta>) returns (sorted: seq<FileMeta>)
    requires NumbersIncrease(files)
    ensures sorted == Reverse(files)
  {
    sorted := [];
    var n := 0;
    while n < |files|
      invariant 0 <= n <= |files|
      invariant sorted == Reverse(files[..n])
    {
      assert n > 0 ==> sorted[0] == files[n - 1];
      sorted := InsertByNumber(sorted, files[n]);
      assert Reverse(files[..n + 1]) == [files[n]] + Reverse(files[..n]);
      n := n + 1;
    }
    assert files[..n] == files;
  }

  method NothingBelow(v: Version, target: nat) returns (none: bool)
    ensures none == NoDataBelow(v, target)
  {
    var lvl := target + 1;
    while lvl < |v.levels|
      invariant target < lvl
      invariant forall l :: target < l < lvl && l < |v.levels| ==> v.levels[l] == []
    {
      if v.levels[lvl] != [] {
        return false;
      }
      lvl := lvl + 1;
    }
    return true;
  }

  /** A compaction is picked exactly when one is needed, and it is the one the level layout calls for. */
  method PickCompaction(v: Version, o: Options) returns (pick: Option<Compaction>)
    requires OptionsOk(o) && (|v.levels| > 0 ==> ValidVersion(v))
    ensures pick.Some? == Needed(v, o)
    ensures pick.Some? ==> IsPick(v, o, pick.value) && IsChoice(v, o, pick.value)
  {
    hide IsChoice;
    if |v.levels| == 0 {
      return None;
    }
    if |v.levels[0]| >= o.l0CompactionTrigger {
      var l0 := SortNewestFirst(v.levels[0]);
      var lo, hi := Hull(v.levels[0]);
      var lower := SelectOverlapping(if |v.levels| > 1 then v.levels[1] else [], lo, hi);
      var bottommost := NothingBelow(v, 1);
      var c := Compaction(0, 1, bottommost, l0 + lower);
      assert c == PickedFrom(v, 0, Reverse(v.levels[0]), lo, hi);
      PickIsChoice(v, o, c);
      return Some(c);
    }
    var i := 1;
    while i < |v.levels| && i < o.maxLevels - 1
      invariant 1 <= i <= |v.levels|
      invariant forall j :: 1 <= j < i ==> !OverBudget(v, o, j)
    {
      var over := LevelOverBudget(v.levels[i], o, i);
      if over {
        var chosen := v.levels[i][0];
        var below := if |v.levels| > i + 1 then v.levels[i + 1] else [];
        var lower := SelectOverlapping(below, chosen.smallest, chosen.largest);
        var bottommost := NothingBelow(v, i + 1);
        var c := Compaction(i, i + 1, bottommost, [chosen] + lower);
        assert OverBudget(v, o, i) && c == PickedFrom(v, i, [v.levels[i][0]], chosen.smallest, chosen.largest);
        PickIsChoice(v, o, c);
        return Some(c);
      }
      i := i + 1;
    }
    return None;
  }

  method StripLevel(files: seq<FileMeta>, removed: set<nat>) returns (rest: seq<FileMeta>)
    ensures rest == Strip(files, removed)
  {
    rest := [];
    var n := 0;
    while n < |files|
      invariant 0 <= n <= |files|
      invariant rest == Strip(files[..n], removed)
    {
      assert files[..n + 1][..n] == files[..n];
      if files[n].number !in removed {
        rest := rest + [files[n]];
      }
      n := n + 1;
    }
    assert files[..n] == files;
  }

  method SortLevel(files: seq<FileMeta>) returns (sorted: seq<FileMeta>)
    ensures sorted == SortBySmallest(files)
  {
    sorted := [];
    var n := 0;
    while n < |files|
      invariant 0 <= n <= |files|
      invariant sorted == SortBySmallest(files[..n])
    {
      assert files[..n + 1][..n] == files[..n];
      sorted := InsertBySmallest(sorted, files[n]);
      n := n + 1;
    }
    assert files[..n] == files;
  }

  method InstallCompaction(current: Version, c: Compaction, outputs: seq<FileMeta>) returns (nv: Version)
    requires c.targetLevel == c.sourceLevel + 1
    ensures nv == Install(current, c, outputs)
  {
    hide Lt, Le, Rank, Strip, SortBySmallest;
    var levels := current.levels;
    var need := (if c.sourceLevel > c.targetLevel then c.sourceLevel else c.targetLevel) + 1;
    if |levels| < need {
      levels := levels + seq(need - |levels|, _ => []);
    }
    assert levels == Resized(current.levels, c.targetLevel + 1);
    var removed := set f | f in c.inputs :: f.number;
    var source := StripLevel(levels[c.sourceLevel], removed);
    levels := levels[c.sourceLevel := source];
    var target := StripLevel(levels[c.targetLevel], removed);
    var n := 0;
    ghost var stay := target;
    while n < |outputs|
      invariant 0 <= n <= |outputs|
      invariant target == stay + outputs[..n]
    {
      target := target + [outputs[n]];
      n := n + 1;
    }
    assert target == stay + outputs;
    target := SortLevel(target);
    nv := Version(levels[c.targetLevel := target]);
  }

  lemma HullUnique(files: seq<FileMeta>, lo: Key, hi: Key, lo': Key, hi': Key)
    requires IsHull(files, lo, hi) && IsHull(files, lo', hi')
    ensures lo == lo' && hi == hi'
  {
    hide Rank;
    LeBothWays(lo, lo');
    LeBothWays(hi, hi');
  }

  lemma LeBothWays(a: Key, b: Key)
    requires Le(a, b) && Le(b, a)
    ensures a == b
  {
  }

  /** A version has one pick, and only if a compaction is due. */
  lemma PickUnique(v: Version, o: Options, c: Compaction, d: Compaction)
    requires IsPick(v, o, c)
    ensures Needed(v, o) && (IsPick(v, o, d) ==> c == d)
  {
    hide Lt, Le, Rank, Overlapping, NoDataBelow, OverBudget, IsHull;
    if IsPick(v, o, d) && L0Full(v, o) {
      var lo, hi :| IsHull(v.levels[0], lo, hi) && c == PickedFrom(v, 0, Reverse(v.levels[0]), lo, hi);
      var lo', hi' :| IsHull(v.levels[0], lo', hi') && d == PickedFrom(v, 0, Reverse(v.levels[0]), lo', hi');
      HullUnique(v.levels[0], lo, hi, lo', hi');
    }
  }
}
