/** Installing a compaction keeps every version invariant and every visible value, whatever was flushed between
the moment its inputs were picked and the moment its outputs are installed. */
module CompactionProof {
  import opened Keys
  import opened Runs
  import opened Merge
  import opened Versions
  import opened CompactionSpec

  /** What a picked compaction still is in a version that may have gained L0 files since: its inputs are the
  oldest part of L0 (or the first file of a deeper level), newest first, and the files of the next level that
  overlap their range [lo, hi]. */
  ghost predicate Stands(v: Version, c: Compaction, upper: seq<FileMeta>, lo: Key, hi: Key) {
    && c.targetLevel == c.sourceLevel + 1
    && c.sourceLevel < |v.levels|
    && c.inputs == upper + Overlapping(LevelOf(v, c.targetLevel), lo, hi)
    && c.bottommost == NoDataBelow(v, c.targetLevel)
    && upper != []
    && (forall f :: f in upper ==> Le(lo, f.smallest) && Le(f.largest, hi))
    && (if c.sourceLevel == 0 then |upper| <= |v.levels[0]| && upper == Reverse(v.levels[0][..|upper|])
        else v.levels[c.sourceLevel] != [] && upper == [v.levels[c.sourceLevel][0]])
  }

  ghost predicate Installable(v: Version, c: Compaction) {
    exists upper, lo, hi :: Stands(v, c, upper, lo, hi)
  }

  lemma PickIsInstallable(v: Version, o: Options, c: Compaction)
    requires OptionsOk(o) && IsPick(v, o, c)
    ensures Installable(v, c)
  {
    if L0Full(v, o) {
      var lo, hi :| IsHull(v.levels[0], lo, hi) && c == PickedFrom(v, 0, Reverse(v.levels[0]), lo, hi);
      var upper := Reverse(v.levels[0]);
      assert v.levels[0][..|upper|] == v.levels[0];
      PickStands(v, 0, upper, lo, hi);
    } else {
      var i :| 1 <= i < |v.levels| && OverBudget(v, o, i)
        && c == PickedFrom(v, i, [v.levels[i][0]], v.levels[i][0].smallest, v.levels[i][0].largest);
      PickStands(v, i, [v.levels[i][0]], v.levels[i][0].smallest, v.levels[i][0].largest);
    }
  }

  lemma PickStands(v: Version, i: nat, upper: seq<FileMeta>, lo: Key, hi: Key)
    requires i < |v.levels| && upper != []
    requires forall f :: f in upper ==> Le(lo, f.smallest) && Le(f.largest, hi)
    requires if i == 0 then upper == Reverse(v.levels[0][..|v.levels[0]|])
             else v.levels[i] != [] && upper == [v.levels[i][0]]
    ensures Stands(v, PickedFrom(v, i, upper, lo, hi), upper, lo, hi)
  {
  }

  /** A flush between pick and install leaves the pick standing, its bottommost flag included. */
  lemma PushKeepsInstallable(v: Version, c: Compaction, f: FileMeta)
    requires |v.levels| >= 1 && Installable(v, c)
    ensures Installable(PushL0(v, f), c)
  {
    var upper, lo, hi :| Stands(v, c, upper, lo, hi);
    var w := PushL0(v, f);
    assert c.sourceLevel == 0 ==> w.levels[0][..|upper|] == v.levels[0][..|upper|];
    assert forall l :: 1 <= l < |w.levels| ==> w.levels[l] == v.levels[l];
    assert Stands(w, c, upper, lo, hi);
  }

  // ---- The inputs --------------------------------------------------------------------------------

  lemma UpperLive(v: Version, c: Compaction, upper: seq<FileMeta>, lo: Key, hi: Key)
    requires ValidVersion(v) && Stands(v, c, upper, lo, hi)
    ensures forall f :: f in upper ==> f in v.levels[c.sourceLevel]
    ensures FilesOk(upper)
  {
    forall f | f in upper ensures f in v.levels[c.sourceLevel] {
      if c.sourceLevel == 0 {
        var i :| 0 <= i < |upper| && upper[i] == f;
        assert f == v.levels[0][..|upper|][|upper| - 1 - i] == v.levels[0][|upper| - 1 - i];
      }
    }
  }

  /** A target file that was not selected lies wholly on one side of every input, even of selected files that
  extend past [lo, hi]. */
  lemma UnselectedOnOneSide(v: Version, c: Compaction, upper: seq<FileMeta>, lo: Key, hi: Key, u: FileMeta)
    requires ValidVersion(v) && Stands(v, c, upper, lo, hi)
    requires u in LevelOf(v, c.targetLevel) && !Overlaps(u, lo, hi)
    ensures
      || (forall f :: f in c.inputs ==> Lt(u.largest, f.smallest))
      || (forall f :: f in c.inputs ==> Lt(f.largest, u.smallest))
  {
    hide Lt, Le, Rank;
    UpperLive(v, c, upper, lo, hi);
    RangeOrdered(upper[0]);
    var level := v.levels[c.targetLevel];
    var lower := Overlapping(level, lo, hi);
    RangeOrdered(u);
    forall g | g in lower ensures Apart(g, u) && Le(g.smallest, g.largest) && Le(lo, g.largest) && Le(g.smallest, hi) {
      RangeOrdered(g);
      var i :| 0 <= i < |level| && level[i] == g;
      var j :| 0 <= j < |level| && level[j] == u;
    }
    forall f | f in upper ensures Le(lo, f.smallest) && Le(f.largest, hi) && Le(f.smallest, f.largest) {
      RangeOrdered(f);
    }
    assert forall f :: f in c.inputs ==> f in upper || f in lower;
    if Lt(u.largest, lo) {
      assert forall f :: f in c.inputs ==> Lt(u.largest, f.smallest);
    } else {
      assert forall f :: f in c.inputs ==> Lt(f.largest, u.smallest);
    }
  }

  /** In the target level the file numbers of the inputs name exactly the selected files. */
  lemma RemovedFromTarget(v: Version, c: Compaction, upper: seq<FileMeta>, lo: Key, hi: Key, f: FileMeta)
    requires ValidVersion(v) && Stands(v, c, upper, lo, hi) && f in LevelOf(v, c.targetLevel)
    ensures f.number in NumbersOf(c.inputs) <==> Overlaps(f, lo, hi)
  {
    var level := v.levels[c.targetLevel];
    var lower := Overlapping(level, lo, hi);
    UpperLive(v, c, upper, lo, hi);
    if Overlaps(f, lo, hi) {
      assert f in c.inputs;
    }
    if f.number in NumbersOf(c.inputs) {
      var g :| g in c.inputs && g.number == f.number;
      assert ApartNumbers(v.levels[c.sourceLevel], level);
      assert g in lower;
      SameNumberSameFile(level, f, g);
    }
  }

  lemma SameNumberSameFile(files: seq<FileMeta>, f: FileMeta, g: FileMeta)
    requires DistinctNumbers(files) && f in files && g in files && f.number == g.number
    ensures f == g
  {
    var i :| 0 <= i < |files| && files[i] == f;
    var j :| 0 <= j < |files| && files[j] == g;
  }

  /** In the source level they name exactly the picked files: the oldest part of L0, or the one chosen file. */
  lemma RemovedFromSource(v: Version, c: Compaction, upper: seq<FileMeta>, lo: Key, hi: Key, f: FileMeta)
    requires ValidVersion(v) && Stands(v, c, upper, lo, hi) && f in v.levels[c.sourceLevel]
    ensures f.number in NumbersOf(c.inputs) <==> f in upper
  {
    UpperLive(v, c, upper, lo, hi);
    var level := v.levels[c.sourceLevel];
    if f in upper {
      assert f in c.inputs;
    }
    assert forall m :: 0 <= m < |v.levels| && m == c.targetLevel ==> ApartNumbers(level, v.levels[m]);
    if f.number in NumbersOf(c.inputs) {
      var g :| g in c.inputs && g.number == f.number;
      if g in upper {
        SameNumberSameFile(level, f, g);
      }
    }
  }

  // ---- The outputs -------------------------------------------------------------------------------

  lemma {:induction false} KeptSorted(run: Run, bottommost: bool)
    requires Sorted(run)
    ensures Sorted(Kept(run, bottommost))
  {
    hide Lt, Le, Rank;
    if run != [] {
      var rest, e := run[..|run| - 1], run[|run| - 1];
      KeptSorted(rest, bottommost);
      forall x | x in Kept(rest, bottommost) ensures Lt(x.key, e.key) {
        assert x in rest;
        var i :| 0 <= i < |rest| && rest[i] == x;
        assert run[i] == x;
      }
    }
  }

  lemma LookupLast(rest: Run, e: Entry, k: Key)
    requires Sorted(rest + [e])
    ensures Sorted(rest)
    ensures Lookup(rest + [e], k) == if k == e.key then Some(e) else Lookup(rest, k)
    ensures k == e.key ==> Lookup(rest, k).None?
  {
    hide Lt, Le, Rank;
    LookupAppend(rest, [e], k);
    assert Lookup([e][1..], k).None?;
    var run := rest + [e];
    assert forall i :: 0 <= i < |rest| ==> run[i] == rest[i] && Lt(run[i].key, run[|rest|].key);
  }

  lemma {:induction false} KeptLookup(run: Run, bottommost: bool, k: Key)
    requires Sorted(run)
    ensures Lookup(Kept(run, bottommost), k) ==
            if bottommost && Lookup(run, k).Some? && Lookup(run, k).value.tombstone then None else Lookup(run, k)
  {
    hide Lt, Le, Rank;
    if run != [] {
      var rest, e := run[..|run| - 1], run[|run| - 1];
      assert run == rest + [e];
      LookupLast(rest, e, k);
      KeptLookup(rest, bottommost, k);
      LookupAppend(Kept(rest, bottommost), [e], k);
      assert Lookup([e][1..], k).None?;
    }
  }

  lemma {:induction false} ConcatMembers(files: seq<FileMeta>)
    ensures forall f, e :: f in files && e in f.run ==> e in Concat(files)
    ensures forall e :: e in Concat(files) ==> exists f :: f in files && e in f.run
  {
    if files != [] {
      var rest, last := files[..|files| - 1], files[|files| - 1];
      ConcatMembers(rest);
      forall e | e in Concat(files) ensures exists f :: f in files && e in f.run {
        if e in Concat(rest) {
          var f :| f in rest && e in f.run;
          assert f in files;
        } else {
          assert last in files && e in last.run;
        }
      }
    }
  }

  /** Consecutive pieces of a sorted list form a level, which answers as the list does. */
  lemma {:induction false} ConcatIsLevel(files: seq<FileMeta>)
    requires FilesOk(files) && Sorted(Concat(files))
    ensures LevelSorted(files)
  {
    hide Lt, Le, Rank;
    if files != [] {
      var rest, last := files[..|files| - 1], files[|files| - 1];
      assert Concat(files)[..|Concat(rest)|] == Concat(rest);
      ConcatIsLevel(rest);
      ConcatMembers(rest);
      forall f | f in rest ensures Lt(f.largest, last.smallest) {
        assert FileOk(f) && FileOk(last);
        var e := f.run[|f.run| - 1];
        assert e in Concat(rest);
        var i :| 0 <= i < |Concat(rest)| && Concat(rest)[i] == e;
        assert Concat(files)[i] == e && Concat(files)[|Concat(rest)|] == last.run[0];
        assert Lt(Concat(files)[i].key, Concat(files)[|Concat(rest)|].key);
      }
      forall i, j | 0 <= i < j < |files| ensures Lt(files[i].largest, files[j].smallest) {
        assert files[i] == rest[i] && files[i] in rest;
        if j < |rest| {
          assert files[j] == rest[j];
        }
      }
    }
  }

  lemma {:induction false} ConcatView(files: seq<FileMeta>, k: Key)
    ensures LevelView(files, k) == Lookup(Concat(files), k)
  {
    if files != [] {
      var rest, last := files[..|files| - 1], files[|files| - 1];
      ConcatView(rest, k);
      assert files == rest + [last];
      LevelViewAppend(rest, [last], k);
      LevelViewOne(last, k);
      LookupAppend(Concat(rest), last.run, k);
    }
  }

  lemma LevelViewOne(f: FileMeta, k: Key)
    ensures LevelView([f], k) == Lookup(f.run, k)
  {
    assert RunsIn([f]) == [f.run];
    assert Newest([f.run][1..], k).None?;
  }

  /** The outputs form a level that answers what the inputs answer, tombstones dropped at the bottom. */
  lemma OutputView(c: Compaction, outs: seq<FileMeta>, k: Key)
    requires IsOutput(c, outs)
    ensures LevelSorted(outs)
    ensures var i := Newest(RunsIn(c.inputs), k);
      LevelView(outs, k) == if c.bottommost && i.Some? && i.value.tombstone then None else i
  {
    var m :| IsMerge(RunsIn(c.inputs), m) && Concat(outs) == Kept(m, c.bottommost);
    KeptSorted(m, c.bottommost);
    KeptLookup(m, c.bottommost, k);
    ConcatIsLevel(outs);
    ConcatView(outs, k);
    assert Lookup(m, k) == Newest(RunsIn(c.inputs), k);
  }

  /** Every key of an output is a key of an input. */
  lemma OutputKeyFromInput(c: Compaction, outs: seq<FileMeta>, o: FileMeta, k: Key)
    requires IsOutput(c, outs) && o in outs && Lookup(o.run, k).Some?
    ensures exists f :: f in c.inputs && Lookup(f.run, k).Some?
  {
    OutputView(c, outs, k);
    LevelViewNone(outs, k);
    LevelViewNone(c.inputs, k);
  }

  lemma EdgeKeys(o: FileMeta)
    requires FileOk(o)
    ensures Lookup(o.run, o.smallest).Some? && Lookup(o.run, o.largest).Some?
  {
    LookupAt(o.run, 0);
    LookupAt(o.run, |o.run| - 1);
  }

  /** An output never overlaps a target file that stays. */
  lemma OutputApart(v: Version, c: Compaction, upper: seq<FileMeta>, lo: Key, hi: Key, outs: seq<FileMeta>,
                    u: FileMeta, o: FileMeta)
    requires ValidVersion(v) && Stands(v, c, upper, lo, hi) && IsOutput(c, outs) && o in outs
    requires u in LevelOf(v, c.targetLevel) && !Overlaps(u, lo, hi)
    ensures Apart(u, o)
  {
    UnselectedOnOneSide(v, c, upper, lo, hi, u);
    UpperLive(v, c, upper, lo, hi);
    EdgeKeys(o);
    OutputKeyFromInput(c, outs, o, o.smallest);
    OutputKeyFromInput(c, outs, o, o.largest);
    var f :| f in c.inputs && Lookup(f.run, o.smallest).Some?;
    var g :| g in c.inputs && Lookup(g.run, o.largest).Some?;
    assert forall x :: x in c.inputs ==> x in upper || x in v.levels[c.targetLevel];
    KeysInRange(f, o.smallest);
    KeysInRange(g, o.largest);
  }

  // ---- The new target level ----------------------------------------------------------------------

  function NewTarget(v: Version, c: Compaction, outs: seq<FileMeta>): seq<FileMeta> {
    SortBySmallest(Strip(LevelOf(v, c.targetLevel), NumbersOf(c.inputs)) + outs)
  }

  lemma NewTargetIsLevel(v: Version, c: Compaction, upper: seq<FileMeta>, lo: Key, hi: Key, outs: seq<FileMeta>)
    requires ValidVersion(v) && Stands(v, c, upper, lo, hi) && IsOutput(c, outs)
    ensures FilesOk(NewTarget(v, c, outs)) && LevelSorted(NewTarget(v, c, outs))
  {
    hide Lt, Le, Rank;
    var level := LevelOf(v, c.targetLevel);
    var stay := Strip(level, NumbersOf(c.inputs));
    StripKeepsOrder(level, NumbersOf(c.inputs));
    OutputView(c, outs, []);
    forall u, o | u in stay && o in outs ensures Apart(u, o) {
      RemovedFromTarget(v, c, upper, lo, hi, u);
      OutputApart(v, c, upper, lo, hi, outs, u, o);
    }
    AppendPairwiseApart(stay, outs);
    SortMakesLevel(stay + outs);
  }

  lemma AppendPairwiseApart(a: seq<FileMeta>, b: seq<FileMeta>)
    requires LevelSorted(a) && LevelSorted(b) && forall f, g :: f in a && g in b ==> Apart(f, g)
    ensures PairwiseApart(a + b)
  {
    hide Lt, Le, Rank;
    var s := a + b;
    forall i, j | 0 <= i < j < |s| ensures Apart(s[i], s[j]) {
      assert i < |a| ==> s[i] in a;
      assert j >= |a| ==> s[j] in b && s[j] == b[j - |a|];
    }
  }

  /** The heart of the matter: for every key the picked files and the old target together answer what the new
  target answers, except that a tombstone may be gone when nothing lies below. */
  lemma NewTargetView(v: Version, c: Compaction, upper: seq<FileMeta>, lo: Key, hi: Key, outs: seq<FileMeta>, k: Key)
    requires ValidVersion(v) && Stands(v, c, upper, lo, hi) && IsOutput(c, outs)
    ensures var before := OrElse(LevelView(upper, k), LevelView(LevelOf(v, c.targetLevel), k));
      var after := LevelView(NewTarget(v, c, outs), k);
      after == before || (c.bottommost && before.Some? && before.value.tombstone && after.None?)
  {
    hide Lt, Le, Rank;
    var level := LevelOf(v, c.targetLevel);
    var target := NewTarget(v, c, outs);
    NewTargetIsLevel(v, c, upper, lo, hi, outs);
    LevelViewNone(target, k);
    LevelViewNone(level, k);
    if u :| u in level && !Overlaps(u, lo, hi) && Lookup(u.run, k).Some? {
      StayingKey(v, c, upper, lo, hi, u, k);
      RemovedFromTarget(v, c, upper, lo, hi, u);
      LevelViewMember(level, u, k);
      LevelViewMember(target, u, k);
    } else {
      SelectedView(v, c, upper, lo, hi, k);
      OutputView(c, outs, k);
      LevelViewNone(outs, k);
      forall f | f in target && Lookup(f.run, k).Some? ensures f in outs {
        if f !in outs {
          RemovedFromTarget(v, c, upper, lo, hi, f);
        }
      }
      if o :| o in outs && Lookup(o.run, k).Some? {
        LevelViewMember(outs, o, k);
        LevelViewMember(target, o, k);
      }
    }
  }

  lemma StayingKey(v: Version, c: Compaction, upper: seq<FileMeta>, lo: Key, hi: Key, u: FileMeta, k: Key)
    requires ValidVersion(v) && Stands(v, c, upper, lo, hi)
    requires u in LevelOf(v, c.targetLevel) && !Overlaps(u, lo, hi) && Lookup(u.run, k).Some?
    ensures LevelView(upper, k).None?
  {
    UpperLive(v, c, upper, lo, hi);
    KeysInRange(u, k);
    forall f | f in upper ensures Lookup(f.run, k).None? {
      if Lookup(f.run, k).Some? {
        KeysInRange(f, k);
      }
    }
    LevelViewNone(upper, k);
  }

  /** A key no staying file has is answered by the inputs alone. */
  lemma SelectedView(v: Version, c: Compaction, upper: seq<FileMeta>, lo: Key, hi: Key, k: Key)
    requires ValidVersion(v) && Stands(v, c, upper, lo, hi)
    requires forall u :: u in LevelOf(v, c.targetLevel) && !Overlaps(u, lo, hi) ==> Lookup(u.run, k).None?
    ensures OrElse(LevelView(upper, k), LevelView(LevelOf(v, c.targetLevel), k)) == Newest(RunsIn(c.inputs), k)
  {
    var level := LevelOf(v, c.targetLevel);
    var lower := Overlapping(level, lo, hi);
    LevelViewAppend(upper, lower, k);
    LevelViewNone(level, k);
    LevelViewNone(lower, k);
    if g :| g in lower && Lookup(g.run, k).Some? {
      LevelViewMember(level, g, k);
      LowerIsLevel(level, lo, hi);
      LevelViewMember(lower, g, k);
    }
  }

  lemma {:induction false} LowerIsLevel(level: seq<FileMeta>, lo: Key, hi: Key)
    requires LevelSorted(level)
    ensures LevelSorted(Overlapping(level, lo, hi))
  {
    if level != [] {
      var rest, last := level[..|level| - 1], level[|level| - 1];
      LowerIsLevel(rest, lo, hi);
      forall g | g in Overlapping(rest, lo, hi) ensures Lt(g.largest, last.smallest) {
        assert g in rest;
        var i :| 0 <= i < |rest| && rest[i] == g;
        assert level[i] == g;
      }
    }
  }

  // ---- The source level --------------------------------------------------------------------------

  lemma StripLast(files: seq<FileMeta>, removed: set<nat>)
    ensures files == [] ==> Strip(files, removed) == []
    ensures files != [] ==>
      var rest, last := files[..|files| - 1], files[|files| - 1];
      Strip(files, removed) == if last.number in removed then Strip(rest, removed) else Strip(rest, removed) + [last]
  {
  }

  lemma StripAll(files: seq<FileMeta>, removed: set<nat>)
    requires forall i :: 0 <= i < |files| ==> files[i].number in removed
    ensures Strip(files, removed) == []
  {
    assert forall f :: f !in Strip(files, removed);
  }

  lemma {:induction false} StripSuffix(files: seq<FileMeta>, n: nat, removed: set<nat>)
    requires n <= |files|
    requires forall i :: 0 <= i < n ==> files[i].number in removed
    requires forall i :: n <= i < |files| ==> files[i].number !in removed
    ensures Strip(files, removed) == files[n..]
    decreases |files|
  {
    hide Strip;
    if n == |files| {
      StripAll(files, removed);
    } else {
      StripLast(files, removed);
      var rest := files[..|files| - 1];
      StripSuffix(rest, n, removed);
      assert files[n..] == rest[n..] + [files[|files| - 1]];
    }
  }

  /** The source level answers as what stays in it, then what was picked from it. */
  lemma SourceView(v: Version, c: Compaction, upper: seq<FileMeta>, lo: Key, hi: Key, k: Key)
    requires ValidVersion(v) && Stands(v, c, upper, lo, hi)
    ensures var stay := Strip(v.levels[c.sourceLevel], NumbersOf(c.inputs));
      if c.sourceLevel == 0 then L0View(v.levels[0], k) == OrElse(L0View(stay, k), LevelView(upper, k))
      else LevelView(v.levels[c.sourceLevel], k) == OrElse(LevelView(stay, k), LevelView(upper, k))
  {
    if c.sourceLevel == 0 {
      L0SourceView(v, c, upper, lo, hi, k);
    } else {
      DeepSourceView(v, c, upper, lo, hi, k);
    }
  }

  lemma L0SourceView(v: Version, c: Compaction, upper: seq<FileMeta>, lo: Key, hi: Key, k: Key)
    requires ValidVersion(v) && Stands(v, c, upper, lo, hi) && c.sourceLevel == 0
    ensures L0View(v.levels[0], k) == OrElse(L0View(Strip(v.levels[0], NumbersOf(c.inputs)), k), LevelView(upper, k))
  {
    hide LevelView, Lookup, Newest, Strip, NumbersOf, Overlapping;
    var l0, n, removed := v.levels[0], |upper|, NumbersOf(c.inputs);
    forall i | 0 <= i < |l0| ensures l0[i].number in removed <==> i < n {
      RemovedFromSource(v, c, upper, lo, hi, l0[i]);
      OldestPart(l0, upper, i);
    }
    StripSuffix(l0, n, removed);
    assert l0 == l0[..n] + l0[n..];
    L0ViewAppend(l0[..n], l0[n..], k);
  }

  lemma OldestPart(l0: seq<FileMeta>, upper: seq<FileMeta>, i: nat)
    requires |upper| <= |l0| && upper == Reverse(l0[..|upper|]) && i < |l0|
    requires NumbersIncrease(l0)
    ensures l0[i] in upper <==> i < |upper|
  {
    var n := |upper|;
    assert i < n ==> upper[n - 1 - i] == l0[..n][i] == l0[i];
    if l0[i] in upper {
      var j :| 0 <= j < n && upper[j] == l0[i];
      assert l0[n - 1 - j] == l0[i];
    }
  }

  lemma DeepSourceView(v: Version, c: Compaction, upper: seq<FileMeta>, lo: Key, hi: Key, k: Key)
    requires ValidVersion(v) && Stands(v, c, upper, lo, hi) && c.sourceLevel > 0
    ensures LevelView(v.levels[c.sourceLevel], k) ==
            OrElse(LevelView(Strip(v.levels[c.sourceLevel], NumbersOf(c.inputs)), k), LevelView(upper, k))
  {
    var level := v.levels[c.sourceLevel];
    var stay := Strip(level, NumbersOf(c.inputs));
    forall f | f in level ensures f in stay <==> f != level[0] {
      RemovedFromSource(v, c, upper, lo, hi, f);
    }
    StripKeepsOrder(level, NumbersOf(c.inputs));
    LevelViewOne(level[0], k);
    LevelViewNone(level, k);
    LevelViewNone(stay, k);
    if f :| f in level && Lookup(f.run, k).Some? {
      LevelViewMember(level, f, k);
      if f in stay {
        LevelViewMember(stay, f, k);
      } else {
        OneHolder(level, f, k);
      }
    }
  }

  lemma OneHolder(files: seq<FileMeta>, f: FileMeta, k: Key)
    requires FilesOk(files) && LevelSorted(files) && f in files && Lookup(f.run, k).Some?
    ensures forall g :: g in files && g != f ==> Lookup(g.run, k).None?
  {
    KeysInRange(f, k);
    var i :| 0 <= i < |files| && files[i] == f;
    forall g | g in files && g != f ensures Lookup(g.run, k).None? {
      var j :| 0 <= j < |files| && files[j] == g;
      if Lookup(g.run, k).Some? {
        KeysInRange(g, k);
      }
    }
  }

  // ---- Installing --------------------------------------------------------------------------------

  /** An answer is kept, or was a tombstone and is gone. */
  ghost predicate Reclaimed(before: Option<Entry>, after: Option<Entry>) {
    after == before || (before.Some? && before.value.tombstone && after.None?)
  }

  lemma InstallShape(v: Version, c: Compaction, outs: seq<FileMeta>)
    requires c.targetLevel == c.sourceLevel + 1 && c.targetLevel < |v.levels|
    ensures var w := Install(v, c, outs);
      && |w.levels| == |v.levels|
      && w.levels[c.sourceLevel] == Strip(v.levels[c.sourceLevel], NumbersOf(c.inputs))
      && w.levels[c.targetLevel] == NewTarget(v, c, outs)
      && forall l :: 0 <= l < |v.levels| && l != c.sourceLevel && l != c.targetLevel ==> w.levels[l] == v.levels[l]
  {
  }

  /** From the source level down, only a tombstone can disappear. */
  lemma InstallDeepView(v: Version, c: Compaction, upper: seq<FileMeta>, lo: Key, hi: Key, outs: seq<FileMeta>, k: Key)
    requires ValidVersion(v) && Stands(v, c, upper, lo, hi) && IsOutput(c, outs) && c.targetLevel < |v.levels|
    ensures var w := Install(v, c, outs);
      Reclaimed(OrElse(LevelView(upper, k), DeepView(v, c.targetLevel, k)), DeepView(w, c.targetLevel, k))
  {
    hide Lt, Le, Rank, LevelView, Install, NewTarget, ValidVersion, IsOutput;
    var w := Install(v, c, outs);
    InstallShape(v, c, outs);
    NewTargetView(v, c, upper, lo, hi, outs, k);
    DeepViewSame(v, w, c.targetLevel + 1, k);
    if c.bottommost {
      DeepViewEmpty(v, c.targetLevel + 1, k);
    }
  }

  lemma {:induction false} DeepViewAbove(v: Version, w: Version, from: nat, to: nat, k: Key)
    requires from <= to <= |v.levels| == |w.levels|
    requires forall l :: from <= l < to ==> v.levels[l] == w.levels[l]
    requires Reclaimed(DeepView(v, to, k), DeepView(w, to, k))
    ensures Reclaimed(DeepView(v, from, k), DeepView(w, from, k))
    decreases |v.levels| - from
  {
    if from < to {
      DeepViewAbove(v, w, from + 1, to, k);
    }
  }

  lemma InstallViewWide(v: Version, c: Compaction, upper: seq<FileMeta>, lo: Key, hi: Key, outs: seq<FileMeta>, k: Key)
    requires ValidVersion(v) && Stands(v, c, upper, lo, hi) && IsOutput(c, outs) && c.targetLevel < |v.levels|
    ensures Reclaimed(View(v, k), View(Install(v, c, outs), k))
  {
    hide Lt, Le, Rank, LevelView, Install, NewTarget, ValidVersion, IsOutput;
    var w := Install(v, c, outs);
    InstallShape(v, c, outs);
    SourceView(v, c, upper, lo, hi, k);
    InstallDeepView(v, c, upper, lo, hi, outs, k);
    if c.sourceLevel > 0 {
      DeepViewAbove(v, w, 1, c.sourceLevel, k);
    }
  }

  /** Adding empty levels changes nothing. */
  lemma {:induction false} DeepViewResized(v: Version, n: nat, from: nat, k: Key)
    ensures DeepView(Version(Resized(v.levels, n)), from, k) == DeepView(v, from, k)
    decreases |Resized(v.levels, n)| - from
  {
    var w := Version(Resized(v.levels, n));
    if from < |w.levels| {
      DeepViewResized(v, n, from + 1, k);
      if from >= |v.levels| {
        LevelViewNone(w.levels[from], k);
      }
    }
  }

  lemma ResizedStands(v: Version, c: Compaction, upper: seq<FileMeta>, lo: Key, hi: Key, outs: seq<FileMeta>)
    requires ValidVersion(v) && Stands(v, c, upper, lo, hi)
    ensures var w := Version(Resized(v.levels, c.targetLevel + 1));
      ValidVersion(w) && Stands(w, c, upper, lo, hi) && Install(w, c, outs) == Install(v, c, outs)
  {
    hide Lt, Le, Rank, ValidVersion, Overlapping, NumbersOf, Strip, SortBySmallest, Reverse;
    var w := Version(Resized(v.levels, c.targetLevel + 1));
    ResizedValid(v, c.targetLevel + 1);
    assert v.levels != [] && w.levels[0] == v.levels[0];
    assert LevelOf(w, c.targetLevel) == LevelOf(v, c.targetLevel);
    assert Resized(w.levels, c.targetLevel + 1) == w.levels;
  }

  lemma ResizedValid(v: Version, n: nat)
    requires ValidVersion(v)
    ensures ValidVersion(Version(Resized(v.levels, n)))
  {
    hide FileOk, Lt;
  }

  /** Whatever was flushed since the pick, installing a compaction changes no visible value: every answer is the
  same, except that a tombstone at the bottom may have become nothing. */
  lemma InstallPreservesView(v: Version, c: Compaction, outs: seq<FileMeta>, k: Key)
    requires ValidVersion(v) && Installable(v, c) && IsOutput(c, outs)
    ensures Reclaimed(View(v, k), View(Install(v, c, outs), k))
    ensures Visible(View(Install(v, c, outs), k)) == Visible(View(v, k))
  {
    hide Lt, Le, Rank, Install, IsOutput, LevelView, Overlapping, NoDataBelow, FilesOk, DistinctNumbers,
      NumbersIncrease, LevelSorted, ApartNumbers;
    var upper, lo, hi :| Stands(v, c, upper, lo, hi);
    var w := Version(Resized(v.levels, c.targetLevel + 1));
    ResizedStands(v, c, upper, lo, hi, outs);
    InstallViewWide(w, c, upper, lo, hi, outs, k);
    DeepViewResized(v, c.targetLevel + 1, 1, k);
  }

  // ---- What becomes of a deleted key -------------------------------------------------------------

  /** No file that stays in the target level holds a key of the inputs. */
  lemma StayersLackKey(v: Version, c: Compaction, upper: seq<FileMeta>, lo: Key, hi: Key, u: FileMeta, k: Key)
    requires ValidVersion(v) && Stands(v, c, upper, lo, hi) && Newest(RunsIn(c.inputs), k).Some?
    requires u in LevelOf(v, c.targetLevel) && !Overlaps(u, lo, hi)
    ensures Lookup(u.run, k).None?
  {
    hide Lt, Le, Rank, Newest, Overlapping, Stands;
    UnselectedOnOneSide(v, c, upper, lo, hi, u);
    InputsOk(v, c, upper, lo, hi);
    LevelViewNone(c.inputs, k);
    var f :| f in c.inputs && Lookup(f.run, k).Some?;
    KeysInRange(f, k);
    StayerOk(v, c.targetLevel, u);
    if Lookup(u.run, k).Some? {
      KeysInRange(u, k);
      RangesApart(u, f, k);
    }
  }

  lemma RangesApart(u: FileMeta, f: FileMeta, k: Key)
    requires Le(u.smallest, k) && Le(k, u.largest) && Le(f.smallest, k) && Le(k, f.largest)
    ensures !Lt(u.largest, f.smallest) && !Lt(f.largest, u.smallest)
  {
  }

  lemma StayerOk(v: Version, l: nat, u: FileMeta)
    requires ValidVersion(v) && u in LevelOf(v, l)
    ensures FileOk(u)
  {
    hide FileOk;
  }

  lemma InputsOk(v: Version, c: Compaction, upper: seq<FileMeta>, lo: Key, hi: Key)
    requires ValidVersion(v) && Stands(v, c, upper, lo, hi)
    ensures FilesOk(c.inputs)
  {
    hide Lt, Le, Rank, FileOk;
    UpperLive(v, c, upper, lo, hi);
  }

  lemma NewTargetMembers(v: Version, c: Compaction, outs: seq<FileMeta>)
    ensures forall f :: f in NewTarget(v, c, outs) <==>
      f in outs || (f in LevelOf(v, c.targetLevel) && f.number !in NumbersOf(c.inputs))
  {
    hide NumbersOf;
  }

  lemma NewTargetKey(v: Version, c: Compaction, upper: seq<FileMeta>, lo: Key, hi: Key, outs: seq<FileMeta>, k: Key)
    requires ValidVersion(v) && Stands(v, c, upper, lo, hi) && IsOutput(c, outs) && Newest(RunsIn(c.inputs), k).Some?
    ensures var e := Newest(RunsIn(c.inputs), k).value;
      LevelView(NewTarget(v, c, outs), k) == if c.bottommost && e.tombstone then None else Some(e)
  {
    hide Lt, Le, Rank, Newest, IsMerge, FileOk, Stands, NewTarget, Overlapping, NumbersOf, Kept, Concat, LevelSorted,
      ValidVersion;
    var target := NewTarget(v, c, outs);
    NewTargetMembers(v, c, outs);
    NewTargetIsLevel(v, c, upper, lo, hi, outs);
    OutputView(c, outs, k);
    LevelViewNone(outs, k);
    LevelViewNone(target, k);
    forall f | f in target && Lookup(f.run, k).Some? ensures f in outs {
      if f !in outs {
        RemovedFromTarget(v, c, upper, lo, hi, f);
        StayersLackKey(v, c, upper, lo, hi, f, k);
      }
    }
    if o :| o in outs && Lookup(o.run, k).Some? {
      LevelViewMember(outs, o, k);
      LevelViewMember(target, o, k);
    }
  }

  /** A key of the inputs is in the new target level with its newest entry, unless that is a tombstone and every level
  below is empty: then the key is gone. */
  lemma CompactedKey(v: Version, c: Compaction, outs: seq<FileMeta>, k: Key)
    requires ValidVersion(v) && Installable(v, c) && IsOutput(c, outs) && Newest(RunsIn(c.inputs), k).Some?
    ensures c.targetLevel == c.sourceLevel + 1 && c.targetLevel < |Install(v, c, outs).levels|
    ensures var e, target := Newest(RunsIn(c.inputs), k).value, Install(v, c, outs).levels[c.targetLevel];
      LevelView(target, k) ==
        if e.tombstone && (forall l :: c.targetLevel < l < |v.levels| ==> v.levels[l] == []) then None else Some(e)
  {
    hide Lt, Le, Rank, Newest, IsOutput, LevelView, Overlapping, ValidVersion, Strip, SortBySmallest, NumbersOf,
      Install;
    var upper, lo, hi :| Stands(v, c, upper, lo, hi);
    var w := Version(Resized(v.levels, c.targetLevel + 1));
    ResizedStands(v, c, upper, lo, hi, outs);
    InstallShape(w, c, outs);
    NewTargetKey(w, c, upper, lo, hi, outs, k);
  }

  /** Where every level below the target is empty, no output holds a tombstone. */
  lemma BottomHasNoTombstones(v: Version, c: Compaction, outs: seq<FileMeta>)
    requires Installable(v, c) && IsOutput(c, outs)
    requires forall l :: c.targetLevel < l < |v.levels| ==> v.levels[l] == []
    ensures forall o, e :: o in outs && e in o.run ==> !e.tombstone
  {
    hide Lt, Le, Rank, Overlapping, FileOk, IsMerge;
    var m :| IsMerge(RunsIn(c.inputs), m) && Concat(outs) == Kept(m, c.bottommost);
    ConcatMembers(outs);
  }

  /** Numbers of newly written files: distinct, and none of them in use. */
  ghost predicate FreshNumbers(v: Version, outs: seq<FileMeta>) {
    DistinctNumbers(outs) && forall o, g :: o in outs && Live(v, g) ==> o.number != g.number
  }

  /** Installing a compaction keeps every version invariant: levels sorted and non-overlapping, L0 in number
  order, numbers unique. */
  lemma InstallKeepsValid(v: Version, c: Compaction, outs: seq<FileMeta>)
    requires ValidVersion(v) && Installable(v, c) && IsOutput(c, outs) && FreshNumbers(v, outs)
    ensures ValidVersion(Install(v, c, outs))
  {
    hide Lt, Le, Rank, Install, IsOutput, Stands, Strip, NumbersOf;
    var upper, lo, hi :| Stands(v, c, upper, lo, hi);
    var w := Version(Resized(v.levels, c.targetLevel + 1));
    ResizedStands(v, c, upper, lo, hi, outs);
    forall g | Live(w, g) ensures Live(v, g) {
      var l :| 0 <= l < |w.levels| && g in w.levels[l];
      assert g in v.levels[l];
    }
    InstallWideValid(w, c, upper, lo, hi, outs);
  }

  lemma InstallWideValid(v: Version, c: Compaction, upper: seq<FileMeta>, lo: Key, hi: Key, outs: seq<FileMeta>)
    requires ValidVersion(v) && Stands(v, c, upper, lo, hi) && IsOutput(c, outs) && c.targetLevel < |v.levels|
    requires FreshNumbers(v, outs)
    ensures ValidVersion(Install(v, c, outs))
  {
    hide Lt, Le, Rank, Install, NewTarget, IsOutput, Strip, NumbersOf;
    InstallShape(v, c, outs);
    StripKeepsOrder(v.levels[c.sourceLevel], NumbersOf(c.inputs));
    NewTargetIsLevel(v, c, upper, lo, hi, outs);
    NewTargetDistinct(v, c, outs);
    InstallApart(v, c, outs);
  }

  lemma InstallApart(v: Version, c: Compaction, outs: seq<FileMeta>)
    requires c.targetLevel == c.sourceLevel + 1 && c.targetLevel < |v.levels|
    requires forall l, m :: 0 <= l < m < |v.levels| ==> ApartNumbers(v.levels[l], v.levels[m])
    requires FreshNumbers(v, outs)
    ensures var w := Install(v, c, outs);
      forall l, m :: 0 <= l < m < |w.levels| ==> ApartNumbers(w.levels[l], w.levels[m])
  {
    hide Lt, Le, Rank, Install, NewTarget, Strip, NumbersOf;
    var w := Install(v, c, outs);
    InstallShape(v, c, outs);
    forall l, m | 0 <= l < m < |w.levels| ensures ApartNumbers(w.levels[l], w.levels[m]) {
      InstallMembers(v, c, outs, l);
      InstallMembers(v, c, outs, m);
      assert ApartNumbers(v.levels[l], v.levels[m]);
    }
  }

  /** Every file of the new version was in the same level before, or is an output in the target level. */
  lemma InstallMembers(v: Version, c: Compaction, outs: seq<FileMeta>, l: nat)
    requires c.targetLevel == c.sourceLevel + 1 && c.targetLevel < |v.levels| && l < |v.levels|
    ensures forall f :: f in Install(v, c, outs).levels[l] ==>
      (f in v.levels[l] && Live(v, f)) || (l == c.targetLevel && f in outs)
  {
    InstallShape(v, c, outs);
  }

  lemma NewTargetDistinct(v: Version, c: Compaction, outs: seq<FileMeta>)
    requires ValidVersion(v) && c.targetLevel < |v.levels| && FreshNumbers(v, outs)
    ensures DistinctNumbers(NewTarget(v, c, outs))
  {
    var level := v.levels[c.targetLevel];
    var stay := Strip(level, NumbersOf(c.inputs));
    StripKeepsOrder(level, NumbersOf(c.inputs));
    var s := stay + outs;
    forall i, j | 0 <= i < j < |s| ensures s[i].number != s[j].number {
      if i < |stay| <= j {
        assert s[i] in stay && s[j] in outs;
        assert Live(v, s[i]);
      }
    }
    SortKeepsDistinct(s);
  }

  lemma ResizedLive(v: Version, n: nat, g: FileMeta)
    ensures Live(Version(Resized(v.levels, n)), g) <==> Live(v, g)
  {
    var w := Version(Resized(v.levels, n));
    if Live(w, g) {
      var l :| 0 <= l < |w.levels| && g in w.levels[l];
      assert g in v.levels[l];
    }
    if Live(v, g) {
      var l :| 0 <= l < |v.levels| && g in v.levels[l];
      assert g in w.levels[l];
    }
  }

  /** After the install no input is left in the version, and L0 has only files it had before. */
  lemma InstallDropsInputs(v: Version, c: Compaction, outs: seq<FileMeta>)
    requires ValidVersion(v) && Installable(v, c) && FreshNumbers(v, outs)
    ensures forall f, g :: f in c.inputs && Live(Install(v, c, outs), g) ==> f.number != g.number
    ensures forall f :: f in c.inputs ==> Live(v, f)
    ensures forall g :: Live(Install(v, c, outs), g) ==> Live(v, g) || g in outs
    ensures forall g :: g in Install(v, c, outs).levels[0] ==> g in v.levels[0]
  {
    hide Lt, Le, Rank, Install, Stands, ValidVersion, Live;
    var upper, lo, hi :| Stands(v, c, upper, lo, hi);
    StandsLevels(v, c, upper, lo, hi);
    var w := Version(Resized(v.levels, c.targetLevel + 1));
    ResizedStands(v, c, upper, lo, hi, outs);
    forall g ensures Live(w, g) <==> Live(v, g) {
      ResizedLive(v, c.targetLevel + 1, g);
    }
    WideDropsInputs(w, c, upper, lo, hi, outs);
  }

  lemma InputsLive(v: Version, c: Compaction, upper: seq<FileMeta>, lo: Key, hi: Key, f: FileMeta)
    requires ValidVersion(v) && Stands(v, c, upper, lo, hi) && c.targetLevel < |v.levels| && f in c.inputs
    ensures Live(v, f) && (f in v.levels[c.sourceLevel] || f in v.levels[c.targetLevel])
  {
    hide Lt, Le, Rank;
    UpperLive(v, c, upper, lo, hi);
    assert f in upper || f in v.levels[c.targetLevel];
  }

  lemma WideDropsInputs(v: Version, c: Compaction, upper: seq<FileMeta>, lo: Key, hi: Key, outs: seq<FileMeta>)
    requires ValidVersion(v) && Stands(v, c, upper, lo, hi) && FreshNumbers(v, outs) && c.targetLevel < |v.levels|
    ensures forall f, g :: f in c.inputs && Live(Install(v, c, outs), g) ==> f.number != g.number
    ensures forall f :: f in c.inputs ==> Live(v, f)
    ensures forall g :: Live(Install(v, c, outs), g) ==> Live(v, g) || g in outs
    ensures forall g :: g in Install(v, c, outs).levels[0] ==> g in v.levels[0]
  {
    hide Lt, Le, Rank, Install, NewTarget, Strip, Stands;
    assert c.targetLevel == c.sourceLevel + 1 by { StandsLevels(v, c, upper, lo, hi); }
    var w := Install(v, c, outs);
    InstallShape(v, c, outs);
    forall f | f in c.inputs ensures Live(v, f) {
      InputsLive(v, c, upper, lo, hi, f);
    }
    forall g | Live(w, g) ensures Live(v, g) || g in outs {
      var l :| 0 <= l < |w.levels| && g in w.levels[l];
      InstallMembers(v, c, outs, l);
    }
    forall g | g in w.levels[0] ensures g in v.levels[0] {
      InstallMembers(v, c, outs, 0);
    }
    forall f, g | f in c.inputs && Live(w, g) ensures f.number != g.number {
      var l :| 0 <= l < |w.levels| && g in w.levels[l];
      InputGone(v, c, upper, lo, hi, outs, f, g, l);
    }
  }

  lemma StandsLevels(v: Version, c: Compaction, upper: seq<FileMeta>, lo: Key, hi: Key)
    requires Stands(v, c, upper, lo, hi)
    ensures c.targetLevel == c.sourceLevel + 1 && c.sourceLevel < |v.levels|
  {
  }

  lemma InputGone(v: Version, c: Compaction, upper: seq<FileMeta>, lo: Key, hi: Key, outs: seq<FileMeta>,
                  f: FileMeta, g: FileMeta, l: nat)
    requires ValidVersion(v) && Stands(v, c, upper, lo, hi) && FreshNumbers(v, outs) && c.targetLevel < |v.levels|
    requires f in c.inputs && l < |v.levels| && g in Install(v, c, outs).levels[l]
    ensures f.number != g.number
  {
    hide Lt, Le, Rank, Install, Stands;
    StandsLevels(v, c, upper, lo, hi);
    InstallShape(v, c, outs);
    InputsLive(v, c, upper, lo, hi, f);
    InstallMembers(v, c, outs, l);
    assert f.number in NumbersOf(c.inputs);
    if l != c.sourceLevel && l != c.targetLevel {
      assert forall m :: 0 <= m < l ==> ApartNumbers(v.levels[m], v.levels[l]);
      assert forall m :: l < m < |v.levels| ==> ApartNumbers(v.levels[l], v.levels[m]);
    }
  }
}
