/** Background compaction makes progress: every compaction moves entries down the tree. */
module CompactionProgress {
  import opened Keys
  import opened Runs
  import opened Merge
  import opened Versions
  import opened CompactionSpec
  import opened CompactionProof

  function Entries(files: seq<FileMeta>): nat {
    if files == [] then 0 else Entries(files[..|files| - 1]) + files[|files| - 1].numEntries
  }

  /** Levels a compaction can still move an entry down from level l. */
  function Height(o: Options, l: nat): nat {
    var top := if o.maxLevels < 2 then 2 else o.maxLevels;
    if l < top then top - l else 0
  }

  /** The sum over all files from level l down of their entries, each weighted by how far it can still fall. */
  function Weight(v: Version, o: Options, l: nat): nat
    decreases |v.levels| - l
  {
    if l >= |v.levels| then 0 else Entries(v.levels[l]) * Height(o, l) + Weight(v, o, l + 1)
  }

  // ---- Counting entries --------------------------------------------------------------------------

  lemma {:induction false} EntriesAppend(a: seq<FileMeta>, b: seq<FileMeta>)
    ensures Entries(a + b) == Entries(a) + Entries(b)
  {
    if b == [] {
      assert a + b == a;
    } else {
      assert (a + b)[..|a + b| - 1] == a + b[..|b| - 1];
      EntriesAppend(a, b[..|b| - 1]);
    }
  }

  lemma {:induction false} EntriesReverse(a: seq<FileMeta>)
    ensures Entries(Reverse(a)) == Entries(a)
  {
    if a != [] {
      var rest, last := a[..|a| - 1], a[|a| - 1];
      EntriesReverse(rest);
      assert Reverse(a) == [last] + Reverse(rest);
      EntriesAppend([last], Reverse(rest));
      assert [last][..0] == [];
    }
  }

  lemma {:induction false} EntriesInsert(files: seq<FileMeta>, f: FileMeta)
    ensures Entries(InsertBySmallest(files, f)) == Entries(files) + f.numEntries
  {
    if files != [] && Lt(f.smallest, files[|files| - 1].smallest) {
      EntriesInsert(files[..|files| - 1], f);
    } else {
      assert (files + [f])[..|files|] == files;
    }
  }

  lemma {:induction false} EntriesSort(files: seq<FileMeta>)
    ensures Entries(SortBySmallest(files)) == Entries(files)
  {
    if files != [] {
      EntriesSort(files[..|files| - 1]);
      EntriesInsert(SortBySmallest(files[..|files| - 1]), files[|files| - 1]);
    }
  }

  /** A level is what stays of it and what a compaction selects from it. */
  lemma {:induction false} EntriesSplit(files: seq<FileMeta>, removed: set<nat>, lo: Key, hi: Key)
    requires forall f :: f in files ==> (f.number in removed <==> Overlaps(f, lo, hi))
    ensures Entries(files) == Entries(Strip(files, removed)) + Entries(Overlapping(files, lo, hi))
  {
    if files != [] {
      EntriesSplit(files[..|files| - 1], removed, lo, hi);
    }
  }

  lemma {:induction false} EntriesOfConcat(files: seq<FileMeta>)
    requires FilesOk(files)
    ensures Entries(files) == |Concat(files)|
  {
    if files != [] {
      assert FileOk(files[|files| - 1]);
      EntriesOfConcat(files[..|files| - 1]);
    }
  }

  ghost function KeysOf(run: Run): set<Key> {
    set e | e in run :: e.key
  }

  lemma {:induction false} SortedKeysCount(run: Run)
    requires Sorted(run)
    ensures |KeysOf(run)| == |run|
  {
    hide Lt, Le, Rank, KeysOf;
    if run == [] {
      assert KeysOf(run) == {} by { NoKeys(run); }
    } else {
      var rest, e := run[..|run| - 1], run[|run| - 1];
      SortedKeysCount(rest);
      KeysOfLast(rest, e);
      assert rest + [e] == run;
      forall i | 0 <= i < |rest| ensures rest[i].key != e.key {
        assert Lt(run[i].key, run[|run| - 1].key);
      }
    }
  }

  lemma NoKeys(run: Run)
    requires run == []
    ensures KeysOf(run) == {}
  {
  }

  lemma KeysOfLast(rest: Run, e: Entry)
    ensures KeysOf(rest + [e]) == KeysOf(rest) + {e.key}
    ensures (forall i :: 0 <= i < |rest| ==> rest[i].key != e.key) ==> e.key !in KeysOf(rest)
  {
    assert e in rest + [e];
  }

  lemma {:induction false} KeysCountAtMost(run: Run)
    ensures |KeysOf(run)| <= |run|
  {
    if run != [] {
      var rest, e := run[..|run| - 1], run[|run| - 1];
      KeysCountAtMost(rest);
      assert KeysOf(run) == KeysOf(rest) + {e.key};
    }
  }

  /** A merge has no more entries than its inputs together. */
  lemma MergeNotLarger(files: seq<FileMeta>, m: Run)
    requires FilesOk(files) && IsMerge(RunsIn(files), m)
    ensures |m| <= Entries(files)
  {
    EntriesOfConcat(files);
    ConcatMembers(files);
    SortedKeysCount(m);
    KeysCountAtMost(Concat(files));
    forall k | k in KeysOf(m) ensures k in KeysOf(Concat(files)) {
      var e :| e in m && e.key == k;
      assert Lookup(m, k).Some?;
      assert LevelView(files, k).Some?;
      LevelViewNone(files, k);
      var f :| f in files && Lookup(f.run, k).Some?;
      assert Lookup(f.run, k).value in Concat(files);
    }
    SubsetCount(KeysOf(m), KeysOf(Concat(files)));
  }

  lemma {:induction false} SubsetCount(a: set<Key>, b: set<Key>)
    requires a <= b
    ensures |a| <= |b|
  {
    if a != {} {
      var x :| x in a;
      SubsetCount(a - {x}, b - {x});
    }
  }

  // ---- Progress ----------------------------------------------------------------------------------

  lemma {:induction false} WeightChange(v: Version, w: Version, o: Options, l: nat, s: nat)
    requires |v.levels| == |w.levels| && l <= s && s + 1 < |v.levels|
    requires forall j :: 0 <= j < |v.levels| && j != s && j != s + 1 ==> v.levels[j] == w.levels[j]
    ensures Weight(w, o, l) - Weight(v, o, l)
         == Entries(w.levels[s]) * Height(o, s) + Entries(w.levels[s + 1]) * Height(o, s + 1)
          - Entries(v.levels[s]) * Height(o, s) - Entries(v.levels[s + 1]) * Height(o, s + 1)
    decreases s - l
  {
    if l < s {
      WeightChange(v, w, o, l + 1, s);
    } else {
      WeightSame(v, w, o, s + 2);
    }
  }

  lemma {:induction false} WeightSame(v: Version, w: Version, o: Options, l: nat)
    requires |v.levels| == |w.levels| && forall j :: l <= j < |v.levels| ==> v.levels[j] == w.levels[j]
    ensures Weight(v, o, l) == Weight(w, o, l)
    decreases |v.levels| - l
  {
    if l < |v.levels| {
      WeightSame(v, w, o, l + 1);
    }
  }

  lemma {:induction false} WeightResized(v: Version, n: nat, o: Options, l: nat)
    ensures Weight(Version(Resized(v.levels, n)), o, l) == Weight(v, o, l)
    decreases |Resized(v.levels, n)| - l
  {
    var w := Version(Resized(v.levels, n));
    if l < |w.levels| {
      WeightResized(v, n, o, l + 1);
    }
  }

  /** What the source level loses, and what the target level loses and gains. */
  lemma EntriesMoved(v: Version, c: Compaction, upper: seq<FileMeta>, lo: Key, hi: Key, outs: seq<FileMeta>)
    requires ValidVersion(v) && Stands(v, c, upper, lo, hi) && IsOutput(c, outs) && c.targetLevel < |v.levels|
    ensures var w := Install(v, c, outs);
      && Entries(v.levels[c.sourceLevel]) == Entries(w.levels[c.sourceLevel]) + Entries(upper)
      && Entries(upper) > 0
      && Entries(w.levels[c.targetLevel]) <= Entries(v.levels[c.targetLevel]) + Entries(upper)
  {
    hide Lt, Le, Rank, NumbersOf, Strip, ValidVersion, Overlapping, NoDataBelow, IsOutput, Install, Sorted;
    InstallShape(v, c, outs);
    SourceEntries(v, c, upper, lo, hi);
    TargetEntries(v, c, upper, lo, hi, outs);
    UpperLive(v, c, upper, lo, hi);
    assert FileOk(upper[|upper| - 1]);
  }

  lemma SourceEntries(v: Version, c: Compaction, upper: seq<FileMeta>, lo: Key, hi: Key)
    requires ValidVersion(v) && Stands(v, c, upper, lo, hi)
    ensures var level := v.levels[c.sourceLevel];
      Entries(level) == Entries(Strip(level, NumbersOf(c.inputs))) + Entries(upper)
  {
    hide Lt, Le, Rank, NumbersOf, Entries, Strip, ValidVersion, Overlapping, NoDataBelow;
    var level, n, removed := v.levels[c.sourceLevel], |upper|, NumbersOf(c.inputs);
    forall i | 0 <= i < |level| ensures level[i].number in removed <==> i < n {
      PickedFirst(v, c, upper, lo, hi, i);
    }
    StripSuffix(level, n, removed);
    assert level == level[..n] + level[n..];
    EntriesAppend(level[..n], level[n..]);
    if c.sourceLevel == 0 {
      EntriesReverse(level[..n]);
    } else {
      assert level[..n] == upper;
    }
  }

  /** The picked files are the first ones of their level. */
  lemma PickedFirst(v: Version, c: Compaction, upper: seq<FileMeta>, lo: Key, hi: Key, i: nat)
    requires ValidVersion(v) && Stands(v, c, upper, lo, hi) && i < |v.levels[c.sourceLevel]|
    ensures v.levels[c.sourceLevel][i].number in NumbersOf(c.inputs) <==> i < |upper|
  {
    hide Lt, Le, Rank, NumbersOf, Overlapping, NoDataBelow;
    var level := v.levels[c.sourceLevel];
    RemovedFromSource(v, c, upper, lo, hi, level[i]);
    if c.sourceLevel == 0 {
      OldestPart(level, upper, i);
    } else if i > 0 {
      assert level[0].number != level[i].number;
    }
  }

  lemma TargetEntries(v: Version, c: Compaction, upper: seq<FileMeta>, lo: Key, hi: Key, outs: seq<FileMeta>)
    requires ValidVersion(v) && Stands(v, c, upper, lo, hi) && IsOutput(c, outs) && c.targetLevel < |v.levels|
    ensures Entries(NewTarget(v, c, outs)) <= Entries(v.levels[c.targetLevel]) + Entries(upper)
  {
    var level, removed := v.levels[c.targetLevel], NumbersOf(c.inputs);
    var stay, lower := Strip(level, removed), Overlapping(level, lo, hi);
    forall f | f in level ensures f.number in removed <==> Overlaps(f, lo, hi) {
      RemovedFromTarget(v, c, upper, lo, hi, f);
    }
    EntriesSplit(level, removed, lo, hi);
    EntriesSort(stay + outs);
    EntriesAppend(stay, outs);
    EntriesAppend(upper, lower);
    UpperLive(v, c, upper, lo, hi);
    assert forall f :: f in c.inputs ==> f in upper || f in level;
    var m :| IsMerge(RunsIn(c.inputs), m) && Concat(outs) == Kept(m, c.bottommost);
    MergeNotLarger(c.inputs, m);
    EntriesOfConcat(outs);
  }

  /** Every compaction of a version, however its outputs are cut, strictly lowers the weight. */
  lemma CompactionLowersWeight(v: Version, o: Options, c: Compaction, outs: seq<FileMeta>)
    requires ValidVersion(v) && OptionsOk(o) && IsPick(v, o, c) && IsOutput(c, outs)
    ensures Weight(Install(v, c, outs), o, 0) < Weight(v, o, 0)
  {
    PickIsInstallable(v, o, c);
    var upper, lo, hi :| Stands(v, c, upper, lo, hi);
    var w := Version(Resized(v.levels, c.targetLevel + 1));
    ResizedStands(v, c, upper, lo, hi, outs);
    WeightResized(v, c.targetLevel + 1, o, 0);
    PickHasRoom(v, o, c);
    WideWeight(w, o, c, upper, lo, hi, outs);
  }

  lemma PickHasRoom(v: Version, o: Options, c: Compaction)
    requires IsPick(v, o, c)
    ensures Height(o, c.sourceLevel) == Height(o, c.targetLevel) + 1
  {
  }

  lemma WideWeight(v: Version, o: Options, c: Compaction, upper: seq<FileMeta>, lo: Key, hi: Key, outs: seq<FileMeta>)
    requires ValidVersion(v) && Stands(v, c, upper, lo, hi) && IsOutput(c, outs) && c.targetLevel < |v.levels|
    requires Height(o, c.sourceLevel) == Height(o, c.targetLevel) + 1
    ensures Weight(Install(v, c, outs), o, 0) < Weight(v, o, 0)
  {
    hide Lt, Le, Rank, Install, IsOutput, ValidVersion, Weight, Entries, Height;
    var w := Install(v, c, outs);
    InstallShape(v, c, outs);
    EntriesMoved(v, c, upper, lo, hi, outs);
    WeightChange(v, w, o, 0, c.sourceLevel);
    Falling(Entries(v.levels[c.sourceLevel]), Entries(w.levels[c.sourceLevel]), Entries(v.levels[c.targetLevel]),
            Entries(w.levels[c.targetLevel]), Height(o, c.targetLevel));
  }

  lemma Falling(s: nat, s': nat, t: nat, t': nat, h: nat)
    requires s' < s && t' <= t + (s - s')
    ensures s' * (h + 1) + t' * h < s * (h + 1) + t * h
  {
    var u := s - s';
    assert t' * h <= (t + u) * h by { assert (t + u - t') * h >= 0; }
    assert (t + u) * h == t * h + u * h;
    assert s * (h + 1) == s' * (h + 1) + u * h + u;
  }
}
