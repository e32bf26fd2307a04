/** The merging iterator: a newest-wins merge of table iterators, given newest first. */
module Merging {
  import opened Keys
  import opened Runs
  import opened Merge
  import opened TableFormat
  import opened TableGet
  import opened TableIterator

  // ---- Iterators and the cursors they follow -----------------------------------------------------

  ghost predicate AllDistinct(its: seq<TableCursor>) {
    forall i, j :: 0 <= i < j < |its| ==> its[i] != its[j]
  }

  ghost function Cursors(its: seq<TableCursor>): (cs: seq<Cursor>)
    reads its
    ensures |cs| == |its| && forall i :: 0 <= i < |its| ==> cs[i] == its[i].cursor
  {
    if its == [] then [] else Cursors(its[..|its| - 1]) + [its[|its| - 1].cursor]
  }

  ghost predicate AllTrack(its: seq<TableCursor>)
    reads its
  {
    forall i :: 0 <= i < |its| ==> its[i].Tracks()
  }

  /** The iterators can be positioned. */
  ghost predicate AllServe(its: seq<TableCursor>)
    reads its
  {
    forall i :: 0 <= i < |its| ==> its[i].Serving()
  }

  lemma TracksCursor(it: TableCursor)
    requires it.Tracks()
    ensures it.cursor.WellFormed() && it.valid == it.cursor.Valid() && it.ok == it.cursor.Ok()
    ensures it.valid ==> Entry(it.key, it.value, it.tombstone) == it.cursor.Head()
    ensures it.Serving()
  {
    hide Serves, LimitFrom;
  }

  lemma TrackWellFormed(its: seq<TableCursor>)
    requires AllTrack(its)
    ensures AllWellFormed(Cursors(its))
  {
    hide TableCursor.Tracks;
    forall i | 0 <= i < |its| ensures Cursors(its)[i].WellFormed() {
      TracksCursor(its[i]);
    }
  }

  class MergingIterator {
    const children: seq<TableCursor>
    var curKey: Key
    var curValue: Bytes
    var curIsTombstone: bool
    var valid: bool
    var ok: bool
    /** Everything emitted so far, the current entry last. */
    ghost var emitted: Run

    constructor (its: seq<TableCursor>)
      ensures children == its && !valid && ok && emitted == []
    {
      children, valid, ok, emitted := its, false, true, [];
      curKey, curValue, curIsTombstone := [], [], false;
    }

    /** The iterator after any number of steps: a merge of its children's runs, or a failure of one of them. */
    ghost predicate Inv()
      reads this, children
    {
      var cs := Cursors(children);
      && AllDistinct(children) && AllTrack(children)
      && MergedSoFar(cs, [], emitted)
      && (valid ==> ok && emitted != [] && emitted[|emitted| - 1] == Entry(curKey, curValue, curIsTombstone))
      && (!valid && ok ==> forall i :: 0 <= i < |cs| ==> cs[i].pos == |cs[i].run|)
      && (!ok ==> !valid && !AllOk(cs))
    }

    method SeekToFirst()
      requires AllDistinct(children) && AllServe(children) && ok
      modifies this, children
      ensures Inv()
      ensures SameSources(FirstCursors(children), Cursors(children))
      ensures emitted == if valid then [Entry(curKey, curValue, curIsTombstone)] else []
    {
      hide TableCursor.Tracks, TableCursor.Serving, MergedSoFar, FirstCursor;
      var i := 0;
      while i < |children|
        invariant 0 <= i <= |children| && ok
        invariant forall j :: 0 <= j < i ==> children[j].Tracks() && children[j].cursor == FirstCursors(children)[j]
        invariant forall j :: i <= j < |children| ==> children[j].Serving()
      {
        children[i].SeekToFirst();
        i := i + 1;
      }
      emitted := [];
      assert AllTrack(children);
      TrackWellFormed(children);
      assert Cursors(children) == FirstCursors(children);
      NothingMerged(children);
      Advance();
    }

    method Next()
      requires Inv()
      modifies this, children
      ensures Inv() && SameSources(old(Cursors(children)), Cursors(children))
      ensures emitted == if valid then old(emitted) + [Entry(curKey, curValue, curIsTombstone)] else old(emitted)
      ensures valid ==> Remaining(Cursors(children)) < old(Remaining(Cursors(children)))
      ensures !old(valid) ==> !valid && ok == old(ok)
    {
      hide TableCursor.Tracks, MergedSoFar, Remaining;
      if !valid {
        return;
      }
      Advance();
    }

    /** Take the least remaining key from the first child that has it, and move every child past it. */
    method Advance()
      requires AllDistinct(children) && AllTrack(children) && MergedSoFar(Cursors(children), [], emitted) && ok
      modifies this, children
      ensures Inv() && SameSources(old(Cursors(children)), Cursors(children))
      ensures emitted == if valid then old(emitted) + [Entry(curKey, curValue, curIsTombstone)] else old(emitted)
      ensures valid ==> Remaining(Cursors(children)) < old(Remaining(Cursors(children)))
    {
      hide TableCursor.Tracks, MergedSoFar, Consume, Remaining, Lt, Le, Rank, AllTrack, Cursors;
      ghost var cs := Cursors(children);
      TrackWellFormed(children);
      var best := LeastChild();
      assert Cursors(children) == cs;
      valid := ok && best >= 0;
      if valid {
        TakeFrom(best);
      } else {
        assert Cursors(children) == cs;
      }
    }

    /** Emit the least key, from the first child that has it. */
    method TakeFrom(best: nat)
      requires AllDistinct(children) && AllTrack(children) && MergedSoFar(Cursors(children), [], emitted)
      requires AllOk(Cursors(children)) && IsLeast(Cursors(children), best)
      modifies this`curKey, this`curValue, this`curIsTombstone, this`emitted, children
      ensures AllTrack(children) && SameSources(old(Cursors(children)), Cursors(children))
      ensures MergedSoFar(Cursors(children), [], emitted)
      ensures emitted == old(emitted) + [Entry(curKey, curValue, curIsTombstone)]
      ensures Remaining(Cursors(children)) < old(Remaining(Cursors(children)))
    {
      hide TableCursor.Tracks, MergedSoFar, Consume, Remaining, Lt, Le, Rank, AllTrack, Cursors, SameSources,
        AllWellFormed, AllOk;
      ghost var cs := Cursors(children);
      TrackAt(children, best);
      curKey := children[best].key;
      var winner := FirstChildOn(best);
      TrackAt(children, winner);
      curValue := children[winner].value;
      curIsTombstone := children[winner].tombstone;
      MergeStep(cs, [], emitted, curKey, winner);
      ConsumeKeeps(cs, curKey);
      ConsumeShrinks(cs, curKey);
      emitted := emitted + [cs[winner].Head()];
      assert Cursors(children) == cs;
      ConsumeKey(children, curKey);
    }

    /** The first child on the least key; a failed child ends the merge. */
    method LeastChild() returns (best: int)
      requires AllTrack(children) && AllWellFormed(Cursors(children)) && ok
      modifies this`ok
      ensures -1 <= best < |children|
      ensures ok == AllOk(Cursors(children))
      ensures ok && best < 0 ==> forall i :: 0 <= i < |children| ==> !Cursors(children)[i].Valid()
      ensures ok && best >= 0 ==> IsLeast(Cursors(children), best)
    {
      hide TableCursor.Tracks, Lt, Le, Rank, AllTrack;
      best := -1;
      ghost var cs := Cursors(children);
      var i := 0;
      while i < |children|
        invariant 0 <= i <= |children| && -1 <= best < i && ok
        invariant forall j :: 0 <= j < i ==> cs[j].Ok()
        invariant best < 0 ==> forall j :: 0 <= j < i ==> !cs[j].Valid()
        invariant best >= 0 ==> cs[best].Valid()
        invariant best >= 0 ==> forall j :: 0 <= j < i && cs[j].Valid() ==> Le(cs[best].Head().key, cs[j].Head().key)
      {
        TrackAt(children, i);
        if !children[i].ok {
          ok := false;
          return;
        }
        if children[i].valid {
          if best >= 0 {
            TrackAt(children, best);
          }
          if best < 0 || Lt(children[i].key, children[best].key) {
            best := i;
          }
        }
        i := i + 1;
      }
    }

    /** The highest-priority child that stands on the current key. */
    method FirstChildOn(best: nat) returns (winner: nat)
      requires AllTrack(children) && AllWellFormed(Cursors(children))
      requires best < |children| && OnKey(Cursors(children)[best], curKey)
      ensures FirstOn(Cursors(children), curKey, winner)
    {
      hide TableCursor.Tracks, AllTrack;
      winner := 0;
      TrackAt(children, winner);
      while !(children[winner].valid && children[winner].key == curKey)
        invariant winner <= best
        invariant forall j :: 0 <= j < winner ==> !OnKey(Cursors(children)[j], curKey)
        invariant TracksAt(children, winner)
        decreases best - winner
      {
        TrackAt(children, best);
        winner := winner + 1;
        TrackAt(children, winner);
      }
    }
  }

  /** Move every iterator that stands on the key past it. */
  method ConsumeKey(its: seq<TableCursor>, k: Key)
    requires AllDistinct(its) && AllTrack(its) && AllWellFormed(Cursors(its))
    modifies its
    ensures AllTrack(its) && Cursors(its) == Consume(old(Cursors(its)), k)
  {
    hide TableCursor.Tracks, Cursors, Consume;
    ghost var before := Cursors(its);
    var i := 0;
    while i < |its|
      invariant 0 <= i <= |its| == |before|
      invariant AllTrack(its)
      invariant forall j :: 0 <= j < i ==> its[j].cursor == Consume(before, k)[j]
      invariant forall j :: i <= j < |its| ==> its[j].cursor == before[j]
    {
      TracksCursor(its[i]);
      if its[i].valid && its[i].key == k {
        its[i].Next();
      }
      i := i + 1;
    }
    assert Cursors(its) == Consume(before, k);
  }

  /** Child i stands on the least key. */
  ghost predicate IsLeast(cs: seq<Cursor>, i: nat) {
    AllWellFormed(cs) && i < |cs| && cs[i].Valid() && LeastHead(cs, cs[i].Head().key)
  }

  /** What an iterator shows is what its cursor says. */
  ghost predicate TracksAt(its: seq<TableCursor>, i: nat)
    reads its
  {
    && i < |its| && its[i].cursor.WellFormed()
    && its[i].valid == its[i].cursor.Valid() && its[i].ok == its[i].cursor.Ok()
    && (its[i].valid ==> Entry(its[i].key, its[i].value, its[i].tombstone) == its[i].cursor.Head())
  }

  lemma TrackAt(its: seq<TableCursor>, i: nat)
    requires AllTrack(its) && i < |its|
    ensures TracksAt(its, i)
  {
    hide TableCursor.Tracks;
    TracksCursor(its[i]);
  }

  ghost function FirstCursors(its: seq<TableCursor>): (cs: seq<Cursor>)
    ensures |cs| == |its| && forall i :: 0 <= i < |its| ==> cs[i] == FirstCursor(its[i].reader, its[i].blocks)
  {
    seq(|its|, i requires 0 <= i < |its| => FirstCursor(its[i].reader, its[i].blocks))
  }

  lemma NothingMerged(its: seq<TableCursor>)
    ensures MergedSoFar(FirstCursors(its), [], [])
  {
    hide LimitFrom, Flatten;
  }
}
